/** The string primitives the maintenance scripts use: ECMAScript whitespace
    (the set shared by `String.prototype.trim` and the RegExp class `\s`), the
    RegExp word class `\w`, ASCII case folding, `split` on a character, the last
    token of `split(/\s+/)`, and a literal, global `replace`. */
module JsText {

  /** ECMAScript WhiteSpace and LineTerminator code points. */
  predicate IsSpace(c: char) {
    c == '\t' || c == '\n' || c == '\U{000B}' || c == '\U{000C}' || c == '\r' || c == ' '
    || c == '\U{00A0}' || c == '\U{1680}' || ('\U{2000}' <= c <= '\U{200A}')
    || c == '\U{2028}' || c == '\U{2029}' || c == '\U{202F}' || c == '\U{205F}'
    || c == '\U{3000}' || c == '\U{FEFF}'
  }

  /** The RegExp class `\w` (without the `u` flag): ASCII letters, digits and `_`. */
  predicate IsWordChar(c: char) {
    ('a' <= c <= 'z') || ('A' <= c <= 'Z') || ('0' <= c <= '9') || c == '_'
  }

  predicate IsUpper(c: char) { 'A' <= c <= 'Z' }

  function ToLowerChar(c: char): char {
    if IsUpper(c) then (c as int + 32) as char else c
  }

  function ToLower(s: string): (r: string)
    ensures |r| == |s|
  {
    seq(|s|, i requires 0 <= i < |s| => ToLowerChar(s[i]))
  }

  function EndsWith(s: string, c: char): bool {
    |s| > 0 && s[|s| - 1] == c
  }

  /** Two strings are equal ignoring case exactly when they have the same length
      and agree on every character that is not an ASCII letter. */
  lemma {:induction false} SameLowerAgreesOffLetters(a: string, b: string, i: nat)
    requires ToLower(a) == ToLower(b)
    requires i < |a|
    ensures |a| == |b|
    ensures !IsUpper(a[i]) && !('a' <= a[i] <= 'z') ==> b[i] == a[i]
  {
    assert ToLower(a)[i] == ToLowerChar(a[i]);
    assert ToLower(b)[i] == ToLowerChar(b[i]);
  }

  lemma {:induction false} ToLowerConcat(a: string, b: string)
    ensures ToLower(a + b) == ToLower(a) + ToLower(b)
  {
    assert forall i | 0 <= i < |a + b| :: ToLower(a + b)[i] == (ToLower(a) + ToLower(b))[i];
  }

  lemma {:induction false} ToLowerIdempotent(s: string)
    ensures ToLower(ToLower(s)) == ToLower(s)
  {
    assert forall i | 0 <= i < |s| :: ToLower(ToLower(s))[i] == ToLower(s)[i];
  }

  /** Associativity of concatenation, stated for any element type so that
      sequences of strings are compared without looking inside the strings. */
  lemma {:induction false} ConcatAssoc<T>(x: seq<T>, y: seq<T>, z: seq<T>)
    ensures x + (y + z) == (x + y) + z
  {
  }

  // ---------------------------------------------------------------- trim

  function TrimStart(s: string): (r: string)
    ensures |r| <= |s| && r == s[|s| - |r|..]
    ensures r != [] ==> !IsSpace(r[0])
    ensures forall i :: 0 <= i < |s| - |r| ==> IsSpace(s[i])
  {
    if s != [] && IsSpace(s[0]) then TrimStart(s[1..]) else s
  }

  function TrimEnd(s: string): (r: string)
    ensures |r| <= |s| && r == s[..|r|]
    ensures r != [] ==> !IsSpace(r[|r| - 1])
    ensures forall i :: |r| <= i < |s| ==> IsSpace(s[i])
  {
    if s != [] && IsSpace(s[|s| - 1]) then TrimEnd(s[..|s| - 1]) else s
  }

  /** `String.prototype.trim`: the slice left after removing leading and
      trailing whitespace. */
  function Trim(s: string): (r: string)
    ensures r != [] ==> !IsSpace(r[0]) && !IsSpace(r[|r| - 1])
  {
    TrimEnd(TrimStart(s))
  }

  /** Trimming only removes whitespace: what is left is a slice of the text. */
  lemma {:induction false} TrimIsSlice(s: string)
    ensures exists i, j :: 0 <= i <= j <= |s| && Trim(s) == s[i..j]
  {
    var t := TrimStart(s);
    var r := TrimEnd(t);
    assert r == s[|s| - |t|..|s| - |t| + |r|];
  }

  lemma {:induction false} TrimOfBlank(s: string)
    requires forall i :: 0 <= i < |s| ==> IsSpace(s[i])
    ensures Trim(s) == []
  {
  }

  // ---------------------------------------------------------------- split

  /** `s.split(sep)` for a one-character separator. */
  function Split(s: string, sep: char): (parts: seq<string>)
    ensures |parts| >= 1
    ensures forall p <- parts :: sep !in p
  {
    if s == [] then [[]]
    else
      var rest := Split(s[1..], sep);
      if s[0] == sep then [[]] + rest else [[s[0]] + rest[0]] + rest[1..]
  }

  /** `parts.join(sep)` for a one-character separator. */
  function Join(parts: seq<string>, sep: char): string {
    if |parts| == 0 then []
    else if |parts| == 1 then parts[0]
    else parts[0] + [sep] + Join(parts[1..], sep)
  }

  lemma {:induction false} JoinConsHead(c: char, rest: seq<string>, sep: char)
    requires |rest| >= 1
    ensures Join([[c] + rest[0]] + rest[1..], sep) == [c] + Join(rest, sep)
  {
    var parts := [[c] + rest[0]] + rest[1..];
    if |rest| > 1 {
      assert parts[1..] == rest[1..];
    }
  }

  /** Splitting and joining again gives back the text. */
  lemma {:induction false} JoinSplit(s: string, sep: char)
    ensures Join(Split(s, sep), sep) == s
  {
    if s != [] {
      var rest := Split(s[1..], sep);
      JoinSplit(s[1..], sep);
      if s[0] == sep {
        assert ([[]] + rest)[1..] == rest;
      } else {
        JoinConsHead(s[0], rest, sep);
      }
    }
  }

  /** Joining separator-free parts and splitting again gives back the parts. */
  lemma {:induction false} SplitJoin(parts: seq<string>, sep: char)
    requires |parts| >= 1
    requires forall p <- parts :: sep !in p
    ensures Split(Join(parts, sep), sep) == parts
  {
    if |parts| == 1 {
      SplitNoSep(parts[0], sep);
    } else {
      SplitJoin(parts[1..], sep);
      SplitHeadThenSep(parts[0], Join(parts[1..], sep), sep);
      assert [parts[0]] + parts[1..] == parts;
    }
  }

  lemma {:induction false} SplitNoSep(s: string, sep: char)
    requires sep !in s
    ensures Split(s, sep) == [s]
  {
    if s != [] {
      SplitNoSep(s[1..], sep);
      assert [s[0]] + s[1..] == s;
    }
  }

  lemma {:induction false} SplitHeadThenSep(h: string, t: string, sep: char)
    requires sep !in h
    ensures Split(h + [sep] + t, sep) == [h] + Split(t, sep)
  {
    var s := h + [sep] + t;
    if h == [] {
      assert s[1..] == t;
    } else {
      assert s[1..] == h[1..] + [sep] + t;
      SplitHeadThenSep(h[1..], t, sep);
      assert [h[0]] + h[1..] == h;
    }
  }

  // ---------------------------------------------------------------- tokens

  /** The last element of `t.split(/\s+/)`: the longest suffix of `t` that holds
      no whitespace (empty when `t` ends in whitespace or is empty). */
  function LastToken(t: string): (tok: string)
    ensures |tok| <= |t| && tok == t[|t| - |tok|..]
  {
    t[TokenStart(t, |t|)..]
  }

  /** The start of the whitespace-free run that ends at `j`. */
  function TokenStart(t: string, j: nat): (k: nat)
    requires j <= |t|
    ensures k <= j
    ensures forall i :: k <= i < j ==> !IsSpace(t[i])
    ensures k > 0 ==> IsSpace(t[k - 1])
  {
    if j == 0 || IsSpace(t[j - 1]) then j else TokenStart(t, j - 1)
  }

  /** The last token holds no whitespace and is preceded by whitespace unless
      it is all of `t`. */
  lemma {:induction false} LastTokenFacts(t: string)
    ensures var tok := LastToken(t);
      && (forall c <- tok :: !IsSpace(c))
      && (|tok| < |t| ==> IsSpace(t[|t| - |tok| - 1]))
  {
    var k := TokenStart(t, |t|);
    assert forall c <- t[k..] :: exists i :: k <= i < |t| && c == t[i];
  }

  // ---------------------------------------------------------------- replace

  predicate OccursAt(s: string, pat: string, i: nat) {
    i + |pat| <= |s| && s[i..i + |pat|] == pat
  }

  /** `s.replace(new RegExp(escaped(pat), 'g'), rep)` for a replacement without
      `$` patterns: every occurrence of `pat`, found left to right without
      overlap, becomes `rep`. */
  function ReplaceAll(s: string, pat: string, rep: string): string
    requires pat != []
    decreases |s|
  {
    if |s| < |pat| then s
    else if s[..|pat|] == pat then rep + ReplaceAll(s[|pat|..], pat, rep)
    else [s[0]] + ReplaceAll(s[1..], pat, rep)
  }

  /** A text that does not contain the pattern is left as it is. */
  lemma {:induction false} ReplaceAllAbsent(s: string, pat: string, rep: string)
    requires pat != []
    requires forall i :: 0 <= i < |s| ==> !OccursAt(s, pat, i)
    ensures ReplaceAll(s, pat, rep) == s
    decreases |s|
  {
    if |s| >= |pat| {
      assert !OccursAt(s, pat, 0);
      forall i | 0 <= i < |s[1..]| ensures !OccursAt(s[1..], pat, i) {
        assert !OccursAt(s, pat, i + 1);
        if i + |pat| <= |s[1..]| {
          assert s[1..][i..i + |pat|] == s[i + 1..i + 1 + |pat|];
        }
      }
      ReplaceAllAbsent(s[1..], pat, rep);
      assert [s[0]] + s[1..] == s;
    }
  }

  /** The leftmost occurrence is replaced and the scan resumes right after it;
      the text before it is copied unchanged. */
  lemma {:induction false} ReplaceAllLeftmost(x: string, pat: string, rep: string, y: string)
    requires pat != []
    requires forall i :: 0 <= i < |x| ==> !OccursAt(x + pat + y, pat, i)
    ensures ReplaceAll(x + pat + y, pat, rep) == x + rep + ReplaceAll(y, pat, rep)
    decreases |x|
  {
    var s := x + pat + y;
    if x == [] {
      assert s[..|pat|] == pat;
      assert s[|pat|..] == y;
    } else {
      assert !OccursAt(s, pat, 0);
      ReplaceAllSkip(s, pat, rep);
      assert s[1..] == x[1..] + pat + y;
      NoOccurrenceShift(x, pat, y);
      ReplaceAllLeftmost(x[1..], pat, rep, y);
      ConsConcat(x, rep, ReplaceAll(y, pat, rep));
    }
  }

  /** Where the pattern does not start the text, its first character is
      copied and the scan moves one character on. */
  lemma {:induction false} ReplaceAllSkip(s: string, pat: string, rep: string)
    requires pat != [] && |s| >= |pat| && !OccursAt(s, pat, 0)
    ensures ReplaceAll(s, pat, rep) == [s[0]] + ReplaceAll(s[1..], pat, rep)
  {
    assert s[..|pat|] != pat;
  }

  lemma {:induction false} ConsConcat<T>(x: seq<T>, a: seq<T>, b: seq<T>)
    requires x != []
    ensures [x[0]] + (x[1..] + a + b) == x + a + b
  {
    assert [x[0]] + x[1..] == x;
  }

  /** Dropping the first character of `x` keeps `pat` out of the rest of
      `x`. */
  lemma {:induction false} NoOccurrenceShift(x: string, pat: string, y: string)
    requires x != []
    requires forall i :: 0 <= i < |x| ==> !OccursAt(x + pat + y, pat, i)
    ensures forall i :: 0 <= i < |x[1..]| ==> !OccursAt(x[1..] + pat + y, pat, i)
  {
    var s := x + pat + y;
    assert s[1..] == x[1..] + pat + y;
    forall i | 0 <= i < |x[1..]| ensures !OccursAt(x[1..] + pat + y, pat, i) {
      assert !OccursAt(s, pat, i + 1);
      assert s[i + 1..i + 1 + |pat|] == s[1..][i..i + |pat|];
    }
  }

  /** Replacing a pattern by a text equal to it ignoring case changes the
      letter case of the text and nothing else. */
  lemma {:induction false} ReplaceAllKeepsLower(s: string, pat: string, rep: string)
    requires pat != []
    requires ToLower(pat) == ToLower(rep)
    ensures ToLower(ReplaceAll(s, pat, rep)) == ToLower(s)
    decreases |s|
  {
    if |s| >= |pat| {
      if s[..|pat|] == pat {
        ReplaceAllKeepsLower(s[|pat|..], pat, rep);
        ToLowerConcat(rep, ReplaceAll(s[|pat|..], pat, rep));
        ToLowerConcat(s[..|pat|], s[|pat|..]);
        assert s[..|pat|] + s[|pat|..] == s;
      } else {
        ReplaceAllKeepsLower(s[1..], pat, rep);
        ToLowerConcat([s[0]], ReplaceAll(s[1..], pat, rep));
        ToLowerConcat([s[0]], s[1..]);
        assert [s[0]] + s[1..] == s;
      }
    }
  }
}
