/** The bucket listing both asset scripts read: one object per line, the object
    name being the last whitespace-separated field of the trimmed line; empty
    names and directory entries (ending in `/`) are dropped. From the names the
    fix script builds the exact set and a map from lowercased name to name; the
    check script builds the set of lowercased names. */
module S3Listing {
  import opened JsText

  /** `line.trim().split(/\s+/).pop()`. */
  function LineName(line: string): string {
    LastToken(Trim(line))
  }

  /** The name is the last whitespace-free field of the trimmed line, and it is
      empty exactly when the line is blank. */
  lemma {:induction false} LineNameFacts(line: string)
    ensures var name, t := LineName(line), Trim(line);
      && (forall c <- name :: !IsSpace(c))
      && |name| <= |t| && name == t[|t| - |name|..]
      && (|name| < |t| ==> IsSpace(t[|t| - |name| - 1]))
      && (name == [] <==> forall i :: 0 <= i < |line| ==> IsSpace(line[i]))
  {
    LineNameShape(line);
    LineNameEmpty(line);
  }

  lemma {:induction false} LineNameShape(line: string)
    ensures var name, t := LineName(line), Trim(line);
      && (forall c <- name :: !IsSpace(c))
      && |name| <= |t| && name == t[|t| - |name|..]
      && (|name| < |t| ==> IsSpace(t[|t| - |name| - 1]))
  {
    var t := Trim(line);
    assert LineName(line) == LastToken(t);
    LastTokenFacts(t);
  }

  lemma {:induction false} LineNameEmpty(line: string)
    ensures LineName(line) == [] <==> forall i :: 0 <= i < |line| ==> IsSpace(line[i])
  {
    var t := Trim(line);
    if forall i :: 0 <= i < |line| ==> IsSpace(line[i]) {
      TrimOfBlank(line);
    } else {
      TrimOfNonBlank(line);
      var k := TokenStart(t, |t|);
      assert !IsSpace(t[|t| - 1]);
      assert k == TokenStart(t, |t| - 1);
    }
  }

  lemma {:induction false} TrimOfNonBlank(s: string)
    requires exists i :: 0 <= i < |s| && !IsSpace(s[i])
    ensures Trim(s) != []
  {
    var t := TrimStart(s);
    var k :| 0 <= k < |s| && !IsSpace(s[k]);
    var off := |s| - |t|;
    assert k >= off;
    var j := k - off;
    assert t[j] == s[k];
    var r := TrimEnd(t);
    assert j < |r|;
    assert Trim(s) == r;
  }

  /** What the `filter` keeps: a non-empty name that is not a directory. */
  predicate Keeps(name: string) {
    name != [] && !EndsWith(name, '/')
  }

  /** The names one line contributes: its name, if the filter keeps it. */
  function NameOf(line: string): seq<string> {
    var name := LineName(line);
    if Keeps(name) then [name] else []
  }

  /** The names of the listing lines, in listing order. */
  function NamesOf(lines: seq<string>): (names: seq<string>)
    ensures |names| <= |lines|
    ensures forall n <- names :: Keeps(n)
  {
    if lines == [] then [] else NameOf(lines[0]) + NamesOf(lines[1..])
  }

  /** Every name comes from a line of the listing. */
  lemma {:induction false} NamesOfSound(lines: seq<string>, n: string)
    requires n in NamesOf(lines)
    ensures exists l <- lines :: n == LineName(l)
  {
    if n !in NameOf(lines[0]) {
      NamesOfSound(lines[1..], n);
      var l :| l in lines[1..] && n == LineName(l);
      assert l in lines;
    }
  }

  /** Every line whose last field survives the filter contributes it. */
  lemma {:induction false} NamesOfComplete(lines: seq<string>, l: string)
    requires l in lines && Keeps(LineName(l))
    ensures LineName(l) in NamesOf(lines)
  {
    if l != lines[0] {
      assert l in lines[1..];
      NamesOfComplete(lines[1..], l);
    }
  }

  /** The parse of the listing text, lines separated by `\n`. */
  function ParseListing(text: string): seq<string> {
    NamesOf(Split(text, '\n'))
  }

  /** The parse works line by line: the names of a concatenation of line runs
      are the names of the first run followed by those of the second. */
  lemma {:induction false} NamesOfConcat(a: seq<string>, b: seq<string>)
    ensures NamesOf(a + b) == NamesOf(a) + NamesOf(b)
  {
    if a == [] {
      assert a + b == b;
    } else {
      var ab := a + b;
      assert ab[0] == a[0] && ab[1..] == a[1..] + b;
      NamesOfConcat(a[1..], b);
      var h := NameOf(a[0]);
      ConcatAssoc(h, NamesOf(a[1..]), NamesOf(b));
      calc {
        NamesOf(ab);
        h + NamesOf(a[1..] + b);
        h + (NamesOf(a[1..]) + NamesOf(b));
        (h + NamesOf(a[1..])) + NamesOf(b);
        NamesOf(a) + NamesOf(b);
      }
    }
  }

  /** A blank line contributes nothing. */
  lemma {:induction false} BlankLineIgnored(lines: seq<string>, blank: string)
    requires forall i :: 0 <= i < |blank| ==> IsSpace(blank[i])
    ensures NamesOf(lines + [blank]) == NamesOf(lines)
  {
    LineNameFacts(blank);
    NamesOfConcat(lines, [blank]);
  }

  /** A directory line contributes nothing. */
  lemma {:induction false} DirectoryLineIgnored(lines: seq<string>, line: string)
    requires EndsWith(LineName(line), '/')
    ensures NamesOf(lines + [line]) == NamesOf(lines)
  {
    NamesOfConcat(lines, [line]);
  }

  /** The fix script's exact-name set. */
  function ListedSet(names: seq<string>): set<string> {
    set n | n in names
  }

  /** The check script's set of lowercased names. */
  function LowerSet(names: seq<string>): set<string> {
    set n | n in names :: ToLower(n)
  }

  /** `new Map(names.map(f => [f.toLowerCase(), f]))`: later entries overwrite
      earlier ones with the same key. */
  function LowerMap(names: seq<string>): (m: map<string, string>)
    ensures m.Keys == LowerSet(names)
    ensures forall k <- m.Keys :: m[k] in names && ToLower(m[k]) == k
  {
    if names == [] then map[]
    else
      var init := names[..|names| - 1];
      var last := names[|names| - 1];
      assert names == init + [last];
      assert forall n <- init :: n in names;
      LowerMap(init)[ToLower(last) := last]
  }

  /** When several names share a lowercase form, the map keeps the last one
      listed. */
  lemma {:induction false} LowerMapLastWins(names: seq<string>, i: nat)
    requires i < |names|
    requires forall j :: i < j < |names| ==> ToLower(names[j]) != ToLower(names[i])
    ensures ToLower(names[i]) in LowerMap(names)
    ensures LowerMap(names)[ToLower(names[i])] == names[i]
  {
    var init := names[..|names| - 1];
    if i < |names| - 1 {
      LowerMapLastWins(init, i);
    }
  }
}
