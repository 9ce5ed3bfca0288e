/** The rewrite of `update-asset-urls.js`: the global, case-insensitive RegExp
      (["'`])\/(?!\/)([^"'`?#\s]+?\.(png|jpg|...|html))\1
    replaced through a callback that puts the public bucket URL in front of
    the captured path and keeps the quotes. The engine's search is written
    out: at each position, an opening quote, a `/` not followed by another
    `/`, the lazy body `+?` tried from one character upwards, a `.`, the
    extension alternatives in the order they are listed, and the
    back-reference to the opening quote. */
module RootPaths {
  import opened Wrappers
  import opened JsText

  const BucketUrl: string := "https://sinbound.online.s3.amazonaws.com/public"

  /** The alternatives in the order the RegExp lists them (with its repeats). */
  const Extensions: seq<string> := [
    "png", "jpg", "jpeg", "gif", "svg", "mp3", "wav", "mp4", "json", "glb", "gltf", "obj", "webp",
    "ico", "txt", "wav", "mp3", "mp4", "webm", "ogg", "m4a", "flac", "aac", "js", "css", "html"]

  predicate IsQuote(c: char) { c == '"' || c == '\'' || c == '`' }

  /** The RegExp class `[^"'`?#\s]`. */
  predicate InBodyClass(c: char) {
    !IsQuote(c) && c != '?' && c != '#' && !IsSpace(c)
  }

  /** A match: the position of the `.` before the extension and the position
      of the closing quote. */
  datatype Literal = Literal(dot: nat, close: nat)

  /** The extension `ext` matches at `i`, ignoring case. */
  predicate ExtAt(s: string, i: nat, ext: string) {
    i + |ext| <= |s| && ToLower(s[i..i + |ext|]) == ext
  }

  /** `x` is one of `exts`. */
  predicate Listed(x: string, exts: seq<string>) {
    exts != [] && (x == exts[0] || Listed(x, exts[1..]))
  }

  /** The alternatives tried in order after the `.` at `d`, each followed by
      the back-reference to the quote `q`: the position of the closing quote
      of the first that succeeds. */
  function TryExtensions(s: string, d: nat, q: char, exts: seq<string>): (c: Option<nat>)
    ensures c.Some? ==> d + 1 <= c.value < |s| && s[c.value] == q && Listed(ToLower(s[d + 1..c.value]), exts)
  {
    if exts == [] then None
    else if ExtAt(s, d + 1, exts[0]) && d + 1 + |exts[0]| < |s| && s[d + 1 + |exts[0]|] == q then
      Some(d + 1 + |exts[0]|)
    else
      TryExtensions(s, d, q, exts[1..])
  }

  /** When a listed extension followed by the quote is there, some
      alternative succeeds. */
  lemma {:induction false} TryExtensionsComplete(s: string, d: nat, q: char, exts: seq<string>, c: nat)
    requires d + 1 <= c < |s| && s[c] == q && Listed(ToLower(s[d + 1..c]), exts)
    ensures TryExtensions(s, d, q, exts).Some?
  {
    if !(ExtAt(s, d + 1, exts[0]) && d + 1 + |exts[0]| < |s| && s[d + 1 + |exts[0]|] == q) {
      if ToLower(s[d + 1..c]) == exts[0] {
        assert ExtAt(s, d + 1, exts[0]);
      }
      TryExtensionsComplete(s, d, q, exts[1..], c);
    }
  }

  /** The lazy body `[^"'`?#\s]+?` that started at `start` and holds
      `s[start..d]`: first the rest of the pattern is tried at `d`, and only
      when it fails is the body extended by the character at `d`. */
  function Lazy(s: string, start: nat, d: nat, q: char): (m: Option<Literal>)
    requires start < d <= |s|
    decreases |s| - d
  {
    if d == |s| then None
    else
      var rest := if s[d] == '.' then TryExtensions(s, d, q, Extensions) else None;
      match rest
      case Some(c) => Some(Literal(d, c))
      case None => if InBodyClass(s[d]) then Lazy(s, start, d + 1, q) else None
  }

  /** The match attempt at position `p`. */
  function MatchLiteral(s: string, p: nat): Option<Literal> {
    if p + 2 < |s| && IsQuote(s[p]) && s[p + 1] == '/' && s[p + 2] != '/' && InBodyClass(s[p + 2]) then
      Lazy(s, p + 2, p + 3, s[p])
    else None
  }

  /** `content.replace(regex, callback)` from position `i`: each leftmost
      match becomes quote, bucket URL, `/`, captured path, quote; the search
      resumes after the match; other characters are copied. */
  function Rewrite(s: string, i: nat): string
    requires i <= |s|
    decreases |s| - i, 1
  {
    if i == |s| then [] else RewriteFrom(s, i, MatchLiteral(s, i))
  }

  /** One step of the replace at `i`, given the match attempt there. */
  function RewriteFrom(s: string, i: nat, r: Option<Literal>): string
    requires i < |s|
    decreases |s| - i, 0
  {
    if r.Some? && r.value.close < |s| && i + 2 <= r.value.close then
      Absolute(s[i], s[i + 2..r.value.close]) + Rewrite(s, r.value.close + 1)
    else [s[i]] + Rewrite(s, i + 1)
  }

  /** What the callback returns for the quote `q` and the captured path:
      the path made absolute under the bucket URL, between the same quotes. */
  function Absolute(q: char, path: string): string {
    [q] + BucketUrl + "/" + path + [q]
  }

  /** `content.replace(...)` on the whole file. */
  function UpdateContent(content: string): string {
    Rewrite(content, 0)
  }

  // ------------------------------------------------------------ declarative

  /** The shape a match has: quote, `/`, a first body character that is not
      `/`, body characters up to a `.`, a listed extension in any letter case,
      and the same quote again. */
  predicate LiteralAt(s: string, p: nat, d: nat, c: nat) {
    p + 2 < d < c < |s|
    && IsQuote(s[p]) && s[p + 1] == '/' && s[p + 2] != '/'
    && (forall j :: p + 2 <= j < d ==> InBodyClass(s[j]))
    && s[d] == '.' && Listed(ToLower(s[d + 1..c]), Extensions) && s[c] == s[p]
  }

  /** Every extension is made of lowercase letters and digits. */
  lemma {:induction false} ExtensionChars()
    ensures forall e <- Extensions, ch <- e :: ('a' <= ch <= 'z') || ('0' <= ch <= '9')
  {
  }

  lemma {:induction false} ListedChars(x: string, exts: seq<string>)
    requires Listed(x, exts)
    requires forall e <- exts, ch <- e :: ('a' <= ch <= 'z') || ('0' <= ch <= '9')
    ensures forall ch <- x :: ('a' <= ch <= 'z') || ('0' <= ch <= '9')
  {
    if x != exts[0] {
      assert forall e <- exts[1..] :: e in exts;
      ListedChars(x, exts[1..]);
    }
  }

  /** A text equal to an extension ignoring case has only letters and digits:
      no `.` and nothing outside the body class. */
  lemma {:induction false} ExtensionText(x: string, j: nat)
    requires Listed(ToLower(x), Extensions) && j < |x|
    ensures x[j] != '.' && InBodyClass(x[j])
  {
    ExtensionChars();
    var e := ToLower(x);
    ListedChars(e, Extensions);
    assert e[j] in e;
    assert e[j] == ToLowerChar(x[j]);
  }

  /** There is at most one match shape at a position: the closing quote is the
      first character after `p + 1` outside the body class, and the dot is the
      last `.` before it. */
  lemma {:induction false} LiteralUnique(s: string, p: nat, d1: nat, c1: nat, d2: nat, c2: nat)
    requires LiteralAt(s, p, d1, c1) && LiteralAt(s, p, d2, c2)
    ensures d1 == d2 && c1 == c2
  {
    BodyBefore(s, p, d1, c1);
    BodyBefore(s, p, d2, c2);
    if d1 < d2 {
      ExtensionText(s[d1 + 1..c1], d2 - d1 - 1);
    } else if d2 < d1 {
      ExtensionText(s[d2 + 1..c2], d1 - d2 - 1);
    }
  }

  /** Everything between the `/` and the closing quote is a body character. */
  lemma {:induction false} BodyBefore(s: string, p: nat, d: nat, c: nat)
    requires LiteralAt(s, p, d, c)
    ensures forall j :: p + 2 <= j < c ==> InBodyClass(s[j])
  {
    forall j | d <= j < c ensures InBodyClass(s[j]) {
      if j > d {
        ExtensionText(s[d + 1..c], j - d - 1);
      }
    }
  }

  /** What the lazy search returns has the match shape. */
  lemma {:induction false} LazySound(s: string, p: nat, d: nat)
    requires p + 2 < d <= |s| && IsQuote(s[p]) && s[p + 1] == '/' && s[p + 2] != '/'
    requires forall j :: p + 2 <= j < d ==> InBodyClass(s[j])
    requires Lazy(s, p + 2, d, s[p]).Some?
    ensures var m := Lazy(s, p + 2, d, s[p]).value; LiteralAt(s, p, m.dot, m.close)
    decreases |s| - d
  {
    var rest := if s[d] == '.' then TryExtensions(s, d, s[p], Extensions) else None;
    if rest.None? {
      LazySound(s, p, d + 1);
    }
  }

  /** The lazy search finds the match shape when there is one ahead of it. */
  lemma {:induction false} LazyComplete(s: string, p: nat, d: nat, d': nat, c': nat)
    requires p + 2 < d <= d' && LiteralAt(s, p, d', c')
    ensures Lazy(s, p + 2, d, s[p]) == Some(Literal(d', c'))
    decreases |s| - d
  {
    BodyBefore(s, p, d', c');
    var rest := if s[d] == '.' then TryExtensions(s, d, s[p], Extensions) else None;
    if d == d' {
      TryAtDot(s, p, d, c');
    }
    if rest.Some? {
      var c := rest.value;
      assert LiteralAt(s, p, d, c);
      LiteralUnique(s, p, d, c, d', c');
    } else {
      assert d < d';
      LazyComplete(s, p, d + 1, d', c');
    }
  }

  /** At the dot of a match shape some extension alternative succeeds. */
  lemma {:induction false} TryAtDot(s: string, p: nat, d: nat, c: nat)
    requires LiteralAt(s, p, d, c)
    ensures TryExtensions(s, d, s[p], Extensions).Some?
  {
    var x := s[d + 1..c];
    assert Listed(ToLower(x), Extensions);
    TryExtensionsComplete(s, d, s[p], Extensions, c);
  }

  /** The match attempt succeeds exactly on the match shape, and then on the
      only one there is. */
  lemma {:induction false} MatchLiteralSound(s: string, p: nat)
    requires MatchLiteral(s, p).Some?
    ensures LiteralAt(s, p, MatchLiteral(s, p).value.dot, MatchLiteral(s, p).value.close)
  {
    LazySound(s, p, p + 3);
  }

  lemma {:induction false} MatchLiteralComplete(s: string, p: nat, d: nat, c: nat)
    requires LiteralAt(s, p, d, c)
    ensures MatchLiteral(s, p) == Some(Literal(d, c))
  {
    LazyComplete(s, p, p + 3, d, c);
  }

  // ------------------------------------------------------------ rewrite

  /** Text where no match starts is copied unchanged. */
  lemma {:induction false} RewriteCopies(s: string, i: nat, j: nat)
    requires i <= j <= |s|
    requires forall k :: i <= k < j ==> MatchLiteral(s, k).None?
    ensures Rewrite(s, i) == s[i..j] + Rewrite(s, j)
    decreases j - i
  {
    if i < j {
      RewriteCopies(s, i + 1, j);
      assert [s[i]] + s[i + 1..j] == s[i..j];
      ConcatAssoc([s[i]], s[i + 1..j], Rewrite(s, j));
    }
  }

  /** A match is replaced by the absolute URL between the same quotes and the
      search resumes after its closing quote. */
  lemma {:induction false} RewriteAtLiteral(s: string, p: nat, d: nat, c: nat)
    requires LiteralAt(s, p, d, c)
    ensures Rewrite(s, p) == Absolute(s[p], s[p + 2..c]) + Rewrite(s, c + 1)
  {
    MatchLiteralComplete(s, p, d, c);
    var m := Literal(d, c);
    assert m.close == c;
    RewriteMatched(s, p, m);
    assert Rewrite(s, p) == Absolute(s[p], s[p + 2..m.close]) + Rewrite(s, m.close + 1);
  }

  lemma {:induction false} RewriteMatched(s: string, i: nat, m: Literal)
    requires i < |s| && MatchLiteral(s, i) == Some(m) && i + 2 <= m.close < |s|
    ensures Rewrite(s, i) == Absolute(s[i], s[i + 2..m.close]) + Rewrite(s, m.close + 1)
  {
  }

  /** Nothing is left to rewrite at the end of the text. */
  lemma {:induction false} RewriteEnd(s: string)
    ensures Rewrite(s, |s|) == []
  {
  }

  /** A text without quote characters is left as it is. */
  lemma {:induction false} NoQuotesUnchanged(s: string)
    requires forall k :: 0 <= k < |s| ==> !IsQuote(s[k])
    ensures UpdateContent(s) == s
  {
    RewriteCopies(s, 0, |s|);
    assert s[0..|s|] == s;
  }

  /** A literal `q/name.ext q` alone becomes `q` + bucket URL + `/name.ext` +
      `q`, for any letter case of a listed extension. */
  lemma {:induction false} SingleLiteral(q: char, name: string, ext: string)
    requires IsQuote(q)
    requires name != [] && name[0] != '/'
    requires forall ch <- name :: InBodyClass(ch)
    requires Listed(ToLower(ext), Extensions)
    ensures UpdateContent([q] + "/" + (name + "." + ext) + [q]) == [q] + BucketUrl + "/" + (name + "." + ext) + [q]
  {
    var path := name + "." + ext;
    var s := [q] + "/" + path + [q];
    var c := 2 + |path|;
    SingleLiteralShape(q, name, ext);
    RewriteAtLiteral(s, 0, 2 + |name|, c);
    RewriteEnd(s);
    Middle([q] + "/", path, [q]);
    assert s[0] == q;
  }

  lemma {:induction false} SingleLiteralShape(q: char, name: string, ext: string)
    requires IsQuote(q)
    requires name != [] && name[0] != '/'
    requires forall ch <- name :: InBodyClass(ch)
    requires Listed(ToLower(ext), Extensions)
    ensures LiteralAt([q] + "/" + (name + "." + ext) + [q], 0, 2 + |name|, 3 + |name| + |ext|)
  {
    var s := [q] + "/" + (name + "." + ext) + [q];
    var d := 2 + |name|;
    var c := d + 1 + |ext|;
    assert s[d] == '.';
    assert s[d + 1..c] == ext;
    forall j | 2 <= j < d ensures InBodyClass(s[j]) {
      assert s[j] == name[j - 2];
    }
  }

  /** The middle part of a concatenation of three. */
  lemma Middle<T>(a: seq<T>, m: seq<T>, b: seq<T>)
    ensures (a + m + b)[|a|..|a| + |m|] == m
  {
  }

  /** A protocol-relative `"//..."` and an absolute `"https:..."` are never
      the start of a match. */
  lemma {:induction false} NotRewritten(s: string, p: nat)
    requires p + 2 < |s|
    requires !IsQuote(s[p]) || s[p + 1] != '/' || s[p + 2] == '/'
    ensures MatchLiteral(s, p).None?
  {
  }

  /** A literal whose closing quote differs from its opening one, as in
      `"/a.png'`, is never matched: the back-reference `\1` wants the same
      quote, and no later character of the literal is that quote. */
  lemma {:induction false} MismatchedQuotes(q: char, q': char, name: string, ext: string)
    requires IsQuote(q) && IsQuote(q') && q != q'
    requires forall ch <- name :: InBodyClass(ch)
    requires Listed(ToLower(ext), Extensions)
    ensures MatchLiteral([q] + "/" + (name + "." + ext) + [q'], 0).None?
  {
    var s := [q] + "/" + (name + "." + ext) + [q'];
    forall c | 1 <= c < |s|
      ensures s[c] != q
    {
      if c == 1 || c == |s| - 1 {
      } else if c - 2 < |name| {
        assert s[c] == name[c - 2] && name[c - 2] in name;
      } else if c - 2 == |name| {
        assert s[c] == '.';
      } else {
        assert s[c] == ext[c - 3 - |name|];
        ExtensionText(ext, c - 3 - |name|);
      }
    }
    if MatchLiteral(s, 0).Some? {
      MatchLiteralSound(s, 0);
      assert false;
    }
  }
}
