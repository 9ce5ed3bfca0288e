/** `findS3Urls`, shared by the fix and the check script: the global,
    case-insensitive RegExp
      https://sinbound.online.s3.amazonaws.com/public/([\w\-./@%]+\.[\w]+)
    run by repeated `exec`, written out as the scanner the RegExp engine of
    ECMA-262 section 22.2 performs. At each start position the literal prefix is
    compared ignoring case; the greedy class run `[\w\-./@%]+` is taken as far
    as it goes and then given back one character at a time until a `.`
    followed by a word character is found; the greedy `\w+` then takes the
    whole word run. Each `exec` searches from `lastIndex`, which a successful
    match moves to the end of the match. */
module S3Urls {
  import opened Wrappers
  import opened JsText

  const Prefix: string := "https://sinbound.online.s3.amazonaws.com/public/"

  /** The RegExp class `[\w\-./@%]`. Under the `i` flag without `u` no
      character outside ASCII is folded onto an ASCII one, so the class holds
      exactly these characters. */
  predicate InPathClass(c: char) {
    IsWordChar(c) || c == '-' || c == '.' || c == '/' || c == '@' || c == '%'
  }

  /** The prefix occurs at `p`, compared ignoring ASCII letter case. */
  predicate PrefixAt(s: string, p: nat) {
    p + |Prefix| <= |s| && ToLower(s[p..p + |Prefix|]) == Prefix
  }

  /** The end of the run of path-class characters that starts at `i`. */
  function ClassEnd(s: string, i: nat): (e: nat)
    requires i <= |s|
    ensures i <= e <= |s|
    ensures forall j :: i <= j < e ==> InPathClass(s[j])
    ensures e < |s| ==> !InPathClass(s[e])
    decreases |s| - i
  {
    if i < |s| && InPathClass(s[i]) then ClassEnd(s, i + 1) else i
  }

  /** The end of the run of word characters that starts at `i`. */
  function WordEnd(s: string, i: nat): (e: nat)
    requires i <= |s|
    ensures i <= e <= |s|
    ensures forall j :: i <= j < e ==> IsWordChar(s[j])
    ensures e < |s| ==> !IsWordChar(s[e])
    decreases |s| - i
  {
    if i < |s| && IsWordChar(s[i]) then WordEnd(s, i + 1) else i
  }

  /** `\.` matches at `k` and `\w+` can start right after it. */
  predicate DotAt(s: string, k: nat) {
    k + 1 < |s| && s[k] == '.' && IsWordChar(s[k + 1])
  }

  /** Backtracking of the greedy class run that starts at `q`: the run is given
      back from length `k - q` downwards (never below one character) until the
      rest of the pattern can match. */
  function LastDot(s: string, q: nat, k: nat): (d: Option<nat>)
    requires q <= k
    ensures d.Some? ==> q < d.value <= k && DotAt(s, d.value)
    ensures d.Some? ==> forall j :: d.value < j <= k ==> !DotAt(s, j)
    ensures d.None? ==> forall j :: q < j <= k ==> !DotAt(s, j)
    decreases k
  {
    if k == q then None
    else if DotAt(s, k) then Some(k)
    else LastDot(s, q, k - 1)
  }

  /** The end of the match that starts at `p`, if there is one. */
  function MatchAt(s: string, p: nat): (r: Option<nat>)
    requires p <= |s|
    ensures r.Some? ==> PrefixAt(s, p) && p + |Prefix| < r.value <= |s|
  {
    if !PrefixAt(s, p) then None
    else
      var q := p + |Prefix|;
      match LastDot(s, q, ClassEnd(s, q))
      case None => None
      case Some(k) => Some(WordEnd(s, k + 1))
  }

  /** The declarative shape of the capture `s[q..end]`: a non-empty run of path
      characters up to a dot at `k`, then a non-empty run of word characters. */
  ghost predicate PathAt(s: string, q: nat, k: nat, end: nat) {
    q < k && k + 1 < end <= |s| && s[k] == '.'
    && (forall j :: q <= j < k ==> InPathClass(s[j]))
    && (forall j :: k < j < end ==> IsWordChar(s[j]))
  }

  ghost predicate IsPathMatch(s: string, q: nat, end: nat) {
    exists k :: PathAt(s, q, k, end)
  }

  /** A match found at `p` follows the prefix and has the capture's shape,
      and its word run cannot be extended. */
  lemma {:induction false} MatchAtSound(s: string, p: nat)
    requires p <= |s| && MatchAt(s, p).Some?
    ensures PrefixAt(s, p)
    ensures IsPathMatch(s, p + |Prefix|, MatchAt(s, p).value)
    ensures MatchAt(s, p).value < |s| ==> !IsWordChar(s[MatchAt(s, p).value])
  {
    var q := p + |Prefix|;
    var k := LastDot(s, q, ClassEnd(s, q)).value;
    assert PathAt(s, q, k, WordEnd(s, k + 1));
  }

  /** Greedy backtracking yields the longest capture starting at `p`. */
  lemma {:induction false} MatchAtLongest(s: string, p: nat, end': nat)
    requires p <= |s| && PrefixAt(s, p)
    requires IsPathMatch(s, p + |Prefix|, end')
    ensures MatchAt(s, p).Some? && end' <= MatchAt(s, p).value
  {
    var q := p + |Prefix|;
    var e := ClassEnd(s, q);
    var k' :| PathAt(s, q, k', end');
    // Every character of the other capture is a path character, so it lies
    // inside the class run, and its dot is one the backtracking reaches.
    assert DotAt(s, k');
    var k := LastDot(s, q, e).value;
    assert k' <= k;
  }

  /** No match at `p` means no capture of the right shape follows a prefix
      there. */
  lemma {:induction false} MatchAtNone(s: string, p: nat, end': nat)
    requires p <= |s| && MatchAt(s, p).None?
    ensures !(PrefixAt(s, p) && IsPathMatch(s, p + |Prefix|, end'))
  {
    if PrefixAt(s, p) && IsPathMatch(s, p + |Prefix|, end') {
      MatchAtLongest(s, p, end');
    }
  }

  /** One match: where it starts, where the capture starts and where it ends. */
  datatype UrlMatch = UrlMatch(start: nat, pathStart: nat, end: nat)

  /** `regex.exec(s)` with `lastIndex == from`: the leftmost match starting at
      or after `from`. */
  function Exec(s: string, from: nat): (m: Option<UrlMatch>)
    requires from <= |s|
    ensures m.Some? ==> from <= m.value.start < m.value.end <= |s|
    ensures m.Some? ==> m.value.pathStart == m.value.start + |Prefix| < m.value.end
    decreases |s| - from
  {
    match MatchAt(s, from)
    case Some(end) => Some(UrlMatch(from, from + |Prefix|, end))
    case None => if from == |s| then None else Exec(s, from + 1)
  }

  /** `exec` finds a match at the position it reports. */
  lemma {:induction false} ExecFound(s: string, from: nat)
    requires from <= |s| && Exec(s, from).Some?
    ensures MatchAt(s, Exec(s, from).value.start) == Some(Exec(s, from).value.end)
    decreases |s| - from
  {
    if MatchAt(s, from).None? {
      ExecFound(s, from + 1);
    }
  }

  /** `exec` finds the leftmost match: there is none between `from` and the
      position it reports, and when it fails there is none at all after
      `from`. */
  lemma {:induction false} ExecLeftmost(s: string, from: nat, p: nat)
    requires from <= p <= |s|
    requires Exec(s, from).Some? ==> p < Exec(s, from).value.start
    ensures MatchAt(s, p).None?
    decreases |s| - from
  {
    if p > from {
      assert MatchAt(s, from).None?;
      ExecLeftmost(s, from + 1, p);
    }
  }

  /** The matches of the `while ((match = regex.exec(content)) !== null)` loop
      once `lastIndex` is `from`. */
  function Scan(s: string, from: nat): (ms: seq<UrlMatch>)
    requires from <= |s|
    ensures forall m <- ms :: from <= m.start < m.end <= |s|
    decreases |s| - from
  {
    match Exec(s, from)
    case None => []
    case Some(m) => [m] + Scan(s, m.end)
  }

  function Paths(s: string, ms: seq<UrlMatch>): (paths: seq<string>)
    requires forall m <- ms :: m.pathStart <= m.end <= |s|
    ensures |paths| == |ms|
    ensures forall i :: 0 <= i < |ms| ==> paths[i] == s[ms[i].pathStart..ms[i].end]
  {
    if ms == [] then [] else [s[ms[0].pathStart..ms[0].end]] + Paths(s, ms[1..])
  }

  lemma {:induction false} ScanPathBounds(s: string, from: nat)
    requires from <= |s|
    ensures forall m <- Scan(s, from) :: m.pathStart <= m.end <= |s|
    decreases |s| - from
  {
    if Exec(s, from).Some? {
      var first := Exec(s, from).value;
      assert Scan(s, from) == [first] + Scan(s, first.end);
      ScanPathBounds(s, first.end);
    }
  }

  /** Every scanned match is a match of the RegExp at its start. */
  lemma {:induction false} ScanSound(s: string, from: nat, m: UrlMatch)
    requires from <= |s| && m in Scan(s, from)
    ensures from <= m.start && m.pathStart == m.start + |Prefix|
    ensures MatchAt(s, m.start) == Some(m.end)
    ensures PrefixAt(s, m.start) && IsPathMatch(s, m.pathStart, m.end)
    decreases |s| - from
  {
    var first := Exec(s, from).value;
    assert Scan(s, from) == [first] + Scan(s, first.end);
    if m == first {
      ExecFound(s, from);
    } else {
      ScanSound(s, first.end, m);
    }
    MatchAtSound(s, m.start);
  }

  /** A non-empty scan is its first match followed by the scan after it. */
  lemma {:induction false} ScanCons(s: string, from: nat)
    requires from <= |s| && Scan(s, from) != []
    ensures Exec(s, from).Some?
    ensures Scan(s, from) == [Exec(s, from).value] + Scan(s, Exec(s, from).value.end)
  {
  }

  /** Each match ends before the next one starts. */
  predicate Ordered(ms: seq<UrlMatch>) {
    forall i, j :: 0 <= i < j < |ms| ==> ms[i].end <= ms[j].start
  }

  lemma {:induction false} OrderedCons(first: UrlMatch, rest: seq<UrlMatch>)
    requires Ordered(rest) && forall m <- rest :: first.end <= m.start
    ensures Ordered([first] + rest)
  {
    var ms := [first] + rest;
    forall i, j | 0 <= i < j < |ms|
      ensures ms[i].end <= ms[j].start
    {
      assert ms[j] == rest[j - 1];
      if i == 0 {
        assert rest[j - 1] in rest;
      } else {
        assert ms[i] == rest[i - 1];
      }
    }
  }

  /** Matches come in source order and do not overlap. */
  lemma {:induction false} ScanOrdered(s: string, from: nat)
    requires from <= |s|
    ensures Ordered(Scan(s, from))
    decreases |s| - from
  {
    if Scan(s, from) != [] {
      ScanCons(s, from);
      var first := Exec(s, from).value;
      ScanOrdered(s, first.end);
      OrderedCons(first, Scan(s, first.end));
    }
  }

  /** Nothing is missed: every position at or after `from` where the RegExp
      matches lies inside a scanned match (it starts one, or it was skipped
      because an earlier match covers it). */
  lemma {:induction false} ScanComplete(s: string, from: nat, p: nat)
    requires from <= p <= |s| && MatchAt(s, p).Some?
    ensures exists m <- Scan(s, from) :: m.start <= p < m.end
    decreases |s| - from
  {
    if Exec(s, from).None? || p < Exec(s, from).value.start {
      ExecLeftmost(s, from, p);
    }
    var first := Exec(s, from).value;
    var rest := Scan(s, first.end);
    assert Scan(s, from) == [first] + rest;
    if p >= first.end {
      ScanComplete(s, first.end, p);
      var m :| m in rest && m.start <= p < m.end;
      assert m in Scan(s, from);
    } else {
      assert first in Scan(s, from);
    }
  }

  /** The capture list `findS3Urls` returns, as a function of the text. */
  function FindAll(s: string): (paths: seq<string>) {
    ScanPathBounds(s, 0);
    Paths(s, Scan(s, 0))
  }

  /** `findS3Urls`: the `exec` loop collecting the first capture group. */
  method FindS3Urls(content: string) returns (urls: seq<string>)
    ensures urls == FindAll(content)
  {
    urls := [];
    var lastIndex := 0;
    ScanPathBounds(content, 0);
    var match_ := Exec(content, lastIndex);
    while match_.Some?
      invariant lastIndex <= |content|
      invariant match_ == Exec(content, lastIndex)
      invariant forall m <- Scan(content, lastIndex) :: m.pathStart <= m.end <= |content|
      invariant urls + Paths(content, Scan(content, lastIndex)) == FindAll(content)
      decreases |content| - lastIndex
    {
      var m := match_.value;
      var rest := Scan(content, m.end);
      assert Scan(content, lastIndex) == [m] + rest;
      ScanPathBounds(content, m.end);
      var path := content[m.pathStart..m.end];
      assert ([m] + rest)[1..] == rest;
      assert Paths(content, [m] + rest) == [path] + Paths(content, rest);
      ConcatAssoc(urls, [path], Paths(content, rest));
      urls := urls + [path];
      lastIndex := m.end;
      match_ := Exec(content, lastIndex);
    }
    assert Scan(content, lastIndex) == [];
    assert urls + [] == urls;
  }

  /** A capture is made of path-class characters only. */
  lemma {:induction false} PathChars(s: string, q: nat, end: nat)
    requires q <= end <= |s| && IsPathMatch(s, q, end)
    ensures forall c <- s[q..end] :: InPathClass(c)
  {
    var k :| PathAt(s, q, k, end);
    forall c <- s[q..end] ensures InPathClass(c) {
      var j :| 0 <= j < end - q && s[q..end][j] == c;
      assert s[q + j] == c;
    }
  }

  /** Every extracted path is made of path-class characters only; in
      particular it holds no `$`, which the fix script relies on when the
      corrected name goes into a replacement string. */
  lemma {:induction false} FindAllChars(s: string, i: nat)
    requires i < |FindAll(s)|
    ensures forall c <- FindAll(s)[i] :: InPathClass(c)
    ensures '$' !in FindAll(s)[i]
  {
    FindAllMatch(s, i);
    var m := Scan(s, 0)[i];
    PathChars(s, m.pathStart, m.end);
    NoDollar(FindAll(s)[i]);
  }

  /** The `i`-th extracted path is the capture of the `i`-th match, and the
      longest capture of the right shape that starts there. */
  lemma {:induction false} FindAllMatch(s: string, i: nat)
    requires i < |FindAll(s)|
    ensures i < |Scan(s, 0)|
    ensures var m := Scan(s, 0)[i];
      && m.pathStart <= m.end <= |s| && IsPathMatch(s, m.pathStart, m.end)
      && FindAll(s)[i] == s[m.pathStart..m.end]
      && (forall end': nat :: IsPathMatch(s, m.pathStart, end') ==> end' <= m.end)
  {
    ScanPathBounds(s, 0);
    var ms := Scan(s, 0);
    var m := ms[i];
    assert m in ms;
    ScanSound(s, 0, m);
    assert FindAll(s)[i] == Paths(s, ms)[i];
    forall end': nat | IsPathMatch(s, m.pathStart, end')
      ensures end' <= m.end
    {
      MatchAtLongest(s, m.start, end');
    }
  }

  lemma NoDollar(path: string)
    requires forall c <- path :: InPathClass(c)
    ensures '$' !in path
  {
    assert !InPathClass('$');
  }
}
