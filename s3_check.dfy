/** The check script: every asset URL found in a source file whose path,
    lowercased, is not the lowercase form of a listed name is reported as
    missing, once per occurrence, ordered by file and then by position in the
    file. The comparison ignores letter case, although the report's heading
    calls it case-sensitive. */
module S3Check {
  import opened Wrappers
  import opened JsText
  import opened S3Listing
  import opened S3Urls
  import opened S3Fix

  datatype MissingAsset = MissingAsset(file: string, assetPath: string)

  /** `!s3Set.has(assetPath.toLowerCase())`. */
  predicate IsMissing(lowerSet: set<string>, assetPath: string) {
    ToLower(assetPath) !in lowerSet
  }

  /** The records the `urls.forEach` callback pushes for one file. */
  function MissingOf(file: string, lowerSet: set<string>, urls: seq<string>): (ms: seq<MissingAsset>)
    ensures |ms| <= |urls|
  {
    if urls == [] then []
    else
      var u := urls[|urls| - 1];
      MissingOf(file, lowerSet, urls[..|urls| - 1]) + (if IsMissing(lowerSet, u) then [MissingAsset(file, u)] else [])
  }

  /** The records of the whole run, file after file. */
  function CheckRun(files: seq<SourceFile>, lowerSet: set<string>): seq<MissingAsset> {
    if files == [] then []
    else
      var f := files[|files| - 1];
      CheckRun(files[..|files| - 1], lowerSet) + MissingOf(f.path, lowerSet, FindAll(f.content))
  }

  /** The `files.forEach` callback for one file. */
  method CheckFile(file: string, content: string, lowerSet: set<string>) returns (missing: seq<MissingAsset>)
    ensures missing == MissingOf(file, lowerSet, FindAll(content))
  {
    var urls := FindS3Urls(content);
    missing := [];
    var i := 0;
    while i < |urls|
      invariant 0 <= i <= |urls|
      invariant missing == MissingOf(file, lowerSet, urls[..i])
    {
      var assetPath := urls[i];
      MissingOfSnoc(file, lowerSet, urls, i);
      if !(ToLower(assetPath) in lowerSet) {
        missing := missing + [MissingAsset(file, assetPath)];
      }
      i := i + 1;
    }
    assert urls[..|urls|] == urls;
  }

  lemma {:induction false} MissingOfSnoc(file: string, lowerSet: set<string>, urls: seq<string>, i: nat)
    requires i < |urls|
    ensures MissingOf(file, lowerSet, urls[..i + 1]) ==
      if IsMissing(lowerSet, urls[i]) then MissingOf(file, lowerSet, urls[..i]) + [MissingAsset(file, urls[i])]
      else MissingOf(file, lowerSet, urls[..i])
  {
    assert urls[..i + 1][..i] == urls[..i];
    var m := MissingOf(file, lowerSet, urls[..i]);
    assert m + [] == m;
  }

  method CheckFiles(files: seq<SourceFile>, lowerSet: set<string>) returns (missing: seq<MissingAsset>)
    ensures missing == CheckRun(files, lowerSet)
  {
    missing := [];
    var i := 0;
    while i < |files|
      invariant 0 <= i <= |files|
      invariant missing == CheckRun(files[..i], lowerSet)
    {
      var more := CheckFile(files[i].path, files[i].content, lowerSet);
      assert files[..i + 1][..i] == files[..i];
      missing := missing + more;
      i := i + 1;
    }
    assert files[..|files|] == files;
  }

  /** The whole script: parse the listing into the set of lowercased names,
      check every file, then report. */
  method CheckScript(files: seq<SourceFile>, listing: string) returns (missing: seq<MissingAsset>, report: seq<string>)
    ensures missing == CheckRun(files, LowerSet(ParseListing(listing)))
    ensures report == CheckReport(missing)
  {
    var s3Set := LowerSet(ParseListing(listing));
    missing := CheckFiles(files, s3Set);
    report := CheckReport(missing);
  }

  // ------------------------------------------------------------ properties

  /** Membership in the lowercased set is case-insensitive membership in the
      listing. */
  lemma {:induction false} LowerSetMember(names: seq<string>, assetPath: string)
    ensures ToLower(assetPath) in LowerSet(names) <==> exists n <- names :: ToLower(n) == ToLower(assetPath)
  {
  }

  /** A record is pushed for an occurrence exactly when its path is missing:
      the records are the missing occurrences, in order, one per occurrence. */
  lemma {:induction false} MissingOfExact(file: string, lowerSet: set<string>, urls: seq<string>)
    ensures var ms := MissingOf(file, lowerSet, urls);
      && (forall m <- ms :: m.file == file && m.assetPath in urls && IsMissing(lowerSet, m.assetPath))
      && (forall u <- urls :: IsMissing(lowerSet, u) ==> MissingAsset(file, u) in ms)
  {
    if urls != [] {
      var init := urls[..|urls| - 1];
      MissingOfExact(file, lowerSet, init);
      assert forall u <- init :: u in urls;
      assert urls == init + [urls[|urls| - 1]];
    }
  }

  /** Records follow the order of the occurrences: the records of a split
      list are those of the first part followed by those of the second. */
  lemma {:induction false} MissingOfConcat(file: string, lowerSet: set<string>, a: seq<string>, b: seq<string>)
    ensures MissingOf(file, lowerSet, a + b) == MissingOf(file, lowerSet, a) + MissingOf(file, lowerSet, b)
  {
    if b == [] {
      assert a + b == a;
    } else {
      var b' := b[..|b| - 1];
      var last := b[|b| - 1];
      assert (a + b)[..|a + b| - 1] == a + b';
      assert (a + b)[|a + b| - 1] == last;
      MissingOfConcat(file, lowerSet, a, b');
      var tail := if IsMissing(lowerSet, last) then [MissingAsset(file, last)] else [];
      ConcatAssoc(MissingOf(file, lowerSet, a), MissingOf(file, lowerSet, b'), tail);
    }
  }

  /** Records are grouped by file in the order of the files. */
  lemma {:induction false} CheckRunConcat(a: seq<SourceFile>, b: seq<SourceFile>, lowerSet: set<string>)
    ensures CheckRun(a + b, lowerSet) == CheckRun(a, lowerSet) + CheckRun(b, lowerSet)
  {
    if b == [] {
      assert a + b == a;
    } else {
      var b' := b[..|b| - 1];
      var f := b[|b| - 1];
      assert (a + b)[..|a + b| - 1] == a + b';
      assert (a + b)[|a + b| - 1] == f;
      CheckRunConcat(a, b', lowerSet);
      ConcatAssoc(CheckRun(a, lowerSet), CheckRun(b', lowerSet), MissingOf(f.path, lowerSet, FindAll(f.content)));
    }
  }

  /** Check and fix agree on every asset path: it is listed exactly, or the fix
      corrects it, or the check reports it, and exactly one of these holds. A
      path the check reports is left alone by the fix. */
  lemma {:induction false} CheckFixAgree(names: seq<string>, assetPath: string)
    ensures var exactly, corrected, missing :=
        assetPath in ListedSet(names),
        Correction(ListedSet(names), LowerMap(names), assetPath).Some?,
        IsMissing(LowerSet(names), assetPath);
      && (exactly || corrected || missing)
      && !(exactly && corrected) && !(exactly && missing) && !(corrected && missing)
    ensures IsMissing(LowerSet(names), assetPath) ==>
      forall file, st :: Step(file, st, ListedSet(names), LowerMap(names), assetPath) == st
  {
    if assetPath in names {
      assert ToLower(assetPath) in LowerSet(names);
    }
  }

  // ------------------------------------------------------------ report

  const AllMatch := "All S3 asset URLs in code match files in your S3 bucket!"
  const Heading := "The following S3 asset URLs do NOT match any file in your S3 bucket (case-sensitive check):"
  const Advice := "\nCheck for typos, case mismatches, or missing files in S3."

  /** The console report: the all-match message alone, or the heading, one
      line per record with the full URL, and the closing advice. */
  function CheckReport(missing: seq<MissingAsset>): (lines: seq<string>)
    ensures missing == [] ==> lines == [AllMatch]
    ensures missing != [] ==> |lines| == |missing| + 2 && lines[0] == Heading && lines[|lines| - 1] == Advice
    ensures missing != [] ==> forall i :: 0 <= i < |missing| ==>
      lines[i + 1] == "  In " + missing[i].file + ": " + Prefix + missing[i].assetPath
  {
    if missing == [] then [AllMatch]
    else [Heading] + MissingLines(missing) + [Advice]
  }

  function MissingLines(missing: seq<MissingAsset>): (lines: seq<string>)
    ensures |lines| == |missing|
    ensures forall i :: 0 <= i < |missing| ==>
      lines[i] == "  In " + missing[i].file + ": " + Prefix + missing[i].assetPath
  {
    if missing == [] then []
    else ["  In " + missing[0].file + ": " + Prefix + missing[0].assetPath] + MissingLines(missing[1..])
  }
}
