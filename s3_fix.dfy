/** The fix script: for every asset URL found in a source file whose path is
    not listed as it is but is listed ignoring letter case, every occurrence of
    the old URL in the file is replaced by the URL of the listed name, and a
    `{file, from, to}` record is kept. A file is written back only when at
    least one such rewrite happened. The list of URLs is extracted once from
    the file as read; the rewrites then apply one after the other. */
module S3Fix {
  import opened Wrappers
  import opened JsText
  import opened S3Listing
  import opened S3Urls

  datatype Replacement = Replacement(file: string, from: string, to: string)

  datatype SourceFile = SourceFile(path: string, content: string)

  /** The content of one file while its URLs are processed, with the records
      pushed so far. */
  datatype FixState = FixState(content: string, records: seq<Replacement>)

  /** The listed name an asset path is corrected to: none when the path is
      listed exactly or has no case-insensitive match. */
  function Correction(exact: set<string>, lower: map<string, string>, assetPath: string): (c: Option<string>)
    ensures c.Some? <==> assetPath !in exact && ToLower(assetPath) in lower
    ensures c.Some? ==> c.value == lower[ToLower(assetPath)]
  {
    if assetPath in exact then None
    else if ToLower(assetPath) in lower then Some(lower[ToLower(assetPath)])
    else None
  }

  /** The `urls.forEach` callback for one asset path. */
  function Step(file: string, st: FixState, exact: set<string>, lower: map<string, string>,
                assetPath: string): FixState
  {
    match Correction(exact, lower, assetPath)
    case None => st
    case Some(correct) =>
      var oldUrl, newUrl := Prefix + assetPath, Prefix + correct;
      FixState(ReplaceAll(st.content, oldUrl, newUrl), st.records + [Replacement(file, oldUrl, newUrl)])
  }

  /** The callback applied to the asset paths in order. */
  function Fold(file: string, st: FixState, exact: set<string>, lower: map<string, string>,
                urls: seq<string>): FixState
  {
    if urls == [] then st
    else Step(file, Fold(file, st, exact, lower, urls[..|urls| - 1]), exact, lower, urls[|urls| - 1])
  }

  /** What the script does to one file's content. */
  function FixContent(file: string, content: string, exact: set<string>, lower: map<string, string>): FixState {
    Fold(file, FixState(content, []), exact, lower, FindAll(content))
  }

  /** The body of `files.forEach` for one file: returns the new content,
      whether it changed and the records for this file. */
  method FixFile(file: string, original: string, exact: set<string>, lower: map<string, string>)
    returns (content: string, changed: bool, records: seq<Replacement>)
    ensures FixState(content, records) == FixContent(file, original, exact, lower)
    ensures changed <==> records != []
  {
    var urls := FindS3Urls(original);
    content, changed, records := FixUrls(file, original, exact, lower, urls);
  }

  /** `urls.forEach`: the callback on every extracted asset path in turn. */
  method FixUrls(file: string, original: string, exact: set<string>, lower: map<string, string>, urls: seq<string>)
    returns (content: string, changed: bool, records: seq<Replacement>)
    ensures FixState(content, records) == Fold(file, FixState(original, []), exact, lower, urls)
    ensures changed <==> records != []
  {
    content, changed, records := original, false, [];
    var i := 0;
    while i < |urls|
      invariant 0 <= i <= |urls|
      invariant FixState(content, records) == Fold(file, FixState(original, []), exact, lower, urls[..i])
      invariant changed <==> records != []
    {
      var assetPath := urls[i];
      if assetPath !in exact {
        var lowerPath := ToLower(assetPath);
        if lowerPath in lower {
          var correct := lower[lowerPath];
          var oldUrl := Prefix + assetPath;
          var newUrl := Prefix + correct;
          content := ReplaceAll(content, oldUrl, newUrl);
          changed := true;
          records := records + [Replacement(file, oldUrl, newUrl)];
        }
      }
      assert urls[..i + 1][..i] == urls[..i];
      i := i + 1;
    }
    assert urls[..|urls|] == urls;
  }

  /** What the whole run leaves behind: the files written back, in order, and
      all records. */
  datatype FixOutcome = FixOutcome(written: seq<SourceFile>, replacements: seq<Replacement>)

  function FixRun(files: seq<SourceFile>, exact: set<string>, lower: map<string, string>): FixOutcome {
    if files == [] then FixOutcome([], [])
    else
      var before := FixRun(files[..|files| - 1], exact, lower);
      var f := files[|files| - 1];
      var st := FixContent(f.path, f.content, exact, lower);
      FixOutcome(
        if st.records != [] then before.written + [SourceFile(f.path, st.content)] else before.written,
        before.replacements + st.records)
  }

  lemma {:induction false} FixRunSnoc(files: seq<SourceFile>, i: nat, exact: set<string>, lower: map<string, string>)
    requires i < |files|
    ensures var before, st := FixRun(files[..i], exact, lower), FixContent(files[i].path, files[i].content, exact, lower);
      FixRun(files[..i + 1], exact, lower) == FixOutcome(
        if st.records != [] then before.written + [SourceFile(files[i].path, st.content)] else before.written,
        before.replacements + st.records)
  {
    assert files[..i + 1][..i] == files[..i];
  }

  /** The script's main part: parse the listing, then process every file. */
  method FixFiles(files: seq<SourceFile>, s3Set: set<string>, s3LowerMap: map<string, string>)
    returns (written: seq<SourceFile>, replacements: seq<Replacement>)
    ensures FixOutcome(written, replacements) == FixRun(files, s3Set, s3LowerMap)
  {
    written, replacements := [], [];
    var i := 0;
    while i < |files|
      invariant 0 <= i <= |files|
      invariant FixOutcome(written, replacements) == FixRun(files[..i], s3Set, s3LowerMap)
    {
      var file := files[i];
      var content, changed, records := FixFile(file.path, file.content, s3Set, s3LowerMap);
      FixRunSnoc(files, i, s3Set, s3LowerMap);
      replacements := replacements + records;
      if changed {
        written := written + [SourceFile(file.path, content)];
      }
      i := i + 1;
    }
    assert files[..|files|] == files;
  }

  /** The whole script: parse the listing into the exact set and the
      lowercase map, process every file, then report. */
  method FixScript(files: seq<SourceFile>, listing: string)
    returns (written: seq<SourceFile>, replacements: seq<Replacement>, report: seq<string>)
    ensures var s3Files := ParseListing(listing);
      FixOutcome(written, replacements) == FixRun(files, ListedSet(s3Files), LowerMap(s3Files))
    ensures report == FixReport(replacements)
  {
    var s3Files := ParseListing(listing);
    written, replacements := FixFiles(files, ListedSet(s3Files), LowerMap(s3Files));
    report := FixReport(replacements);
  }

  // ------------------------------------------------------------ properties

  /** A path listed exactly is never rewritten, and neither is a path with no
      case-insensitive match: the step changes nothing and records nothing. */
  lemma {:induction false} StepUnchanged(file: string, st: FixState, names: seq<string>, assetPath: string)
    requires assetPath in names || ToLower(assetPath) !in LowerSet(names)
    ensures Step(file, st, ListedSet(names), LowerMap(names), assetPath) == st
  {
  }

  /** A rewriting step replaces the URL by one equal to it ignoring case but
      different from it, pushes exactly one record, and leaves the content
      equal to the old one ignoring case; the listed name it writes holds no
      `$` when the old path held none. */
  lemma {:induction false} StepCorrects(file: string, st: FixState, names: seq<string>, assetPath: string)
    requires assetPath !in names && ToLower(assetPath) in LowerSet(names)
    ensures var st' := Step(file, st, ListedSet(names), LowerMap(names), assetPath);
      var correct := LowerMap(names)[ToLower(assetPath)];
      && correct in names
      && st'.records == st.records + [Replacement(file, Prefix + assetPath, Prefix + correct)]
      && st'.content == ReplaceAll(st.content, Prefix + assetPath, Prefix + correct)
      && ToLower(Prefix + correct) == ToLower(Prefix + assetPath)
      && Prefix + correct != Prefix + assetPath
      && ToLower(st'.content) == ToLower(st.content)
      && ('$' !in assetPath ==> '$' !in correct)
  {
    var correct := LowerMap(names)[ToLower(assetPath)];
    if '$' !in assetPath {
      NoDollarFollows(correct, assetPath);
    }
    ToLowerConcat(Prefix, correct);
    ToLowerConcat(Prefix, assetPath);
    ReplaceAllKeepsLower(st.content, Prefix + assetPath, Prefix + correct);
    assert (Prefix + correct)[|Prefix|..] == correct;
    assert (Prefix + assetPath)[|Prefix|..] == assetPath;
  }

  /** A name equal to a `$`-free path ignoring case holds no `$` either, so
      the corrected name adds no substitution pattern to the replacement
      string. */
  lemma {:induction false} NoDollarFollows(correct: string, assetPath: string)
    requires ToLower(correct) == ToLower(assetPath) && '$' !in assetPath
    ensures '$' !in correct
  {
    forall j | 0 <= j < |correct|
      ensures correct[j] != '$'
    {
      SameLowerAgreesOffLetters(correct, assetPath, j);
    }
  }

  /** A record's new URL is the bucket prefix followed by a listed name. */
  predicate ToListed(r: Replacement, names: seq<string>) {
    |Prefix| <= |r.to| && r.to[..|Prefix|] == Prefix && r.to[|Prefix|..] in names
  }

  /** Record soundness: a record names a URL and its correction, which differ
      and are equal ignoring case. */
  predicate SoundRecord(r: Replacement) {
    ToLower(r.from) == ToLower(r.to) && r.from != r.to
  }

  /** Over all the URLs of a file: the content only changes letter case, every
      record is sound and names a listed name, and no record means no change. */
  lemma {:induction false} FoldSound(file: string, st: FixState, names: seq<string>, urls: seq<string>)
    ensures var st' := Fold(file, st, ListedSet(names), LowerMap(names), urls);
      && ToLower(st'.content) == ToLower(st.content)
      && |st.records| <= |st'.records| && st'.records[..|st.records|] == st.records
      && (forall i :: |st.records| <= i < |st'.records| ==>
            SoundRecord(st'.records[i]) && ToListed(st'.records[i], names) && st'.records[i].file == file)
      && (st'.records == st.records ==> st'.content == st.content)
  {
    if urls != [] {
      var exact, lower := ListedSet(names), LowerMap(names);
      var mid := Fold(file, st, exact, lower, urls[..|urls| - 1]);
      FoldSound(file, st, names, urls[..|urls| - 1]);
      var u := urls[|urls| - 1];
      if u !in names && ToLower(u) in LowerSet(names) {
        StepCorrects(file, mid, names, u);
        var st' := Step(file, mid, exact, lower, u);
        assert st'.records[..|mid.records|] == mid.records;
        assert st'.records[..|st.records|] == mid.records[..|st.records|];
        var correct := lower[ToLower(u)];
        assert (Prefix + correct)[..|Prefix|] == Prefix && (Prefix + correct)[|Prefix|..] == correct;
      } else {
        StepUnchanged(file, mid, names, u);
      }
    }
  }

  /** The literal, global replace also rewrites the front of a longer URL that
      starts with the old one: a path listed exactly, such as `x.png.webp`, is
      turned into the corrected path's spelling followed by the rest. */
  lemma {:induction false} LongerUrlAlsoRewritten(assetPath: string, correct: string, rest: string)
    ensures ReplaceAll(Prefix + assetPath + rest, Prefix + assetPath, Prefix + correct)
         == Prefix + correct + ReplaceAll(rest, Prefix + assetPath, Prefix + correct)
  {
    ReplaceAllLeftmost([], Prefix + assetPath, Prefix + correct, rest);
    assert [] + (Prefix + assetPath) + rest == Prefix + assetPath + rest;
    assert [] + (Prefix + correct) + ReplaceAll(rest, Prefix + assetPath, Prefix + correct)
        == Prefix + correct + ReplaceAll(rest, Prefix + assetPath, Prefix + correct);
  }

  /** The extraction ignores the case of the prefix but the replace does not: a
      URL whose prefix is written in capitals yields a record while the
      content stays as it was. */
  lemma {:induction false} RecordWithoutRewrite(file: string, st: FixState, names: seq<string>, assetPath: string)
    requires assetPath !in names && ToLower(assetPath) in LowerSet(names)
    requires forall i :: 0 <= i < |st.content| ==> !OccursAt(st.content, Prefix + assetPath, i)
    ensures Step(file, st, ListedSet(names), LowerMap(names), assetPath).content == st.content
    ensures |Step(file, st, ListedSet(names), LowerMap(names), assetPath).records| == |st.records| + 1
  {
    var correct := LowerMap(names)[ToLower(assetPath)];
    ReplaceAllAbsent(st.content, Prefix + assetPath, Prefix + correct);
  }

  /** Over the whole run: every written file's content equals its original
      ignoring case, and every record is sound. */
  lemma FixRunSound(files: seq<SourceFile>, names: seq<string>)
    ensures var out := FixRun(files, ListedSet(names), LowerMap(names));
      && (forall r <- out.replacements :: SoundRecord(r))
      && |out.written| <= |files|
    ensures forall w <- FixRun(files, ListedSet(names), LowerMap(names)).written ::
      exists f <- files :: f.path == w.path && ToLower(f.content) == ToLower(w.content)
  {
    FixRunRecordsSound(files, names);
    FixRunWrittenSound(files, names);
  }

  predicate AllSound(records: seq<Replacement>) {
    forall r <- records :: SoundRecord(r)
  }

  lemma {:induction false} FixRunRecordsSound(files: seq<SourceFile>, names: seq<string>)
    ensures AllSound(FixRun(files, ListedSet(names), LowerMap(names)).replacements)
  {
    if files != [] {
      var exact, lower := ListedSet(names), LowerMap(names);
      var n := |files| - 1;
      FixRunRecordsSound(files[..n], names);
      FixRunSnoc(files, n, exact, lower);
      assert files[..n + 1] == files;
      var st := FixContent(files[n].path, files[n].content, exact, lower);
      FoldSound(files[n].path, FixState(files[n].content, []), names, FindAll(files[n].content));
      assert AllSound(st.records) by {
        forall r <- st.records ensures SoundRecord(r) {
          var j :| 0 <= j < |st.records| && st.records[j] == r;
        }
      }
      AllSoundConcat(FixRun(files[..n], exact, lower).replacements, st.records);
    }
  }

  lemma AllSoundConcat(a: seq<Replacement>, b: seq<Replacement>)
    requires AllSound(a) && AllSound(b)
    ensures AllSound(a + b)
  {
    assert forall r <- a + b :: r in a || r in b;
  }

  /** Each written file comes from an input file with the same path and the
      same content ignoring case. */
  predicate WrittenFrom(written: seq<SourceFile>, files: seq<SourceFile>) {
    forall w <- written :: exists f <- files :: f.path == w.path && ToLower(f.content) == ToLower(w.content)
  }

  lemma {:induction false} FixRunWrittenSound(files: seq<SourceFile>, names: seq<string>)
    ensures var out := FixRun(files, ListedSet(names), LowerMap(names));
      |out.written| <= |files| && WrittenFrom(out.written, files)
  {
    if files != [] {
      var exact, lower := ListedSet(names), LowerMap(names);
      var n := |files| - 1;
      FixRunWrittenSound(files[..n], names);
      FixRunSnoc(files, n, exact, lower);
      assert files[..n + 1] == files;
      var f := files[n];
      var st := FixContent(f.path, f.content, exact, lower);
      FoldSound(f.path, FixState(f.content, []), names, FindAll(f.content));
      var before := FixRun(files[..n], exact, lower).written;
      WrittenFromGrow(before, files[..n], files);
      if st.records != [] {
        assert f in files;
        WrittenFromSnoc(before, files, SourceFile(f.path, st.content), f);
      }
    }
  }

  lemma WrittenFromGrow(written: seq<SourceFile>, files: seq<SourceFile>, more: seq<SourceFile>)
    requires WrittenFrom(written, files) && forall g <- files :: g in more
    ensures WrittenFrom(written, more)
  {
  }

  lemma WrittenFromSnoc(written: seq<SourceFile>, files: seq<SourceFile>, w: SourceFile, f: SourceFile)
    requires WrittenFrom(written, files) && f in files
    requires f.path == w.path && ToLower(f.content) == ToLower(w.content)
    ensures WrittenFrom(written + [w], files)
  {
    assert forall x <- written + [w] :: x in written || x == w;
  }

  // ------------------------------------------------------------ report

  /** The console report: the all-match message, or a heading followed by
      three lines per record. */
  function FixReport(replacements: seq<Replacement>): (lines: seq<string>)
    ensures replacements == [] ==> lines == ["No replacements were necessary. All S3 asset URLs match the files in your S3 bucket."]
    ensures replacements != [] ==> |lines| == 1 + 3 * |replacements| && lines[0] == "The following replacements were made:"
  {
    if replacements == [] then ["No replacements were necessary. All S3 asset URLs match the files in your S3 bucket."]
    else ["The following replacements were made:"] + RecordLines(replacements)
  }

  function RecordLines(replacements: seq<Replacement>): (lines: seq<string>)
    ensures |lines| == 3 * |replacements|
    ensures forall i :: 0 <= i < |replacements| ==>
      && lines[3 * i] == "  In " + replacements[i].file + ":"
      && lines[3 * i + 1] == "    " + replacements[i].from
      && lines[3 * i + 2] == "    => " + replacements[i].to
  {
    if replacements == [] then []
    else
      var r := replacements[0];
      ["  In " + r.file + ":", "    " + r.from, "    => " + r.to] + RecordLines(replacements[1..])
  }
}
