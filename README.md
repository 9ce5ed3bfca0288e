# sinbound-demo core, modelled in Dafny

This project models the deterministic logic of the sinbound-demo site and
its asset maintenance scripts, and proves what that logic promises.

- **Asset scripts.**
  - `fix-s3-asset-urls.js` parses a bucket listing.
  - It extracts every asset path that follows the bucket prefix in a source file.
  - It rewrites each path that differs from a listed name only in letter case.
  - `check-s3-asset-urls.js` reports the paths whose lowercase form is not listed.
  - `update-asset-urls.js` turns quoted root paths such as `"/logo.png"` into absolute bucket URLs.
- **Regular expressions.** Every expression is an explicit scanner with the ECMAScript semantics:
  - greedy backtracking for `findS3Urls`;
  - a lazy body, the extension alternatives in the order written, and the `\1` back-reference for the root-path rewrite;
  - the `i` flag, as ASCII case folding;
  - the global scan resuming after each match.
- **Track player.**
  - next and previous index arithmetic with JavaScript's truncating `%`;
  - seek and progress fractions;
  - the `localStorage` save and restore round trip;
  - the analyser levels and the dot count;
  - the mouse-spin gesture. This is a class whose fields are the listener's closure variables.
- **Radio page.**
  - arrow-key navigation, the audio unlock, the clamp effect and the catalog mapping;
  - the page state as a class;
  - the carousel's geometry and its auto-spin pause, as a class;
  - the metaball entities' drift.
- **Neon background.**
  - palette interpolation;
  - the colour cycle and the music level;
  - the expanding-ring lifecycle of every layer.
- **Archive page.** The id filter, the fetch fallback and `playTrack`.

JavaScript numbers are modelled as follows:
- Integer indices are `int`.
- Floating-point quantities are `real`.
- A `NaN` index, which `%` by an empty list or `Number` of unreadable text produces, is `None` of an `Option`.
- `Math.sin`, `Math.atan2`, `Math.random` and `Date.now()` are given as inputs.

The file system walk, file reads and writes, console output and `fetch` are outside the model:
- the scripts' models take the files, the listing text and the file contents as values, and return what is written and the report lines;
- a fetch is an `Option` of its parsed JSON.

Each ring layer holds one or two rings, because a ring is born only when fewer than two remain (`NeonGrids.RingsOk`).

The check script's heading says the check is case-sensitive. The test it makes is case-insensitive, and `S3Check.MissingOfExact` and `S3Check.LowerSetMember` state that test.

The fix script extracts paths with a case-insensitive expression (`gi`, `fix-s3-asset-urls.js:33`) but rewrites them with a plain global replace of the literal URL (`g`, `fix-s3-asset-urls.js:57`). Two consequences follow. They are modelled as the script's behaviour, not claimed as bugs:
- The literal global replace also rewrites the front of a longer URL that starts with the old one (`S3Fix.LongerUrlAlsoRewritten`).
- A path found under a differently cased prefix is recorded, and its file is marked changed, yet its text is not rewritten (`S3Fix.RecordWithoutRewrite`).

## Model

| member | source | states |
|---|---|---|
| JsNumber.JsRem | frontend/src/pages/TrackPlayer.js:87-88 | `%` on integers: the result is smaller in magnitude than the divisor, takes the dividend's sign, and for a non-negative dividend equals the mathematical remainder |
| JsNumber.WrapStep | frontend/src/pages/TrackPlayer.js:87-88 | within `[0, n)`, `(c + 1) % n` steps forward and wraps from the last index to 0; `(c - 1 + n) % n` steps back and wraps from 0 to the last index |
| JsNumber.Trunc | frontend/src/components/Neon3DGrids.js:116 | `Math.trunc` rounds towards zero: non-negative values down, negative values up |
| JsNumber.JsRealRem | frontend/src/components/Neon3DGrids.js:116 | `x % m` on numbers, for non-negative `x` and positive `m`, lies in `[0, m)` |
| JsNumber.Round | frontend/src/components/Neon3DGrids.js:13 | `Math.round`: the nearest integer, with halves rounded up; `JsNumber.RoundBetween` bounds it |
| JsNumber.RoundBetween | frontend/src/components/Neon3DGrids.js:13 | `Math.round` of a value between two integers stays between them |
| JsNumber.FloorMonotone | frontend/src/pages/TrackPlayer.js:413 | `Math.floor` is monotone |
| JsNumber.IntToString | frontend/src/pages/TrackPlayer.js:176 | `String(n)` of a safe integer: a `-` for a negative number, then the decimal digits; `JsNumber.NatToString` and `JsNumber.NatToStringValue` state what the digits are |
| JsNumber.NumberToString | frontend/src/pages/TrackPlayer.js:176 | `String(x)` of a number that is a safe integer or `NaN`; `JsNumber.NumberRoundTrip` proves `Number` reads it back |
| JsNumber.NatToString | frontend/src/pages/TrackPlayer.js:176 | `String(n)` of a natural number within the safe range is a run of decimal digits |
| JsNumber.NatToStringValue | frontend/src/pages/TrackPlayer.js:176 | the digits `String(n)` writes read back as `n` |
| JsNumber.NumberOf | frontend/src/pages/TrackPlayer.js:133 | `Number(str)`: blank text is 0, `"NaN"` and unreadable text are `NaN`, optionally signed decimal digits are their value (exactly, as for every safe integer); the round-trip lemmas below state it on what `String` writes |
| JsNumber.NumberRoundTrip | frontend/src/pages/TrackPlayer.js:133 | `Number(String(x))` gives back `x` for every integer and for `NaN` |
| JsNumber.NaNRoundTrip | frontend/src/pages/TrackPlayer.js:133 | `Number("NaN")` is `NaN` |
| JsNumber.NatRoundTrip | frontend/src/pages/TrackPlayer.js:133 | `Number` of a natural number's decimal text is that number |
| JsNumber.NegativeRoundTrip | frontend/src/pages/TrackPlayer.js:133 | `Number` of `-` followed by a positive number's digits is the negative number |
| JsNumber.DigitsUnpadded | frontend/src/pages/TrackPlayer.js:133 | a digit string has no surrounding whitespace, so `Number`'s trim leaves it whole |
| JsNumber.TrimOfUnpadded | frontend/src/pages/TrackPlayer.js:133 | a text that neither starts nor ends with whitespace is its own trim |
| JsNumber.Sum | frontend/src/pages/TrackPlayer.js:381 | `reduce((a, b) => a + b, 0)` over bytes lies in `[0, 255·length]` |
| JsNumber.SumConst | frontend/src/pages/TrackPlayer.js:381-383 | the sum of `k` bins that all hold `v` is `v·k` |
| JsText.ToLower | fix-s3-asset-urls.js:51 | `toLowerCase` keeps the length |
| JsText.SameLowerAgreesOffLetters | fix-s3-asset-urls.js:51-55 | two texts with the same lowercase form have the same length and agree on every character that is not a letter |
| JsText.ToLowerConcat | check-s3-asset-urls.js:47 | lowercasing distributes over concatenation |
| JsText.ToLowerIdempotent | check-s3-asset-urls.js:14 | lowercasing twice is lowercasing once |
| JsText.TrimStart | fix-s3-asset-urls.js:12 | removes exactly the leading whitespace, leaving a suffix that starts with non-whitespace |
| JsText.TrimEnd | fix-s3-asset-urls.js:12 | removes exactly the trailing whitespace, leaving a prefix that ends with non-whitespace |
| JsText.Trim | fix-s3-asset-urls.js:12 | `trim()`'s result, when non-empty, starts and ends with non-whitespace |
| JsText.TrimIsSlice | fix-s3-asset-urls.js:12 | `trim()` returns a slice of its input |
| JsText.TrimOfBlank | fix-s3-asset-urls.js:12 | a blank text trims to the empty text |
| JsText.Split | fix-s3-asset-urls.js:11 | `split('\n')` returns at least one part, and no part contains the separator |
| JsText.JoinSplit | fix-s3-asset-urls.js:11 | joining the parts of a split with its separator gives back the text |
| JsText.SplitJoin | fix-s3-asset-urls.js:11 | splitting a join of separator-free parts gives back those parts |
| JsText.SplitNoSep | fix-s3-asset-urls.js:11 | a text without the separator splits into itself alone |
| JsText.SplitHeadThenSep | fix-s3-asset-urls.js:11 | a text `h` + separator + `t` splits into `h` followed by the parts of `t` |
| JsText.LastToken | fix-s3-asset-urls.js:12 | `split(/\s+/).pop()` is a suffix of the text |
| JsText.TokenStart | fix-s3-asset-urls.js:12 | the whitespace-free run that ends at a position starts after whitespace or at the text's start |
| JsText.LastTokenFacts | fix-s3-asset-urls.js:12 | the last token holds no whitespace, and whitespace precedes it unless it is the whole text |
| JsText.ReplaceAll | fix-s3-asset-urls.js:57-58 | the global literal replace; `JsText.ReplaceAllAbsent`, `JsText.ReplaceAllLeftmost` and `JsText.ReplaceAllSkip` state how it scans |
| JsText.ReplaceAllAbsent | fix-s3-asset-urls.js:57-58 | the global replace leaves a text without the pattern unchanged |
| JsText.ReplaceAllLeftmost | fix-s3-asset-urls.js:57-58 | the global replace copies the text before the leftmost occurrence, replaces that occurrence and resumes right after it |
| JsText.ReplaceAllSkip | fix-s3-asset-urls.js:57-58 | where the pattern does not start the text, the first character is copied and the scan moves on by one |
| JsText.NoOccurrenceShift | fix-s3-asset-urls.js:57-58 | dropping a leading character keeps the pattern out of the rest of the prefix |
| JsText.ReplaceAllKeepsLower | fix-s3-asset-urls.js:57-58 | replacing a pattern by a text equal to it ignoring case leaves the text's lowercase form unchanged |
| Catalog.IdString | frontend/src/pages/Archive.js:64 | `String(song.id)` for an integer, string, boolean, `null` or missing id; `Catalog.NumberIdText` states the numeric case |
| Catalog.NumberIdText | frontend/src/pages/Archive.js:64 | `String(id)` of a safe-integer id (`Number.isSafeInteger`) is the id's decimal text and reads back as the number |
| Media.AudioElement.constructor | frontend/src/pages/Radio.js:709-722 | a fresh media element has its source and mute flag, full volume, position 0, no playback request and is hidden |
| Media.AudioElement.SetSource | frontend/src/pages/Archive.js:76 | assigning `src` reloads the element: the new source, position 0, and the mute flag, volume, visibility and request count kept |
| Media.AudioElement.Play | frontend/src/pages/Archive.js:78 | `play()` adds one playback request and changes nothing else |
| S3Listing.LineName | fix-s3-asset-urls.js:12 | `line.trim().split(/\s+/).pop()`; its properties are those of `S3Listing.LineNameFacts`, `S3Listing.LineNameShape` and `S3Listing.LineNameEmpty` |
| S3Listing.LineNameFacts | fix-s3-asset-urls.js:12 | a line's name is the last whitespace-free field of the trimmed line, whitespace precedes it inside the trimmed line, and it is empty exactly when the line is blank |
| S3Listing.LineNameShape | fix-s3-asset-urls.js:12 | a line's name is a whitespace-free suffix of the trimmed line, preceded by whitespace when shorter |
| S3Listing.LineNameEmpty | fix-s3-asset-urls.js:12-13 | a line's name is empty exactly when the line is blank |
| S3Listing.TrimOfNonBlank | fix-s3-asset-urls.js:12 | a line with a non-whitespace character trims to a non-empty text |
| S3Listing.NameOf | fix-s3-asset-urls.js:12-13 | the names one line contributes: its name when it is non-empty and does not end in `/`, otherwise none; `S3Listing.BlankLineIgnored` and `S3Listing.DirectoryLineIgnored` state the two exclusions |
| S3Listing.ParseListing | fix-s3-asset-urls.js:10-13 | the listing text split at `\n` and parsed line by line; `S3Listing.NamesOf`, `S3Listing.NamesOfSound` and `S3Listing.NamesOfComplete` state what it yields |
| S3Listing.NamesOf | fix-s3-asset-urls.js:10-13 | every listed name is non-empty and does not end in `/`, and there are no more names than lines |
| S3Listing.NamesOfSound | fix-s3-asset-urls.js:10-13 | every listed name is the name of some line of the listing |
| S3Listing.NamesOfComplete | fix-s3-asset-urls.js:10-13 | every line whose name survives the filter contributes that name |
| S3Listing.NamesOfConcat | fix-s3-asset-urls.js:10-13 | the parse works line by line and keeps the listing's order |
| S3Listing.BlankLineIgnored | fix-s3-asset-urls.js:12-13 | a blank line contributes no name |
| S3Listing.DirectoryLineIgnored | fix-s3-asset-urls.js:13 | a line whose name ends in `/` contributes no name |
| S3Listing.ListedSet | fix-s3-asset-urls.js:14 | `new Set(s3Files)`: the set of listed names, used by `S3Fix.Correction` |
| S3Listing.LowerSet | check-s3-asset-urls.js:14 | the set of lowercased listed names; `S3Check.LowerSetMember` states its membership |
| S3Listing.LowerMap | fix-s3-asset-urls.js:15 | the lowercase map's keys are the lowercased names, and each key maps to a listed name whose lowercase form is that key |
| S3Listing.LowerMapLastWins | fix-s3-asset-urls.js:15 | when several names share a lowercase form, the map keeps the last one listed |
| S3Urls.ClassEnd | fix-s3-asset-urls.js:33 | the greedy `[\w\-./@%]+` run ends at the first character outside the class |
| S3Urls.WordEnd | fix-s3-asset-urls.js:33 | the greedy `\w+` run ends at the first non-word character |
| S3Urls.LastDot | fix-s3-asset-urls.js:33 | backtracking the class run gives back the rightmost `.` followed by a word character, and none after it |
| S3Urls.MatchAt | fix-s3-asset-urls.js:33 | a match at a position lies after the case-insensitive prefix and ends within the text |
| S3Urls.MatchAtSound | fix-s3-asset-urls.js:33 | a match follows the prefix, and its capture is a class run, a `.` and a word run that cannot be extended |
| S3Urls.MatchAtLongest | fix-s3-asset-urls.js:33 | greedy backtracking yields the longest capture that starts after the prefix |
| S3Urls.MatchAtNone | fix-s3-asset-urls.js:33 | where the attempt fails, no capture of the right shape follows a prefix |
| S3Urls.Exec | fix-s3-asset-urls.js:35 | `exec` from `lastIndex` finds a match at or after it, with the capture right after the prefix |
| S3Urls.ExecFound | fix-s3-asset-urls.js:35 | the match `exec` reports is a match of the RegExp at its start |
| S3Urls.ExecLeftmost | fix-s3-asset-urls.js:35 | `exec` reports the leftmost match: none starts between `lastIndex` and it, and none at all when it fails |
| S3Urls.Scan | fix-s3-asset-urls.js:34-37 | every match of the loop lies within the text, after the scan's start |
| S3Urls.Paths | fix-s3-asset-urls.js:36 | the pushed values are the first capture group of each match, in order |
| S3Urls.ScanPathBounds | fix-s3-asset-urls.js:34-37 | every capture lies within its match |
| S3Urls.ScanSound | fix-s3-asset-urls.js:34-37 | every scanned match is a match of the RegExp at its start |
| S3Urls.ScanCons | fix-s3-asset-urls.js:34-37 | after each match the scan resumes at the match's end |
| S3Urls.OrderedCons | fix-s3-asset-urls.js:34-37 | a match that ends before all later ones keeps the list ordered |
| S3Urls.ScanOrdered | fix-s3-asset-urls.js:34-37 | matches come in source order and do not overlap |
| S3Urls.ScanComplete | fix-s3-asset-urls.js:34-37 | nothing is missed: every position where the RegExp matches lies inside some scanned match |
| S3Urls.FindS3Urls | fix-s3-asset-urls.js:32-39 | the `exec` loop returns exactly the captures of the scan, in order |
| S3Urls.PathChars | fix-s3-asset-urls.js:33 | a capture consists of path-class characters only |
| S3Urls.FindAll | fix-s3-asset-urls.js:32-39 | the captures `findS3Urls` returns; `S3Urls.FindS3Urls` proves the `exec` loop computes it, and `S3Urls.FindAllChars` and `S3Urls.FindAllMatch` state what it holds |
| S3Urls.FindAllChars | check-s3-asset-urls.js:31-38 | every extracted path consists of path-class characters, and none holds a `$` |
| S3Urls.FindAllMatch | check-s3-asset-urls.js:31-38 | the `i`-th extracted path is the longest capture of the `i`-th match |
| S3Fix.Correction | fix-s3-asset-urls.js:49-53 | a path is corrected exactly when it is not listed exactly but its lowercase form is in the map, and then to the name mapped to that form |
| S3Fix.Step | fix-s3-asset-urls.js:48-62 | the `urls.forEach` callback for one path; `S3Fix.StepUnchanged` and `S3Fix.StepCorrects` state both outcomes |
| S3Fix.Fold | fix-s3-asset-urls.js:48-63 | the callback applied to the paths in order; `S3Fix.FoldSound` states what it keeps |
| S3Fix.FixContent | fix-s3-asset-urls.js:45-63 | one file's new content and records; `S3Fix.FixFile` proves the loop computes it |
| S3Fix.FixUrls | fix-s3-asset-urls.js:48-63 | the `urls.forEach` loop computes the same content and records as applying the callback to each path in turn, and sets `changed` exactly when it pushed a record |
| S3Fix.FixFile | fix-s3-asset-urls.js:45-63 | a file's new content and records are those of its extracted paths processed in order, and it is changed exactly when there is a record |
| S3Fix.FixRun | fix-s3-asset-urls.js:44-67 | the files written and the records of the whole run; `S3Fix.FixFiles`, `S3Fix.FixRunSnoc` and `S3Fix.FixRunSound` state it |
| S3Fix.FixRunSnoc | fix-s3-asset-urls.js:44-67 | the run over one more file writes that file exactly when it had a record, and appends its records |
| S3Fix.FixFiles | fix-s3-asset-urls.js:44-67 | the `files.forEach` loop writes exactly the changed files, in order, and collects every record |
| S3Fix.FixScript | fix-s3-asset-urls.js:10-78 | the whole script parses the listing, processes every file, and reports the records |
| S3Fix.StepUnchanged | fix-s3-asset-urls.js:49-52 | a path listed exactly, or one with no case-insensitive match, changes neither the content nor the records |
| S3Fix.StepCorrects | fix-s3-asset-urls.js:51-60 | a rewrite replaces the URL by one that differs only in case, globally, and appends exactly one record `{file, from, to}`; the listed name it writes holds no `$` when the old path held none |
| S3Fix.NoDollarFollows | fix-s3-asset-urls.js:55-58 | a name equal to a `$`-free path ignoring case holds no `$`, so it adds no substitution pattern to the replacement string |
| S3Fix.FoldSound | fix-s3-asset-urls.js:48-63 | over all of a file's paths the content changes only in letter case, and every record's new URL is the bucket prefix followed by a listed name, differing from the old URL only in case |
| S3Fix.LongerUrlAlsoRewritten | fix-s3-asset-urls.js:57-58 | the literal replace also rewrites the front of a longer URL that starts with the old one |
| S3Fix.RecordWithoutRewrite | fix-s3-asset-urls.js:54-60 | a path whose URL does not occur with the exact prefix is still recorded while the content stays the same |
| S3Fix.FixRunSound | fix-s3-asset-urls.js:44-67 | every record of the run is sound, and every written file has an input file's path and its content up to letter case |
| S3Fix.FixRunRecordsSound | fix-s3-asset-urls.js:44-67 | every record of the whole run is sound |
| S3Fix.FixRunWrittenSound | fix-s3-asset-urls.js:64-66 | every written file has an input file's path and equals its content ignoring case |
| S3Fix.AllSoundConcat | fix-s3-asset-urls.js:60 | sound record lists stay sound when joined |
| S3Fix.FixReport | fix-s3-asset-urls.js:69-78 | no records give the single all-fine message; otherwise a heading and three lines per record |
| S3Fix.RecordLines | fix-s3-asset-urls.js:73-77 | each record prints its file, its old URL and its new URL, in record order |
| S3Check.IsMissing | check-s3-asset-urls.js:47 | `!s3Set.has(assetPath.toLowerCase())`; `S3Check.MissingOfExact` and `S3Check.CheckFixAgree` state its role |
| S3Check.MissingOf | check-s3-asset-urls.js:46-50 | one file pushes at most one record per extracted path |
| S3Check.CheckFile | check-s3-asset-urls.js:44-50 | one file's records are those of its extracted paths whose lowercase form is not listed |
| S3Check.MissingOfSnoc | check-s3-asset-urls.js:46-50 | one more path adds a record exactly when it is missing |
| S3Check.CheckRun | check-s3-asset-urls.js:43-51 | the records of the whole run; `S3Check.CheckFiles` proves the loop computes it and `S3Check.CheckRunConcat` states its grouping |
| S3Check.CheckFiles | check-s3-asset-urls.js:43-51 | the loop collects every file's records, file after file |
| S3Check.CheckScript | check-s3-asset-urls.js:10-61 | the whole script parses the listing into lowercased names, checks every file, and reports the records |
| S3Check.LowerSetMember | check-s3-asset-urls.js:14 | a lowercase form is in the set exactly when some listed name has that lowercase form |
| S3Check.MissingOfExact | check-s3-asset-urls.js:47-48 | a record is pushed for an occurrence exactly when its path is missing, and every record names its file |
| S3Check.MissingOfConcat | check-s3-asset-urls.js:46-50 | records follow the order of occurrences within a file |
| S3Check.CheckRunConcat | check-s3-asset-urls.js:43-51 | records are grouped by file, in the order of the files |
| S3Check.CheckFixAgree | check-s3-asset-urls.js:47 | every path is exactly one of: listed exactly, corrected by the fix, or reported by the check; the fix leaves a reported path alone |
| S3Check.CheckReport | check-s3-asset-urls.js:53-61 | no records give the all-match message; otherwise the heading, one line per record with its file and full URL, and the advice |
| S3Check.MissingLines | check-s3-asset-urls.js:57-59 | one line per record, naming its file and the prefixed path |
| RootPaths.TryExtensions | update-asset-urls.js:28 | an alternative that succeeds is a listed extension, ignoring case, followed by the opening quote |
| RootPaths.TryExtensionsComplete | update-asset-urls.js:28 | when a listed extension followed by the quote is there, some alternative succeeds |
| RootPaths.ExtensionChars | update-asset-urls.js:28 | every extension alternative consists of lowercase letters and digits |
| RootPaths.ListedChars | update-asset-urls.js:28 | a listed text consists of lowercase letters and digits |
| RootPaths.ExtensionText | update-asset-urls.js:28 | text equal to an extension ignoring case holds no `.`, quote, `?`, `#` or whitespace |
| RootPaths.LiteralUnique | update-asset-urls.js:28 | at most one match shape starts at a position |
| RootPaths.BodyBefore | update-asset-urls.js:28 | everything between the `/` and the closing quote is a body character |
| RootPaths.Lazy | update-asset-urls.js:28 | the lazy body `[^"'`?#\s]+?` tried one character at a time; `RootPaths.LazySound` and `RootPaths.LazyComplete` state what it finds |
| RootPaths.LazySound | update-asset-urls.js:28 | what the lazy body search returns has the match shape |
| RootPaths.LazyComplete | update-asset-urls.js:28 | the lazy search finds the match shape when one lies ahead of it |
| RootPaths.TryAtDot | update-asset-urls.js:28 | at the dot of a match shape some extension alternative succeeds |
| RootPaths.MatchLiteral | update-asset-urls.js:28 | the match attempt of the RegExp at one position; `RootPaths.MatchLiteralSound` and `RootPaths.MatchLiteralComplete` state it |
| RootPaths.MatchLiteralSound | update-asset-urls.js:28 | a match has the shape: the same quote at both ends, `/` not followed by `/`, a non-empty body without quotes, `?`, `#` or whitespace, and a listed extension |
| RootPaths.MatchLiteralComplete | update-asset-urls.js:28 | the match shape is always found, with its own dot and closing quote |
| RootPaths.Rewrite | update-asset-urls.js:27-32 | the global replace from one position; `RootPaths.RewriteCopies` and `RootPaths.RewriteAtLiteral` state both steps |
| RootPaths.RewriteFrom | update-asset-urls.js:27-32 | one step of the replace, given the match attempt; `RootPaths.RewriteMatched` states the matched case |
| RootPaths.Absolute | update-asset-urls.js:29-31 | the callback's value: the quote, the bucket URL, `/`, the captured path and the quote |
| RootPaths.UpdateContent | update-asset-urls.js:27-32 | the new content of a file; `RootPaths.NoQuotesUnchanged` and `RootPaths.SingleLiteral` state it on whole texts |
| RootPaths.RewriteCopies | update-asset-urls.js:27-32 | text where no match starts is copied unchanged |
| RootPaths.RewriteAtLiteral | update-asset-urls.js:27-32 | a match is replaced by the quote, the bucket URL, `/`, the captured path and the quote, and the scan resumes after the match |
| RootPaths.RewriteMatched | update-asset-urls.js:27-32 | a successful match attempt is replaced by the callback's value |
| RootPaths.NoQuotesUnchanged | update-asset-urls.js:27-32 | a text without quote characters is left as it is |
| RootPaths.SingleLiteral | update-asset-urls.js:28-31 | a literal `q/name.ext q` alone becomes `q` + bucket URL + `/name.ext` + `q` |
| RootPaths.SingleLiteralShape | update-asset-urls.js:28 | such a literal has the match shape |
| RootPaths.NotRewritten | update-asset-urls.js:28 | `//` protocol-relative paths and already-absolute literals such as `"https:..."` do not match |
| RootPaths.MismatchedQuotes | update-asset-urls.js:28 | a literal that opens with one quote and closes with another, such as `"/a.png'`, does not match |
| TrackPlayer.Next | frontend/src/pages/TrackPlayer.js:87 | the next index is a number exactly when the index is one and the list is non-empty |
| TrackPlayer.Prev | frontend/src/pages/TrackPlayer.js:88 | the previous index is a number exactly when the index is one and the list is non-empty |
| TrackPlayer.NextPrevInRange | frontend/src/pages/TrackPlayer.js:87-88 | in a non-empty list, next and previous stay in range and move one step with wrap-around |
| TrackPlayer.NextPrevInverse | frontend/src/pages/TrackPlayer.js:87-88 | previous undoes next, and next undoes previous |
| TrackPlayer.EmptyListGivesNaN | frontend/src/pages/TrackPlayer.js:87-88 | with no tracks the index becomes `NaN`, and `NaN` stays `NaN` |
| TrackPlayer.SeekTime | frontend/src/pages/TrackPlayer.js:121-127 | no seek without an element or with a zero duration; otherwise the clamped fraction times the duration, within `[0, duration]` |
| TrackPlayer.SeekFraction | frontend/src/pages/TrackPlayer.js:125 | the click fraction is clamped to `[0, 1]` and is exact inside the bar |
| TrackPlayer.UpdateProgress | frontend/src/pages/TrackPlayer.js:103-107 | stores the position and the duration (0 when unknown); the fraction is 0 for a zero duration, and otherwise the fraction times the duration is the position |
| TrackPlayer.ProgressInRange | frontend/src/pages/TrackPlayer.js:106 | a position within the track shows a fraction within `[0, 1]` |
| TrackPlayer.SeekThenProgress | frontend/src/pages/TrackPlayer.js:106-126 | after a click the progress shows the clicked fraction |
| TrackPlayer.HandleSeek | frontend/src/pages/TrackPlayer.js:121-127 | sets the element's position to the seek time when there is an element and a duration, otherwise leaves it; nothing else changes |
| TrackPlayer.BoolString | frontend/src/pages/TrackPlayer.js:175 | `String(isPlaying)`; `TrackPlayer.SaveRestore` shows it reads back as the flag |
| TrackPlayer.Save | frontend/src/pages/TrackPlayer.js:174-177 | saving writes the two keys and leaves every other key |
| TrackPlayer.Restore | frontend/src/pages/TrackPlayer.js:130-135 | a stored index replaces the current one through `Number`, and with none the index stays; playing is set exactly when it already was or the stored text is `true` |
| TrackPlayer.SaveRestore | frontend/src/pages/TrackPlayer.js:130-135 | restoring what was saved into a freshly mounted player gives back the saved index, `NaN` included, and the saved flag |
| TrackPlayer.Slice | frontend/src/pages/TrackPlayer.js:381-383 | `slice` clips its bounds to the length |
| TrackPlayer.BassLevel | frontend/src/pages/TrackPlayer.js:381 | the bass level lies in `[0, 1]` |
| TrackPlayer.TempoLevel | frontend/src/pages/TrackPlayer.js:383 | the tempo level lies in `[0, 1]` |
| TrackPlayer.LevelBound | frontend/src/pages/TrackPlayer.js:381-383 | an average of bytes divided by 255 lies in `[0, 1]` |
| TrackPlayer.DotCount | frontend/src/pages/TrackPlayer.js:412-414 | the dot count lies in `[80, 200]` |
| TrackPlayer.LevelExtremes | frontend/src/pages/TrackPlayer.js:381-414 | silence gives level 0 and 80 dots; full-scale bins give level 1 and 200 dots |
| SpinGesture.SpinDetector.constructor | frontend/src/pages/TrackPlayer.js:617-631 | the listener starts with both flags clear, no count, no previous event, and the message on the left |
| SpinGesture.SpinDetector.OnMouseMove | frontend/src/pages/TrackPlayer.js:632-675 | one event updates the closure variables and fires the effects exactly as the step function prescribes |
| SpinGesture.NormalizeDelta | frontend/src/pages/TrackPlayer.js:640-643 | the angle change brought back into `[-π, π]`; `SpinGesture.DeltaRange` proves the range |
| SpinGesture.Step | frontend/src/pages/TrackPlayer.js:639-674 | one `onMouseMove` event on the closure variables; `SpinGesture.StepInv`, `SpinGesture.FlagsLatch`, `SpinGesture.IdleResets` and `SpinGesture.JitterIgnored` state it |
| SpinGesture.InitialInv | frontend/src/pages/TrackPlayer.js:627-631 | the initial state satisfies the invariant |
| SpinGesture.DeltaRange | frontend/src/pages/TrackPlayer.js:640-643 | between two `atan2` angles the normalised change lies in `[-π, π]` |
| SpinGesture.StepInv | frontend/src/pages/TrackPlayer.js:639-674 | every event preserves the invariant |
| SpinGesture.FlagsLatch | frontend/src/pages/TrackPlayer.js:654-671 | a set flag stays set and blocks its effect; the message resets the count and flips the side |
| SpinGesture.MilestoneNeedsEarlierCelebration | frontend/src/pages/TrackPlayer.js:654-671 | the message cannot fire unless the celebration already has |
| SpinGesture.IdleResets | frontend/src/pages/TrackPlayer.js:649-652 | after more than two seconds the count restarts at 0 and nothing fires |
| SpinGesture.JitterIgnored | frontend/src/pages/TrackPlayer.js:645-647 | a change of at most 0.01 soon after the last event only records the angle and the time |
| SpinGesture.FirstEventRecords | frontend/src/pages/TrackPlayer.js:673-674 | the first event only records the angle and the time |
| SpinGesture.Run | frontend/src/pages/TrackPlayer.js:632-675 | a run of events yields one effect record per event |
| SpinGesture.AtMostOnce | frontend/src/pages/TrackPlayer.js:627-671 | over any run of events the celebration and the message each fire at most once, and never once their flag is set |
| SpinGesture.MilestoneFollowsCelebration | frontend/src/pages/TrackPlayer.js:654-671 | every message follows a celebration fired at an earlier event |
| Radio.Navigate | frontend/src/pages/Radio.js:590-598 | the selection after a key: unchanged with no items or another key, one step left or right with wrap-around otherwise; stated by the three lemmas below |
| Radio.NavigateRange | frontend/src/pages/Radio.js:590-598 | with no items, or another key, nothing moves; the arrows step left and right with wrap-around and stay in range |
| Radio.NavigateInverse | frontend/src/pages/Radio.js:591-598 | left undoes right and right undoes left |
| Radio.NavigateMoves | frontend/src/pages/Radio.js:591-598 | with two or more items an arrow key always moves the selection |
| Radio.Clamp | frontend/src/pages/Radio.js:659-666 | with items present the index ends in range: past the end it becomes the last index, below 0 it becomes 0, otherwise it stays |
| Radio.CatalogItems | frontend/src/pages/Radio.js:643-648 | one item per song |
| Radio.CatalogItemsAt | frontend/src/pages/Radio.js:643-648 | the item at each position is built from the song at that position |
| Radio.CatalogItemsConcat | frontend/src/pages/Radio.js:643-648 | the mapping keeps the catalog's order |
| Radio.EntryOf | frontend/src/pages/Radio.js:644-648 | one carousel item built from a song; `Radio.CatalogItemsAt` and `Radio.EntryLinksTrack` state it |
| Radio.TrackOf | frontend/src/pages/Radio.js:647 | a track read from a link is what follows `/trackplayer?track=` |
| Radio.EntryLinksTrack | frontend/src/pages/Radio.js:647 | every item links to the player with its own song's link |
| Radio.CarouselN | frontend/src/pages/Radio.js:301 | the carousel counts at least one slot, and exactly the items when there are some |
| Radio.ItemAngle | frontend/src/pages/Radio.js:171 | the angle of item `i` around the cylinder; `Radio.CarouselGeometry` states the spacing |
| Radio.TargetAngle | frontend/src/pages/Radio.js:309 | the rotation that brings the selected item to the front; `Radio.CarouselGeometry` states it |
| Radio.CarouselGeometry | frontend/src/pages/Radio.js:309 | the target rotation brings the selected item to angle 0, items are evenly spaced, and they fill one turn |
| Radio.PausedAfterSelect | frontend/src/pages/Radio.js:316-331 | after a selection the carousel stands still for three seconds, whatever frames are drawn |
| Radio.ResumesAfterPause | frontend/src/pages/Radio.js:316-324 | a frame more than three seconds after the selection, on the same item, resumes the spin; a spinning carousel advances one step per frame, a paused one does not turn |
| Radio.Carousel.constructor | frontend/src/pages/Radio.js:303-331 | mounting starts the spin state and then runs the selection effect |
| Radio.Carousel.SelectionChanged | frontend/src/pages/Radio.js:327-331 | a selection stops the spin and notes its time and index |
| Radio.Carousel.OnFrame | frontend/src/pages/Radio.js:316-324 | a frame advances or resumes the spin as the frame function prescribes |
| Radio.RadioPage.constructor | frontend/src/pages/Radio.js:550-556 | mounting: nothing loaded, audio locked, the key listener holding count 0, and the pointer listener waiting |
| Radio.RadioPage.PlaySFX | frontend/src/pages/Radio.js:579-586 | the effect restarts from 0 at volume 0.12 with one more playback request |
| Radio.RadioPage.UnlockAudio | frontend/src/pages/Radio.js:609-634 | the loop is unmuted at volume 0.85 and the page becomes ready; on becoming ready the loop starts and the key listener is registered again with the current count |
| Radio.RadioPage.KeyDown | frontend/src/pages/Radio.js:589-607 | a key press with a count of 0 or the item count: the selection follows the navigation rule, the page becomes ready on the first arrow with items, and the effect and loop players change exactly as an arrow and the unlock say |
| Radio.RadioPage.MoveSelection | frontend/src/pages/Radio.js:590-601 | an arrow with items moves the selection one step with wrap-around and plays the effect at volume 0.12 from position 0; any other key changes nothing |
| Radio.RadioPage.HandleKeyAsWritten | frontend/src/pages/Radio.js:589-607 | the key listener as written navigates with the count it captured when it was registered; with a count above 0, an arrow sets the effect to volume 0.12 at position 0 and requests it to play, and while the page is not ready it unmutes the loop at volume 0.85, requests it to play and marks the page ready; the sources and the other fields of both players are unchanged |
| Radio.RadioPage.HandleKey | frontend/src/pages/Radio.js:589-603 | the key listener with the live count always moves with two or more items; an arrow plays the effect at volume 0.12 from position 0 and, while the page is not ready, unmutes the loop at volume 0.85 and requests it to play; every other player field is unchanged |
| Radio.RadioPage.PointerDown | frontend/src/pages/Radio.js:617-627 | the first press removes the listener and, if the page was not ready, unmutes the loop at volume 0.85, requests one play and re-registers the key listener with the current count; once removed, presses leave the loop player and the page unchanged |
| Radio.RadioPage.LoadCatalog | frontend/src/pages/Radio.js:637-666 | the fetch fills the items or leaves them empty, ends loading, and the index is clamped |
| Radio.StaleKeyListener | frontend/src/pages/Radio.js:589-627 | after a click before the catalog arrives, the listener keeps count 0, so the arrows do not move |
| Radio.KeyboardOnlyVisitor | frontend/src/pages/Radio.js:589-607 | a keyboard-only visitor can neither move the carousel nor unlock the audio |
| Radio.DriftBlob | frontend/src/pages/Radio.js:66-72 | an entity step raises `t` by 1 and moves the entity out by `2·speed` or to the cap `0.45·width`, whichever is nearer; an entity inside the cap never moves in; the step keeps the hue in `[0, 360)` and puts the radius in `[20, 56]` |
| Radio.Drift | frontend/src/pages/Radio.js:65-73 | every entity steps, in order |
| Radio.DriftFrames | frontend/src/pages/Radio.js:65-73 | over frames each measured at the window width of its moment, an entity ends `t` raised by the frame count, with its hue in range and its distance within the cap of the last width |
| Radio.NarrowingPullsIn | frontend/src/pages/Radio.js:68 | after the window narrows below an entity, its next step pulls it in to the new cap |
| Radio.DriftOutwards | frontend/src/pages/Radio.js:65-73 | while the window never narrows, an entity inside the cap never moves in |
| NeonGrids.Channel | frontend/src/components/Neon3DGrids.js:13 | one rounded interpolated channel; `NeonGrids.ChannelBetween` bounds it |
| NeonGrids.Segment | frontend/src/components/Neon3DGrids.js:8-9 | the palette segment `Math.floor(t·(n-1))`; `NeonGrids.SegmentNonNegative` and `NeonGrids.SegmentInRange` bound it |
| NeonGrids.Frac | frontend/src/components/Neon3DGrids.js:8-10 | the position of `t` within its segment lies in `[0, 1)` |
| NeonGrids.Mix | frontend/src/components/Neon3DGrids.js:13 | for a fraction in `[0, 1]`, every channel of the mixed colour lies between the two colours' channels |
| NeonGrids.LerpColors | frontend/src/components/Neon3DGrids.js:6-14 | `lerpColors`; `NeonGrids.LerpBetween` and `NeonGrids.LerpAtKnot` state what colour it gives |
| NeonGrids.ChannelBetween | frontend/src/components/Neon3DGrids.js:13 | an interpolated channel lies between its two endpoints |
| NeonGrids.SegmentNonNegative | frontend/src/components/Neon3DGrids.js:8-9 | the palette segment of a non-negative `t` is non-negative |
| NeonGrids.SegmentInRange | frontend/src/components/Neon3DGrids.js:7-12 | for `t` in `[0, 1)`, the segment lies in `[0, n-2]` and neither index wraps |
| NeonGrids.LerpBetween | frontend/src/components/Neon3DGrids.js:6-14 | each channel of the colour lies between those of the two palette entries around `t` |
| NeonGrids.LerpAtKnot | frontend/src/components/Neon3DGrids.js:6-14 | at `t = k/(n-1)` the colour is exactly palette entry `k` |
| NeonGrids.ColorT | frontend/src/components/Neon3DGrids.js:116 | the colour position lies in `[0, 1)` for a non-negative clock and level |
| NeonGrids.GridColorValid | frontend/src/components/Neon3DGrids.js:188-197 | the grid colour is always a valid RGB colour |
| NeonGrids.MusicLevel | frontend/src/components/Neon3DGrids.js:157-158 | the level lies in `[0, 1]`, and is the average over 128 when that is at most 1 |
| NeonGrids.InitialRings | frontend/src/components/Neon3DGrids.js:71-76 | each layer starts with rings at 0 and at 0.5, with keys `100i` and `100i+1` |
| NeonGrids.Advance | frontend/src/components/Neon3DGrids.js:81 | a ring never moves backwards for a non-negative frame time and level |
| NeonGrids.Moved | frontend/src/components/Neon3DGrids.js:81 | every ring advances by the same step and keeps its key |
| NeonGrids.Unfinished | frontend/src/components/Neon3DGrids.js:82 | the filter keeps exactly the rings with `t < 1` |
| NeonGrids.LayerFrame | frontend/src/components/Neon3DGrids.js:81-85 | one layer's rings after a frame; `NeonGrids.LayerFrameFacts` states it |
| NeonGrids.LayerFrameFacts | frontend/src/components/Neon3DGrids.js:81-85 | a frame keeps a layer at one or two live rings; its rings are the advanced unfinished ones, with their keys, plus at most one new ring at 0 |
| NeonGrids.RingsFrame | frontend/src/components/Neon3DGrids.js:78-88 | the number of layers never changes |
| NeonGrids.RingsFrameKeepsShape | frontend/src/components/Neon3DGrids.js:71-88 | layers start well-formed and stay so on every frame |
| NeonGrids.Look | frontend/src/components/Neon3DGrids.js:95-99 | a ring is a band of positive width whose inner radius lies between the layer base and one full expansion beyond it |
| NeonGrids.LookWidens | frontend/src/components/Neon3DGrids.js:95-99 | a louder level makes a ring no narrower and pushes its inner radius no nearer the centre |
| NeonGrids.LookFades | frontend/src/components/Neon3DGrids.js:101-103 | a live ring's opacity lies in `(0, layer opacity]` and shrinks as it grows |
| Archive.FilterById | frontend/src/pages/Archive.js:64 | the filter keeps exactly the songs whose id reads as the parameter |
| Archive.FilterByIdConcat | frontend/src/pages/Archive.js:64 | the filter keeps the catalog's order |
| Archive.FilterByIdIdempotent | frontend/src/pages/Archive.js:64 | filtering twice is filtering once |
| Archive.NumericIdSelected | frontend/src/pages/Archive.js:64 | a song whose id is a safe integer is selected by that number's decimal text |
| Archive.SelectTracks | frontend/src/pages/Archive.js:52-68 | with no parameter, or an empty one, the whole catalog is shown; otherwise the filtered songs |
| Archive.LoadTracks | frontend/src/pages/Archive.js:57-71 | a failed fetch or parse leaves no tracks |
| Archive.ArchivePage.constructor | frontend/src/pages/Archive.js:47-49 | the page starts with no tracks and no current track |
| Archive.ArchivePage.Load | frontend/src/pages/Archive.js:57-71 | the fetch's outcome becomes the tracks |
| Archive.ArchivePage.PlayTrack | frontend/src/pages/Archive.js:73-80 | the track becomes current, and the element gets the track's URL, starts again from position 0, is shown and started; its mute flag and volume are kept |

## Left out

- The directory walk (`getFiles`), file reads and writes, and console output. The scripts' models take the files and the listing as values and return what is written and printed.
- The extension filter of the directory walk is not modelled either, for the same reason.
- `fetch`, JSON parsing and the `URLSearchParams` lookup. Their outcome is a parameter. A failed fetch or parse is `None`.
- `String.prototype.toLowerCase` is modelled for ASCII letters only. Characters outside ASCII keep their case in the model.
- The RegExp `i` flag is exact: without the `u` flag, no character outside ASCII folds onto the ASCII pattern text.
- `Number(text)` is modelled for the texts `String` writes for integers and `NaN`. These are signed decimal integers and surrounding whitespace. Other forms (`1e3`, hex, `Infinity`, fractions) are not part of this model.
- IntToString: agrees with `String` only for safe integers (`|n| <= 2^53 - 1`). Beyond 2^53 a double prints its shortest round-trip digits, and from 10^21 on exponent notation; the model prints the exact decimal text.
- NatToString: the same bound as `IntToString`.
- NumberToString: the same bound as `IntToString`.
- NumberOf: reads a digit string beyond 2^53 exactly, where `Number` rounds it to the nearest double. The stored track index it reads is a small list index.
- IdString: a JSON number id is an integer in the model; fractional ids (`String(1.5)` is `"1.5"`) are not part of this model, and integer ids agree with `String` only up to 2^53.
- NumberIdText: stated for safe integers only, since larger ids are rounded when the JSON is parsed.
- NumericIdSelected: stated for safe integers only, for the same reason.
- Floating point is modelled by exact reals. There is no rounding error, no `Infinity` and no `NaN` duration.
- `NeonGrids.ColorT`: the bound does not cover a negative clock or level, which the browser never supplies.
- `Math.sin`, `Math.atan2`, `Math.random` and `Date.now()` are inputs. The spin detector takes angles in `[-π, π]`, as `atan2` returns.
- `Radio.DriftBlob`: the three sine values are required to lie in `[-1, 1]`, the range of `Math.sin`.
- The pages' media elements are taken to be mounted. The `if (!audio) return` guards of `unlockAudio`, the pointer listener and `playSFX` are not modelled, except in `TrackPlayer.HandleSeek`.
- `play()` is a counter of playback requests. Its promise and autoplay refusals are browser I/O.
- The metaball pixel field, the grid meshes, camera parallax, springs, `hslToRgb`, confetti and the `setTimeout`-driven overlays are rendering with no contract.
- The remaining-time text is left out as well.
- The heading animation and the carousel item click are not modelled.
- The carousel's radius and the item placement's sine and cosine are not modelled. Only the angles are.
- The track player's audio graph and analyser reads are browser APIs. The levels are computed from a given byte array.
- The autoplay retry on mount and the auto-play on load are also asynchronous browser I/O.
- `update-asset-urls.js` writes every file back even when nothing changed. The model returns the new content only.

## Findings

| source | as written | input that shows it | evidently intended | confidence | as-written member | corrected member |
|---|---|---|---|---|---|---|
| frontend/src/pages/Radio.js:589-607 | the key listener is registered only when `audioReady` changes, so it reads the item count of that moment: 0 before the catalog arrives | a visitor who clicks before the catalog loads (or never clicks) and then presses ArrowRight with two or more items: the selection stays at 0 and, without a click, the audio never unlocks | the arrow keys navigate with the live item count | not executed | Radio.RadioPage.HandleKeyAsWritten (exhibited by Radio.StaleKeyListener and Radio.KeyboardOnlyVisitor) | Radio.RadioPage.HandleKey |
