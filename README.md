# deb-mirror-checker, modelled in Dafny

deb-mirror-checker checks a local or HTTP mirror of a Debian repository. It has two sides.

It writes sidecars. `process` walks a directory tree. For every regular file `f` whose name does
not start with a dot, `processFile` writes a sidecar `.f.sum` next to it, unless the sidecar path
already exists. The sidecar holds the file's `Size`, `MD5sum`, `SHA1`, `SHA256` and `SHA512`.

It checks indexes against sidecars:

- `getSums` reads a file's sidecar into a map, writing the sidecar first if it is missing.
- `parse` reads a Packages index. At every blank line it compares the stanza's listed sums with
  the file's sidecar.
- `verify` reads a clearsigned Release file and hashes its content with the digest the
  `Hash:` header names. It checks the signature against a key ring that `loadKeys` read from an
  armored key file. Then it compares every file listed in the tables with that file's sidecar.
- `sum` adds up the sizes a Packages index lists.
- `added` is meant to report the stanzas of one index that are new or changed relative to
  another. As written, both of its passes read the old index (see Findings), so it reports the
  old index's stanzas whose record differs from the last record stored under the same name.
- `main.go` keeps the first version of `parse`, `process` and `processFile`. That version writes
  four-line sidecars through one shared 512 KiB buffer.

The modules follow the program's files:

| Module | Source | What it holds |
|---|---|---|
| GoStrings, GoPath | (library) | The parts of Go's `strings`, `strconv`, `fmt`, `unicode/utf8`, `bufio` and `path` the program relies on. |
| FileSystem | (OS) | The operating system as a value: stat, open and read, directory listing, create. |
| Crypto | (library) | The digests and the OpenPGP library as given functions. |
| Process | process.go | The sidecar writer. |
| GetSum | getSum.go | The sidecar reader. |
| Compare | parse.go, verify.go | The compare-and-delete loop that `parse` and `verify` share. |
| Parse | parse.go | `parse`. |
| Clearsign | verify.go | `verify`'s scan loop. |
| Verify | verify.go | The rest of `verify`. |
| Sum | sum.go | `sum` and its passback struct, as a class. |
| Added | added.go | `added`. |
| Legacy | main.go | The first versions. |
| LoadKeys | loadKeys.go | `loadKeys`. |

Each loop of the source is a Dafny `method` with a `while` loop. Each method is proved equal to a
recursive specification function over the lines read so far. The lemmas state the program's
promises about those functions.

## Model

| member | source | states |
|---|---|---|
| GoStrings.SplitColonSpace | parse.go:98 | `strings.SplitN(s, ": ", 2)`: one part (the whole string) exactly when there is no ": ", otherwise the text before and after the first ": " |
| GoStrings.SplitKeyValue | getSum.go:50-52 | a "key: value" line whose key has no ':' splits back into that key and that value |
| GoStrings.TrimSpace | parse.go:101 | the result is never longer than the input, and a string without white space is unchanged; the full promise is in TrimSpaceFactor |
| GoStrings.TrimSpaceFactor | parse.go:101 | `strings.TrimSpace` keeps one factor of the input, everything outside it is white space, and the result neither starts nor ends with white space |
| GoStrings.TrimPrefix | verify.go:147 | with the prefix present, prefix + result is the input; otherwise the input is returned |
| GoStrings.TrimSuffix | verify.go:168 | with the suffix present, result + suffix is the input; otherwise the input is returned |
| GoStrings.FieldsWords | verify.go:171 | every field `strings.Fields` returns is non-empty and holds no white space |
| GoStrings.FormatUint | process.go:129 | `%d` gives a non-empty string of decimal digits |
| GoStrings.ParseUint | sum.go:127 | a successful `strconv.ParseUint(s, 10, 64)` is below 2^64 |
| GoStrings.ParseFormatUint | sum.go:127 | parsing what `%d` printed gives back the number, for every uint64 |
| GoStrings.AddMod | process.go:118 | adding to a wrapped uint64 total wraps like adding to the unwrapped sum |
| GoStrings.Parsed | parse.go:98-102 | each line becomes one key/value field, in order |
| GoStrings.Utf8 | verify.go:141 | `[]byte(s)` has at least one byte per rune |
| GoStrings.Utf8Ascii | process.go:129-133 | an ASCII string encodes one byte per character, each the character's code |
| GoStrings.Latin1OfAscii | getSum.go:42-46 | the bytes of an ASCII string read back one character per byte give the string |
| GoStrings.Hex | process.go:130-133 | `%x` of a digest has two hex digits per byte |
| GoStrings.Utf8Append | verify.go:141 | `[]byte` of a concatenation is the concatenation of the encodings |
| GoStrings.TextLines | getSum.go:42-46 | the scanner yields one text line per token of the split at '\n' |
| GoStrings.ScanJoinedLines | getSum.go:42-54 | scanning lines that were written one after another, each followed by "\n", gives back exactly those lines |
| GoPath.SplitParts | getSum.go:28 | `path.Split`: dir + file is the path, file has no '/', and dir is empty or ends in '/' |
| GoPath.SplitJoin | getSum.go:29 | the file part of `path.Join(d, e)` is `e`, for a plain entry name `e` |
| GoPath.SplitClean | getSum.go:29 | the file part of a cleaned path is its last element |
| GoPath.JoinElems | process.go:46 | `path.Join(p, e)` has the elements of `p` followed by `e` |
| GoPath.DepthJoin | process.go:46 | joining a directory with an entry name goes exactly one level deeper |
| FileSystem.ReadDir | process.go:40 | `ioutil.ReadDir` lists exactly the listable directories, and sorts the names |
| FileSystem.ReadDirDistinct | process.go:40 | a directory listing names each entry once |
| FileSystem.Create | process.go:123 | `os.Create` fails exactly on an unwritable path or a directory; otherwise the file holds the written bytes and nothing else changes |
| FileSystem.Read | process.go:90 | `Read` fills the buffer as far as the file allows, with the file's next bytes; at the end it reports EOF or the stream's error |
| FileSystem.HeightEntry | process.go:45-47 | the recursion into a directory's entries goes strictly down, so `process` terminates |
| Crypto.MatchingKeys | verify.go:219 | every selected key is one of the entity's keys, has the issuer's id and may sign, and every such key is selected |
| Crypto.MatchingKeysOrder | verify.go:219 | the selection keeps the input's order: it is the keys at a strictly increasing list of positions, exactly the positions of signing keys with the id |
| Crypto.MatchingKeysAppend | verify.go:219 | selecting from two key lists one after the other gives the two selections one after the other |
| Crypto.RingKeys | verify.go:219 | every key of every entity of the ring is listed |
| Crypto.KeysByIdUsage | verify.go:219 | every selected key is a key of some entity of the ring, has the issuer's id and may sign, and every such key of every entity is selected |
| Crypto.KeysByIdUsageOrder | verify.go:219 | the selection is MatchingKeys over the ring's keys entity by entity, each primary key before its subkeys, so the keys come in ring order |
| Process.SidecarNameIsEntry | process.go:61 | the sidecar name ".f.sum" is a plain entry name starting with '.' and ending in ".sum" |
| Process.SidecarPathBase | getSum.go:28-29 | the sidecar path's file part is the sidecar name of the file's own file part |
| Process.ProcessFileSpec | process.go:55-134 | `processFile` leaves the file system alone for a dot file, an existing sidecar path, a file that cannot be opened or read, or a failed create; otherwise it adds one new readable node, the sidecar, at the sidecar path |
| Process.ProcessFile | process.go:55-134 | the chunked method computes `processFile`'s effect |
| Process.ReadAll | process.go:85-120 | the read loop succeeds exactly when the stream ends without error; each digest is then fed exactly the file's bytes, and the total is their number modulo 2^64 |
| Process.SidecarNotProcessed | process.go:56-60 | a sidecar is never given a sidecar of its own |
| Process.ProcessFileTwice | process.go:64-68 | `processFile` is idempotent: a second call finds the sidecar and does nothing |
| Process.ProcessFileWrites | process.go:123-133 | for a readable non-dot file without a sidecar on a writable path, the sidecar holds the five lines of its size and four digests |
| Process.ExtendsTrans | process.go:32-51 | growing the file system by new regular files is transitive |
| Process.ProcessFileExtends | process.go:55-134 | `processFile` only adds files and keeps the file system well formed |
| Process.ProcessFileAddsSidecar | process.go:123-133 | every file `processFile` adds is a sidecar of the correct form |
| Process.ProcessSpec | process.go:32-51 | `process` only adds files and keeps the file system well formed |
| Process.ProcessEntries | process.go:45-47 | so does the loop over a directory's entries |
| Process.Process | process.go:32-51 | the recursive method computes `process`'s effect |
| Process.ProcessDir | process.go:40-47 | the entry loop computes the loop's effect |
| Process.ProcessIgnoresOthers | process.go:33-38 | a path that does not stat as a directory or a regular file is left alone |
| Process.ProcessAddsSidecars | process.go:32-51 | everything `process` adds is a sidecar |
| Process.EntriesAddSidecars | process.go:45-47 | everything the entry loop adds is a sidecar |
| Process.WantsSidecarWritten | process.go:48-49 | a regular file that wants a sidecar has one after `process` on it |
| Process.EntriesCover | process.go:45-47 | after the entry loop, every listed entry that wants a sidecar has one |
| Process.ProcessCoversEntries | process.go:39-47 | after `process` on a directory, every entry it lists that wants a sidecar has one |
| Process.ListedDir | process.go:39-47 | a listable directory is walked through exactly the entries `ReadDir` returns, in that order |
| GetSum.SidecarMapKeys | getSum.go:44-54 | a key is in the sidecar map exactly when some line splits into that key and a value |
| GetSum.SidecarMapLast | getSum.go:50-53 | the map holds the trimmed value of the last line that sets the key |
| GetSum.Lookup | getSum.go:35-39 | a lookup in the nil map, or of an absent key, is ""; otherwise it is the stored value |
| GetSum.GetSumsSpec | getSum.go:25-56 | `getSums` writes the sidecar only when its path does not exist; the result is nil when the sidecar cannot be opened, and otherwise the map of its lines |
| GetSum.GetSums | getSum.go:25-56 | the method computes `getSums` |
| GetSum.ScanSums | getSum.go:42-54 | the scanner loop builds the sidecar map |
| GetSum.SidecarLinesMap | process.go:129-133 | the five written lines map each key to its written value |
| GetSum.SidecarRoundTrip | process.go:129-133 | reading back a sidecar the writer produced gives exactly its five keys and values |
| GetSum.GetSumsRoundTrip | getSum.go:31-54 | for a file without a sidecar, `getSums` returns the sums of the file's own bytes |
| GetSum.GetSumsTwice | getSum.go:31-33 | a second `getSums` changes nothing and returns the same map |
| GetSum.MissingSidecarLookups | getSum.go:35-39 | when the sidecar cannot be opened, every lookup is "" |
| Compare.Mismatches | parse.go:115-123 | after the loop, exactly the listed keys whose sidecar value differs remain, with their listed values |
| Compare.CompareSums | parse.go:115-123 | the loop, in any map order, leaves those keys, fails exactly when one remains, and reports each remaining key once |
| Compare.NilSidecarMismatches | parse.go:114-123 | against a nil sidecar map, exactly the non-empty listed values fail |
| Compare.MatchingSidecarClears | parse.go:122 | a sidecar that agrees on every listed key deletes them all |
| Compare.MismatchesIdempotent | parse.go:115-123 | running the loop again on what remains removes nothing more |
| Compare.MismatchesShrink | parse.go:115-123 | what remains is a subset of what was listed, and it is empty exactly when every listed value matches |
| Compare.Check | parse.go:114-123 | `getSums` then the loop: fails exactly when something remains, and reports exactly the remaining keys |
| Compare.CheckTwice | parse.go:114-123 | checking a file again against its remaining sums changes nothing |
| Compare.CheckExtends | getSum.go:31-33 | a check only adds files |
| Parse.FailedStep | parse.go:92-128 | once the run has failed it stays failed from line to line |
| Parse.ParseLines | parse.go:89-129 | the scanner loop computes the state after every line |
| Parse.ParseLine | parse.go:98-127 | the loop body is one step of the specification |
| Parse.OtherKeyIgnored | parse.go:103-107 | a line with another non-empty key changes nothing |
| Parse.KeyLines | parse.go:98-107 | a "Filename" line sets the file name and a sum line sets that sum, each to the trimmed value |
| Parse.BlankWithoutFilename | parse.go:108-109 | a blank line with no file name changes nothing |
| Parse.MissingFile | parse.go:110-113 | a blank line whose file does not exist only reports it missing |
| Parse.CheckedFile | parse.go:114-123 | otherwise what remains are the listed sums that differ, and the run fails exactly when one does |
| Parse.RepeatedBlank | parse.go:103-125 | a second blank line leaves the file system, file name, sums and failure as the first left them |
| Parse.NonBlankStep | parse.go:103-108 | a non-blank line neither touches files nor reports anything |
| Parse.StepKeepsFailed | parse.go:119 | no line clears the failure |
| Parse.RunKeepsFailed | parse.go:119-129 | a failure at any line persists to the end |
| Parse.RunStepFrozen | parse.go:103-108 | a non-blank line leaves the file system, failure and reports as they were |
| Parse.RunWithoutBlank | parse.go:108-109 | a stretch of lines without a blank line reports and writes nothing |
| Clearsign.Scan | verify.go:103-180 | the scan loop computes the state after every line |
| Clearsign.ReadSignature | verify.go:120-132 | from the first other "-----" line on, every remaining line is captured |
| Clearsign.ScanLine | verify.go:134-179 | the body of the loop on a line that is not a marker |
| Clearsign.WriteLine | verify.go:134-143 | outside the head, the line's UTF-8 bytes go to the digest, after CRLF unless it is the first line written |
| Clearsign.ReadHeader | verify.go:145-161 | an unindented head line may select the digest; the blank line ends the head |
| Clearsign.InsertRow | verify.go:170-178 | an indented row is added to the table |
| Clearsign.CrlfTextJoin | verify.go:136-141 | the text fed line by line is the lines joined by CRLF |
| Clearsign.CrlfUtf8 | verify.go:139-141 | the bytes fed for a CRLF join are the encodings joined by the bytes CR LF |
| Clearsign.ContentStep | verify.go:134-143 | one content line extends the hashed text by CRLF and the line, or by the line alone if it is the first |
| Clearsign.ContentRunStep | verify.go:134-143 | the same, stated for the scan of a sequence of lines |
| Clearsign.ContentHashed | verify.go:134-143 | after the head, the digest holds exactly the content lines before the next "-----" line, joined by CRLF |
| Clearsign.TermTextJoin | verify.go:120-127 | the captured text is the lines, each followed by "\n" |
| Clearsign.CaptureStart | verify.go:120 | a marker other than BEGIN starts the block with itself and "\n" |
| Clearsign.CaptureStep | verify.go:121-126 | each later line is appended to the block with "\n" |
| Clearsign.Captured | verify.go:120-127 | from the marker line on, the block is exactly the lines read, each followed by "\n" |
| Clearsign.CapturedToEnd | verify.go:120-127 | the signature block runs to the end of the file |
| Clearsign.NoMarkerNoBlock | verify.go:115-133 | with no "-----" line other than BEGIN, no block is captured |
| Clearsign.NoBlockStep | verify.go:115-133 | a line that is not a "-----" marker, or is BEGIN, captures no block |
| Clearsign.NewSectionNotHead | verify.go:164-169 | a section switch never re-enters the head |
| Clearsign.BeginStep | verify.go:115-119 | the BEGIN line enters the head and changes nothing else |
| Clearsign.HeadStep | verify.go:144-162 | a head line keeps the table and the block; only "Hash: " changes the digest; the blank line ends the head |
| Clearsign.SelectHashNames | verify.go:146-155 | "SHA1", "SHA256" and "SHA512" each start a fresh digest of that algorithm; any other name keeps the digest as it was |
| Clearsign.HashHeader | verify.go:146-155 | "Hash: " followed by a known name starts that digest afresh |
| Clearsign.SectionSwitch | verify.go:164-169 | "MD5Sum:" switches to the MD5sum section; the SHA headers switch to the untrimmed line less one ':'; anything else keeps the section |
| Clearsign.SectionKeepsTrailingBlank | verify.go:168 | "SHA256: " with a trailing blank names the section "SHA256: ", not "SHA256" |
| Clearsign.RowMerge | verify.go:170-178 | a row with more than two fields sets the path's hash for the section and its size, keeping everything else |
| Clearsign.ShortRowIgnored | verify.go:171-172 | a row with at most two fields leaves the table alone |
| Clearsign.HeadScanned | verify.go:115-161 | after BEGIN, a "Hash: " header and the blank line, the named digest is selected and empty |
| Clearsign.SignedContent | verify.go:134-161 | after the head and content lines, the digest holds the content joined by CRLF |
| Clearsign.SignedDocument | verify.go:109-143 | for a whole clearsigned document, the digest is fed the UTF-8 bytes of the content lines joined by CRLF, and the block is the signature lines |
| Verify.VerifyKeys | verify.go:225-239 | the key loop ends as `TryKeys` says: verified, no key verifying, or the nil-hash panic |
| Verify.NilHashPanics | verify.go:225-231 | with a nil digest the loop never verifies, and it panics exactly when some key's algorithm can sign |
| Verify.SeenByFirst | verify.go:228 | the first key able to sign sees the content digest plus one signature suffix |
| Verify.SeenByNext | verify.go:225-231 | each later key sees the suffixes written for the keys before it |
| Verify.SomeHitSplit | verify.go:225-239 | a verifying key is either the first key or one of the rest |
| Verify.VerifiedIff | verify.go:225-239 | with a digest the loop never panics; it verifies exactly when some key able to sign verifies the shared hash state as that key receives it |
| Verify.Reconcile | verify.go:245-277 | the loop over the table, in the map order Go picks, visits each listed file once |
| Verify.ReconcileFile | verify.go:246-276 | the loop body is one reconciliation step |
| Verify.Verify | verify.go:182-279 | after the scan, the method computes `verify`'s outcome, effects and reports |
| Verify.ListedNameFirst | verify.go:246-268 | a file present under its listed name is checked there |
| Verify.BesideFallback | verify.go:249-253 | otherwise a file next to the Release file is checked there |
| Verify.UnfoundFile | verify.go:254-265 | a file found under neither name is skipped, and reported missing exactly when no compressed or uncompressed variant exists |
| Verify.CheckAtFails | verify.go:268-276 | a checked file fails exactly when some listed sum differs from its sidecar, and its report names those keys |
| Verify.AnyFailureSnoc | verify.go:272 | adding a report adds a failure exactly when it is a check with failed keys |
| Verify.StepConsistent | verify.go:268-276 | the failure flag stays "some report has failed keys" |
| Verify.ReconConsistent | verify.go:245-277 | the same over the whole table |
| Verify.StepExtends | verify.go:268 | a reconciliation step only adds files |
| Verify.ReconExtends | verify.go:245-277 | the whole reconciliation only adds files |
| Verify.SuccessNeedsSignature | verify.go:213-243 | `verify` returns nil only after a key verified the signature, or, with no key ring, without checking anything |
| Verify.NoBlockNoSignature | verify.go:186-188 | a Release file without a signature block gives that error and checks nothing |
| Verify.MissingHashPanics | verify.go:145-156 | without a recognised "Hash:" header, a signed file and a key able to sign end in the panic, before any file is checked |
| Verify.AcceptedNeedsHash | verify.go:225-241 | an accepted signature needs a digest and a key that verifies it |
| Verify.EarlyErrorsChangeNothing | verify.go:186-243 | every error other than a failed sum leaves the file system alone and reports nothing |
| Verify.AcceptedOutcome | verify.go:244-279 | once the signature is accepted, `verify` fails exactly when some report has failed keys, and then with "failed verification"; it only adds files |
| Sum.SumPassback.constructor | sum.go:31-36 | a fresh passback is empty and tallied |
| Sum.SumPassback.Sum | sum.go:101-138 | the loop updates the passback as the specification says, keeping count and total tallied, and returns the warnings |
| Sum.SumPassback.SumLine | sum.go:109-137 | the loop body is one step of the specification |
| Sum.SumPassback.Record | sum.go:127-132 | recording a new size updates the map, the count and the total together |
| Sum.TotalInsert | sum.go:129-130 | recording a new name adds its size to the sum of the sizes |
| Sum.InsertTallied | sum.go:127-132 | recording a name keeps the count the number of names and the total the sum of sizes, modulo 2^64 |
| Sum.FlushTallied | sum.go:119-136 | a blank line keeps the passback tallied, adding exactly the names it records |
| Sum.RecordTallied | sum.go:127-132 | the record step computes the flush and keeps the tally |
| Sum.NoFilenameNoRecord | sum.go:120 | a stanza without a file name records nothing and warns about nothing |
| Sum.KnownFilename | sum.go:121-125 | a known name records nothing, and warns exactly when its size differs |
| Sum.NewFilename | sum.go:126-132 | a new name is recorded with count and total updated modulo 2^64 exactly when its size parses, and never warns |
| Sum.FlushRecords | sum.go:127-132 | a new name with a parsable size is recorded with its size |
| Sum.BlankResets | sum.go:135 | a blank line resets the file name and size |
| Sum.OtherKeyIgnored | sum.go:114-118 | a line with another key changes nothing |
| Sum.StepKeepsRecorded | sum.go:121-126 | a recorded size is never replaced |
| Sum.RunKeepsRecorded | sum.go:121-126 | a recorded size survives one more line of the index |
| Sum.RecordedStays | sum.go:101-138 | a recorded size stays through every later line |
| Added.BuildFileList | added.go:95-128 | the first pass builds the file list the specification describes |
| Added.ListLine | added.go:103-127 | its body is one step |
| Added.FillVar | added.go:108-120 | each key sets its stanza variable |
| Added.ReportChanges | added.go:191-227 | the second pass reports as the specification describes |
| Added.DiffLine | added.go:199-226 | its body is one step |
| Added.AddedAsWritten | added.go:29-229 | `added` as written: both passes read the old index |
| Added.AddedFixed | added.go:29-229 | `added` with the second pass reading the new index |
| Added.ListAtStanza | added.go:121-125 | the first pass's stanza variables are those since the last blank line |
| Added.DiffAtStanza | added.go:217-224 | so are the second pass's |
| Added.ListAtStep | added.go:121-124 | a blank line after a named stanza stores its record under its name; every other line keeps the list |
| Added.DiffAtStep | added.go:217-223 | a blank line after a named stanza that is new or changed reports the name; every other line reports nothing |
| Added.BlankStores | added.go:121-126 | a blank line stores "size\|md5\|sha1\|sha256\|sha512" under the file name and resets all six variables |
| Added.NoLeak | added.go:125 | nothing of a stanza leaks past its blank line |
| Added.NewIndexIgnored | added.go:162 | an index pair a new stanza tells apart: as written nothing is reported, the fixed version reports the new name |
| Added.StoredNames | added.go:121-124 | a name is in the file list exactly when some stanza with that name was closed by a blank line |
| Added.StoredLast | added.go:123 | the list holds the record of the last stanza with each name |
| Added.DiffIff | added.go:217-223 | a name is reported exactly when some closed stanza with that name is new or differs from the list |
| Added.AsWrittenReportsNothing | added.go:131-223 | as written, with distinct names in the old index, nothing is ever reported |
| Added.FixedReports | added.go:217-223 | the fixed version reports exactly the new stanzas' names that are new or changed |
| Legacy.ProcessFileSpec | main.go:168-228 | the first `processFile`: as in process.go, with a four-line sidecar |
| Legacy.ProcessFile | main.go:168-228 | the method with the shared buffer computes it |
| Legacy.ReadAll | main.go:195-216 | the read loop over the shared buffer feeds each digest exactly the file's bytes, and counts them modulo 2^64 |
| Legacy.SidecarNotProcessed | main.go:169-173 | a sidecar is never given a sidecar |
| Legacy.ProcessFileTwice | main.go:177-181 | a second call does nothing |
| Legacy.ProcessFileWrites | main.go:218-227 | the new node is the four-line sidecar |
| Legacy.ProcessFileExtends | main.go:168-228 | it only adds files |
| Legacy.SidecarLinesPrefix | main.go:224-227 | the four lines are the first four lines the later writer writes |
| Legacy.ProcessSpec | main.go:145-164 | the first `process` only adds files |
| Legacy.ProcessEntries | main.go:158-160 | so does its entry loop |
| Legacy.Process | main.go:145-164 | the method computes it |
| Legacy.ProcessDir | main.go:153-160 | the entry loop computes its specification |
| Legacy.ProcessAddsSidecars | main.go:145-164 | everything it adds is a sidecar |
| Legacy.EntriesAddSidecars | main.go:158-160 | so is everything its entry loop adds |
| Legacy.Lagged | main.go:71 | the lines a `for line := s.Text(); s.Scan(); line = s.Text()` body sees: as many as were read |
| Legacy.LaggedAt | main.go:71 | the body sees "" first, then each line one iteration late |
| Legacy.LaggedDropsLast | main.go:71 | the last line read is never seen |
| Legacy.MismatchInIff | main.go:112-137 | the sidecar loop has failed exactly when some line seen disagrees |
| Legacy.SidecarFailsIff | main.go:106-138 | as written, a sidecar fails exactly when a line other than its last disagrees |
| Legacy.SidecarFailsFixedIff | main.go:106-138 | read without the lag, it fails exactly when any line disagrees |
| Legacy.CheckSidecar | main.go:105-138 | the lagged loop computes the as-written verdict |
| Legacy.LineMismatch | main.go:107-137 | a sidecar line disagrees exactly when its key is one of the four and its value differs |
| Legacy.WrittenScan | main.go:224-227 | reading back the written sidecar gives its four lines |
| Legacy.WrittenFields | main.go:224-227 | they are Size, MD5sum, SHA1 and SHA256 with the written values |
| Legacy.WrittenMismatch | main.go:112-137 | each written line disagrees exactly when its variable differs from the written value |
| Legacy.WrittenSidecarSkipsSha256 | main.go:106 | a sidecar this writer wrote fails exactly when size, MD5 or SHA1 differ: SHA256 is never compared |
| Legacy.WrittenSidecarFixed | main.go:106-138 | read without the lag, it fails exactly when any of the four differs |
| Legacy.AssignSha256 | main.go:86-87 | a SHA256 line sets the SHA256 variable |
| Legacy.LaggedStep | main.go:71 | each iteration processes the line before it |
| Legacy.ParseLines | main.go:68-142 | the first `parse` loop computes its specification |
| Legacy.ParseLagged | main.go:71-141 | one iteration of it |
| Legacy.ParseLine | main.go:72-141 | its body is one step |
| Legacy.CheckAgainstSidecar | main.go:89-139 | the SHA256 branch writes the sidecar if missing and checks the file against it |
| Legacy.StepVars | main.go:77-87 | every line sets the stanza variables the same way |
| Legacy.AssignVar | main.go:77-87 | a line sets the variable of its key and no other |
| Legacy.RunVars | main.go:77-87 | the variables after a run are the lines' assignments in order |
| Legacy.AssignedLast | main.go:77-87 | the last assignment to a variable wins |
| Legacy.LastAssignmentWins | main.go:69-87 | a variable holds the value of the last line that set it |
| Legacy.OnlySha256Checks | main.go:77-87 | only a SHA256 line touches files or reports |
| Legacy.MissingSidecar | main.go:96-101 | an unopenable sidecar reports the file missing |
| Legacy.FreshSidecar | main.go:92-94 | a missing sidecar is written before it is read |
| Legacy.FreshFileAsWritten | main.go:89-138 | as written, a file checked against its fresh sidecar fails exactly when size, MD5 or SHA1 differ |
| Legacy.FreshFileFixed | main.go:89-138 | without the lag, it fails exactly when any sum differs |
| Legacy.LastLineIgnored | main.go:71 | the index's last line never affects the outcome |
| Legacy.RunPrefix | main.go:71 | the run over a prefix depends only on that prefix |
| Legacy.FixedReadsLastLine | main.go:71 | without the lag, the last line is processed like every other |
| LoadKeys.LoadKeysSpec | loadKeys.go:13-55 | the error is an open failure exactly when the key file cannot be opened, and a non-empty key ring comes with no error |
| LoadKeys.LoadKeys | loadKeys.go:13-55 | the method computes it |
| LoadKeys.ScanLine | loadKeys.go:28-49 | the loop body is one step |
| LoadKeys.AppendKeys | loadKeys.go:38-39 | the parsed entities are appended in order |
| LoadKeys.StepPending | loadKeys.go:33-45 | each line is added to the pending text, which is cleared exactly by a successful parse at an END line |
| LoadKeys.JoinSplit | loadKeys.go:33 | the pending text of consecutive lines splits at any point |
| LoadKeys.PendingSinceLastLoaded | loadKeys.go:33-45 | the pending text is every line since the last successful parse, each followed by "\n" |
| LoadKeys.NoLoadsBetween | loadKeys.go:34-36 | the last successful parse moves only at END lines |
| LoadKeys.FailedBlockKept | loadKeys.go:43-45 | after a failed parse, the next parse gets the failed text followed by the next block |
| LoadKeys.LoadedBlockCleared | loadKeys.go:37-42 | after a successful parse, the next parse gets the next block alone |
| LoadKeys.EndLineOutcome | loadKeys.go:34-49 | an END line appends the parsed entities and clears text and error; a failed parse keeps the text and records the error unless a key is already loaded |
| LoadKeys.KeyringGrows | loadKeys.go:38-39 | the key ring only grows |
| LoadKeys.BlocksCountEnds | loadKeys.go:34-35 | the block counter is the number of END lines read |
| LoadKeys.ErrorNamesLastBlock | loadKeys.go:36-49 | an error comes only with an empty key ring and names the last block |
| LoadKeys.NoEndNoKeys | loadKeys.go:27-50 | without an END line, nothing is parsed and there is no error |

## Left out

- Opening the index and Release streams is not part of this model: the HTTP client, the `os.Open` calls that start `parse`, `sum`, `added` and `verify`, gzip and xz. That is open.go, http.go and the branches at the top of those four functions. Only the Packages indexes and the Release file are given as their lines. The key file and the sidecars are opened and read through the modelled file system (`FileSystem.Open`, scanned with `TextLines`), as are the files `processFile` hashes.
- mtime.go is not part of this model. It needs the network and date parsing.
- `main` (the command line) is not modelled. Neither is the per-argument dispatch.
- Output wording is not modelled. The messages `parse`, `verify` and `added` print are abstract reports such as Missing, Checked and Failed, or reported names. `sum`'s warnings are strings. `loadKeys`'s messages are dropped. The `%d` that `added` applies to a string is not modelled.
- The digests and the OpenPGP library are given functions:
  - armor decoding;
  - packet reading;
  - signature verification of a hash state;
  - `ReadArmoredKeyRing`.
  The model does not compute MD5, SHA-1, SHA-256 or SHA-512.
- A signature's suffix is an abstract field of the packet. Its layout (hashed subpackets and trailer, or type and time) is not modelled.
- The goroutines and WaitGroup that feed the four digests in `processFile` are not modelled. They run as four sequential writes of each chunk. The Wait before each buffer is reused makes this equivalent.
- `sum_passback.lock` is not modelled: calls run one at a time. `count` is a Go `uint`, modelled as 64 bits as on the usual 64-bit platforms.
- The scanner's 64 KiB token limit is not modelled: a longer line is scanned whole.
- The Release file's lines are the decoded text. A line carrying invalid UTF-8 is not represented.
- Sidecar text read back, and the key file `loadKeys` reads, are viewed one character per byte. `strings.TrimSpace` on non-ASCII bytes there differs from Go, which decodes UTF-8 first. The sidecars the writer produces are ASCII, where the two agree.
- LoadKeys.IsEnd: the END-marker test trims the key-file line in that one-character-per-byte view. A line of `-----END PGP PUBLIC KEY BLOCK-----` followed by the lone byte 0xA0 counts as an END line in the model, but Go decodes that byte as an invalid rune and does not trim it. Conversely, the marker followed by the UTF-8 no-break space C2 A0 is an END line for Go but not for the model. Lines whose only white space is ASCII agree.
- Go's map iteration order is nondeterministic. It is taken as any order (`:|`, or the ghost `order` of `Verify.Reconcile`).
- The `NilHashPanic` outcome stands for a Go panic. It ends the whole run, including any later arguments; those later arguments are not modelled.
- `Legacy`'s shared `buf` is an `array` the methods are given; `main.go`'s global is not aliased elsewhere.
- `loadKeys` uses Go's `int` counter `i`. It is a `nat`: there are no 2^63 blocks. A nil key ring and an empty one are the same empty sequence.
- `FileSystem.Open` of a special file (device, FIFO or socket) is modelled as a failed open. Go's `os.Open` succeeds on a device such as /dev/null and blocks on a FIFO; a listed name that leads `processFile` to such a file is therefore treated as unreadable.
- The file system has no symbolic links and no kernel-side path resolution. Paths are the exact strings the program passes.
- Directory entries do not grow when a sidecar is created in them. `ioutil.ReadDir` lists a directory once, before the walk writes into it.
- Crypto.KeysByIdUsage: the revocation and key-flag tests of `openpgp.EntityList.KeysByIdUsage` are folded into the key's `canSign` field.

## Findings

| source | as written | input that shows it | evidently intended | confidence | as-written member | corrected member |
|---|---|---|---|---|---|---|
| added.go:132 and added.go:162 | the second pass opens `old_name` again; `new_name` is never read | old index "Filename: a", ""; new index "Filename: a", "", "Filename: b", "": nothing is reported | the second pass reads `new_name`, and "b" is reported | not executed | Added.NewIndexIgnored | Added.FixedReports |
| main.go:106 | `for line := s.Text(); s.Scan(); line = s.Text()` compares each sidecar line one iteration late and never compares the last line, which is SHA256 | a file whose listed SHA256 differs from its sidecar while Size, MD5sum and SHA1 agree is not reported as failed | every sidecar line, SHA256 included, is compared | not executed | Legacy.WrittenSidecarSkipsSha256 | Legacy.WrittenSidecarFixed |
| main.go:71 | the same loop shape over the index never processes its last line | an index whose final line is "SHA256: x" never checks that stanza | every line is processed | not executed | Legacy.LastLineIgnored | Legacy.FixedReadsLastLine |
