/**
 * main.go: the first version of the checker. `ProcessFile` writes a four-line sidecar (no
 * SHA-512) reading through one shared 512 KiB buffer, and `Process` walks a tree with it.
 * `Parse` reads a Packages index and, on every "SHA256" line, checks the current file against
 * its sidecar, writing the sidecar first when its path does not exist. Both of its scanner
 * loops are written `for line := s.Text(); s.Scan(); line = s.Text()`, so their bodies see ""
 * first and never see the last line.
 */
module Legacy {
  import opened Wrappers
  import opened GoStrings
  import opened GoPath
  import opened FileSystem
  import opened Crypto
  import P = Process
  import G = GetSum

  // ---- processFile ----

  /** The lines of a sidecar, in the order they are written. */
  function SidecarLines(size: nat, md5: seq<byte>, sha1: seq<byte>, sha256: seq<byte>): seq<string> {
    [P.SidecarEntry("Size", FormatUint(size)), P.SidecarEntry("MD5sum", Hex(md5)),
     P.SidecarEntry("SHA1", Hex(sha1)), P.SidecarEntry("SHA256", Hex(sha256))]
  }

  /** The content of the sidecar of a file whose reads delivered `data`. */
  function SidecarBytes(dg: Digests, data: seq<byte>): seq<byte> {
    Utf8(JoinLines(WrittenText(dg, data)))
  }

  /** processFile as a function of the file system it runs on. */
  function ProcessFileSpec(fs: Fs, dg: Digests, name: string): (r: Fs)
    ensures r.unwritable == fs.unwritable
    ensures HasPrefix(Split(name).1, ".") ==> r == fs
    ensures Exists(fs, P.SidecarPath(name)) ==> r == fs
    ensures Open(fs, name).None? || Open(fs, name).value.failsAtEnd ==> r == fs
    ensures r != fs ==> (P.SidecarPath(name) !in fs.nodes &&
      r.nodes == fs.nodes[P.SidecarPath(name) := Regular(SidecarBytes(dg, Open(fs, name).value.data), Readable)])
  {
    var sumName := P.SidecarPath(name);
    if HasPrefix(Split(name).1, ".") || Exists(fs, sumName) then fs
    else match Open(fs, name)
      case None => fs
      case Some(s) =>
        if s.failsAtEnd then fs
        else match Create(fs, sumName, SidecarBytes(dg, s.data))
          case None => fs
          case Some(fs') => fs'
  }

  /** processFile: skips dot files and files whose sidecar path exists, reads the file into
      the shared buffer chunk by chunk, and writes the four-line sidecar. */
  method ProcessFile(fs: Fs, dg: Digests, name: string, buf: array<byte>) returns (r: Fs)
    requires buf.Length == BufSize
    modifies buf
    ensures r == ProcessFileSpec(fs, dg, name)
  {
    var (dirName, fileName) := Split(name);
    if HasPrefix(fileName, ".") {
      return fs;
    }
    var sumName := Join(dirName, P.SidecarName(fileName));
    if Stat(fs, sumName) != NotExist {
      return fs;
    }
    var file := Open(fs, name);
    if file.None? {
      return fs;
    }
    var s := file.value;
    var ok, hMd5, hSha1, hSha256, total := ReadAll(s, buf);
    if !ok {
      return fs;
    }
    var text := SidecarLines(total, dg.md5(hMd5), dg.sha1(hSha1), dg.sha256(hSha256));
    var out := Create(fs, sumName, Utf8(JoinLines(text)));
    if out.None? {
      return fs;
    }
    r := out.value;
  }

  /** The read loop of processFile: every chunk goes to the three hashes and its length to the
      wrapping uint64 total; a read error abandons the file. */
  method ReadAll(s: Stream, buf: array<byte>) returns (ok: bool, hMd5: seq<byte>, hSha1: seq<byte>, hSha256: seq<byte>, total: nat)
    requires buf.Length == BufSize
    modifies buf
    ensures ok <==> !s.failsAtEnd
    ensures ok ==> hMd5 == s.data && hSha1 == s.data && hSha256 == s.data && total == |s.data| % TwoTo64
  {
    hMd5, hSha1, hSha256 := [], [], [];
    total := 0;
    var pos: nat := 0;
    while true
      invariant pos <= |s.data|
      invariant hMd5 == s.data[..pos] && hSha1 == s.data[..pos] && hSha256 == s.data[..pos]
      invariant total == pos % TwoTo64
      decreases |s.data| - pos
    {
      var res := Read(s, pos, buf);
      if res == Eof {
        break;
      }
      if res == ReadError {
        return false, hMd5, hSha1, hSha256, total;
      }
      var n := res.n;
      var toWrite: seq<byte>;
      if n < buf.Length {
        toWrite := buf[..n];
      } else {
        toWrite := buf[..];
      }
      assert s.data[..pos + n] == s.data[..pos] + toWrite;
      hMd5 := hMd5 + toWrite;
      hSha1 := hSha1 + toWrite;
      hSha256 := hSha256 + toWrite;
      AddMod(pos, n);
      total := (total + n) % TwoTo64;
      pos := pos + n;
    }
    assert s.data[..pos] == s.data;
    ok := true;
  }

  /** A sidecar is never given a sidecar of its own. */
  lemma SidecarNotProcessed(fs: Fs, dg: Digests, name: string)
    ensures ProcessFileSpec(fs, dg, P.SidecarPath(name)) == fs
  {
    P.SidecarPathBase(name);
  }

  /** Write-once: a second call changes nothing. */
  lemma ProcessFileTwice(fs: Fs, dg: Digests, name: string)
    ensures ProcessFileSpec(ProcessFileSpec(fs, dg, name), dg, name) == ProcessFileSpec(fs, dg, name)
  {
  }

  /** A readable, non-dot file whose sidecar path is absent and writable gets its sidecar. */
  lemma ProcessFileWrites(fs: Fs, dg: Digests, name: string)
    requires !HasPrefix(Split(name).1, ".") && P.SidecarPath(name) !in fs.nodes
    requires P.SidecarPath(name) !in fs.unwritable
    requires Open(fs, name).Some? && !Open(fs, name).value.failsAtEnd
    ensures ProcessFileSpec(fs, dg, name).nodes
      == fs.nodes[P.SidecarPath(name) := Regular(SidecarBytes(dg, Open(fs, name).value.data), Readable)]
  {
  }

  lemma ProcessFileExtends(fs: Fs, dg: Digests, name: string)
    requires Valid(fs)
    ensures P.Extends(fs, ProcessFileSpec(fs, dg, name)) && Valid(ProcessFileSpec(fs, dg, name))
  {
    P.ExtendsDirs(fs, ProcessFileSpec(fs, dg, name));
  }

  /** The four lines written here are the first four lines the later sidecar writer writes. */
  lemma SidecarLinesPrefix(dg: Digests, data: seq<byte>)
    ensures var n := |data| % TwoTo64;
      SidecarLines(n, dg.md5(data), dg.sha1(data), dg.sha256(data))
        == P.SidecarLines(n, dg.md5(data), dg.sha1(data), dg.sha256(data), dg.sha512(data))[..4]
  {
  }

  // ---- process ----

  /** process: a directory is walked entry by entry, a regular file gets processFile, anything
      else (and any stat or listing error) is ignored. */
  function ProcessSpec(fs: Fs, dg: Digests, name: string): (r: Fs)
    requires Valid(fs)
    ensures P.Extends(fs, r) && Valid(r)
    decreases Height(fs, name), 1, 0
  {
    match Stat(fs, name)
    case IsDir =>
      (match ReadDir(fs, name)
       case None => fs
       case Some(es) => ProcessEntries(fs, dg, name, es, 0))
    case IsRegular =>
      ProcessFileExtends(fs, dg, name);
      ProcessFileSpec(fs, dg, name)
    case _ => fs
  }

  /** The loop over the entries `es[i..]` of `dir`. */
  function ProcessEntries(fs: Fs, dg: Digests, dir: string, es: seq<string>, i: nat): (r: Fs)
    requires Valid(fs) && dir in Dirs(fs) && i <= |es|
    requires forall j :: 0 <= j < |es| ==> EntryName(es[j])
    ensures P.Extends(fs, r) && Valid(r)
    decreases Height(fs, dir), 0, |es| - i
  {
    if i == |es| then fs
    else
      HeightEntry(fs, dir, es[i]);
      var fs1 := ProcessSpec(fs, dg, Join(dir, es[i]));
      P.ExtendsDirs(fs, fs1);
      var r := ProcessEntries(fs1, dg, dir, es, i + 1);
      P.ExtendsTrans(fs, fs1, r);
      r
  }

  lemma EntriesFirst(fs: Fs, dg: Digests, dir: string, es: seq<string>, i: nat)
    requires Valid(fs) && dir in Dirs(fs) && i < |es|
    requires forall j :: 0 <= j < |es| ==> EntryName(es[j])
    ensures Valid(ProcessSpec(fs, dg, Join(dir, es[i])))
    ensures Dirs(ProcessSpec(fs, dg, Join(dir, es[i]))) == Dirs(fs)
    ensures ProcessEntries(fs, dg, dir, es, i) == ProcessEntries(ProcessSpec(fs, dg, Join(dir, es[i])), dg, dir, es, i + 1)
  {
    P.ExtendsDirs(fs, ProcessSpec(fs, dg, Join(dir, es[i])));
  }

  method Process(fs: Fs, dg: Digests, name: string, buf: array<byte>) returns (r: Fs)
    requires Valid(fs) && buf.Length == BufSize
    modifies buf
    ensures r == ProcessSpec(fs, dg, name)
    decreases Height(fs, name), 1
  {
    var info := Stat(fs, name);
    if info == IsDir {
      var files := ReadDir(fs, name);
      if files.None? {
        return fs;
      }
      assert name in Dirs(fs);
      assert ProcessSpec(fs, dg, name) == ProcessEntries(fs, dg, name, files.value, 0);
      r := ProcessDir(fs, dg, name, files.value, buf);
    } else if info == IsRegular {
      assert ProcessSpec(fs, dg, name) == ProcessFileSpec(fs, dg, name);
      r := ProcessFile(fs, dg, name, buf);
    } else {
      r := fs;
    }
  }

  /** The directory case of process: each entry in listing order. */
  method ProcessDir(fs: Fs, dg: Digests, name: string, es: seq<string>, buf: array<byte>) returns (r: Fs)
    requires Valid(fs) && name in Dirs(fs) && buf.Length == BufSize
    requires forall j :: 0 <= j < |es| ==> EntryName(es[j])
    modifies buf
    ensures r == ProcessEntries(fs, dg, name, es, 0)
    decreases Height(fs, name), 0
  {
    r := fs;
    var k := 0;
    while k < |es|
      invariant 0 <= k <= |es|
      invariant Valid(r) && Dirs(r) == Dirs(fs)
      invariant ProcessEntries(r, dg, name, es, k) == ProcessEntries(fs, dg, name, es, 0)
    {
      EntriesFirst(r, dg, name, es, k);
      HeightEntry(r, name, es[k]);
      assert Height(r, name) == Height(fs, name);
      r := Process(r, dg, Join(name, es[k]), buf);
      k := k + 1;
    }
  }

  /** Every file process creates is a sidecar. */
  lemma ProcessAddsSidecars(fs: Fs, dg: Digests, name: string)
    requires Valid(fs)
    ensures P.AddsSidecars(fs, ProcessSpec(fs, dg, name))
    decreases Height(fs, name), 1, 0
  {
    var info := Stat(fs, name);
    if info == IsDir && ReadDir(fs, name).Some? {
      var es := ReadDir(fs, name).value;
      assert ProcessSpec(fs, dg, name) == ProcessEntries(fs, dg, name, es, 0);
      EntriesAddSidecars(fs, dg, name, es, 0);
    } else if info == IsRegular {
      assert ProcessSpec(fs, dg, name) == ProcessFileSpec(fs, dg, name);
      if ProcessFileSpec(fs, dg, name) != fs {
        P.SidecarPathBase(name);
      }
    } else {
      assert ProcessSpec(fs, dg, name) == fs;
    }
  }

  lemma EntriesAddSidecars(fs: Fs, dg: Digests, dir: string, es: seq<string>, i: nat)
    requires Valid(fs) && dir in Dirs(fs) && i <= |es|
    requires forall j :: 0 <= j < |es| ==> EntryName(es[j])
    ensures P.AddsSidecars(fs, ProcessEntries(fs, dg, dir, es, i))
    decreases Height(fs, dir), 0, |es| - i
  {
    if i < |es| {
      HeightEntry(fs, dir, es[i]);
      var fs1 := ProcessSpec(fs, dg, Join(dir, es[i]));
      P.ExtendsDirs(fs, fs1);
      ProcessAddsSidecars(fs, dg, Join(dir, es[i]));
      EntriesAddSidecars(fs1, dg, dir, es, i + 1);
      P.AddsSidecarsTrans(fs, fs1, ProcessEntries(fs1, dg, dir, es, i + 1));
    }
  }

  // ---- the lagged scanner loop ----

  /** The line each iteration of `for line := s.Text(); s.Scan(); line = s.Text()` sees: the
      empty text before the first Scan, then every line but the last. */
  function Lagged(lines: seq<string>): (r: seq<string>)
    ensures |r| == |lines|
  {
    if lines == [] then [] else [""] + lines[..|lines| - 1]
  }

  lemma LaggedAt(lines: seq<string>, k: nat)
    requires k < |lines|
    ensures Lagged(lines)[k] == if k == 0 then "" else lines[k - 1]
  {
  }

  /** The lagged lines do not depend on the last line. */
  lemma LaggedDropsLast(lines: seq<string>, l: string)
    ensures Lagged(lines + [l]) == [""] + lines
  {
    assert (lines + [l])[..|lines|] == lines;
  }

  lemma BlankField()
    ensures ParseField("") == Field("", "")
  {
    assert ColonSpace("") < 0;
  }

  // ---- the sidecar check ----

  /** parse's variables. They are declared once, before the loop, and never reset. */
  datatype Vars = Vars(filename: string, size: string, md5: string, sha1: string, sha256: string)

  const NoVars := Vars("", "", "", "", "")

  /** What parse prints about a file: "missing" when its sidecar cannot be opened, "failed"
      when a sidecar line disagrees with the index. */
  datatype Report = Missing(file: string) | Failed(file: string)

  /** A sidecar line that the inner switch rejects: one of the four sum keys with a value
      other than the one the index gave. */
  predicate Mismatch(v: Vars, f: Field) {
    || (f.key == "Size" && v.size != f.value)
    || (f.key == "MD5sum" && v.md5 != f.value)
    || (f.key == "SHA1" && v.sha1 != f.value)
    || (f.key == "SHA256" && v.sha256 != f.value)
  }

  /** Some field among the first `k` is a mismatch. */
  predicate MismatchIn(v: Vars, fs: seq<Field>, k: nat)
    requires k <= |fs|
    decreases k
  {
    k > 0 && (MismatchIn(v, fs, k - 1) || Mismatch(v, fs[k - 1]))
  }

  lemma {:induction false} MismatchInIff(v: Vars, fs: seq<Field>, k: nat)
    requires k <= |fs|
    ensures MismatchIn(v, fs, k) <==> exists i :: 0 <= i < k && Mismatch(v, fs[i])
    decreases k
  {
    if k > 0 {
      MismatchInIff(v, fs, k - 1);
      if Mismatch(v, fs[k - 1]) {
        assert 0 <= k - 1 < k && Mismatch(v, fs[k - 1]);
      }
    }
  }

  lemma {:induction false} MismatchInMono(v: Vars, fs: seq<Field>, i: nat, k: nat)
    requires i <= k <= |fs| && MismatchIn(v, fs, i)
    ensures MismatchIn(v, fs, k)
    decreases k
  {
    if k > i {
      MismatchInMono(v, fs, i, k - 1);
    }
  }

  /** As written: the inner loop over the sidecar's lines `ls`, one line late, fails. */
  predicate SidecarFails(v: Vars, ls: seq<string>) {
    MismatchIn(v, Parsed(Lagged(ls)), |ls|)
  }

  /** Corrected: the inner loop reads every line of the sidecar. */
  predicate SidecarFailsFixed(v: Vars, ls: seq<string>) {
    MismatchIn(v, Parsed(ls), |ls|)
  }

  lemma LaggedField(ls: seq<string>, k: nat)
    requires k < |ls|
    ensures Parsed(Lagged(ls))[k] == if k == 0 then Field("", "") else ParseField(ls[k - 1])
  {
    LaggedAt(ls, k);
    BlankField();
  }

  lemma LaggedFieldAt(ls: seq<string>, k: nat, line: string)
    requires k < |ls| && line == if k == 0 then "" else ls[k - 1]
    ensures Parsed(Lagged(ls))[k] == ParseField(line)
  {
    LaggedAt(ls, k);
  }

  lemma LaggedMismatchDown(v: Vars, ls: seq<string>, i: nat)
    requires i < |ls| && Mismatch(v, Parsed(Lagged(ls))[i])
    ensures 0 < i && Mismatch(v, ParseField(ls[i - 1]))
  {
    LaggedField(ls, i);
  }

  lemma LaggedMismatchUp(v: Vars, ls: seq<string>, i: nat)
    requires i + 1 < |ls| && Mismatch(v, ParseField(ls[i]))
    ensures Mismatch(v, Parsed(Lagged(ls))[i + 1])
  {
    LaggedField(ls, i + 1);
  }

  /** As written, a sidecar fails exactly when a line other than its last one mismatches. */
  lemma SidecarFailsIff(v: Vars, ls: seq<string>)
    ensures SidecarFails(v, ls) <==> exists i :: 0 <= i < |ls| - 1 && Mismatch(v, ParseField(ls[i]))
  {
    var fs := Parsed(Lagged(ls));
    MismatchInIff(v, fs, |ls|);
    if SidecarFails(v, ls) {
      var i :| 0 <= i < |ls| && Mismatch(v, fs[i]);
      LaggedMismatchDown(v, ls, i);
      assert 0 <= i - 1 < |ls| - 1;
    }
    if exists i :: 0 <= i < |ls| - 1 && Mismatch(v, ParseField(ls[i])) {
      var i :| 0 <= i < |ls| - 1 && Mismatch(v, ParseField(ls[i]));
      LaggedMismatchUp(v, ls, i);
      assert 0 <= i + 1 < |ls|;
    }
  }

  /** Corrected, a sidecar fails exactly when one of its lines mismatches. */
  lemma SidecarFailsFixedIff(v: Vars, ls: seq<string>)
    ensures SidecarFailsFixed(v, ls) <==> exists i :: 0 <= i < |ls| && Mismatch(v, ParseField(ls[i]))
  {
    MismatchInIff(v, Parsed(ls), |ls|);
  }

  /** The inner loop: the sidecar's lines one line late; the first mismatch abandons the file. */
  method CheckSidecar(v: Vars, ls: seq<string>) returns (failed: bool)
    ensures failed == SidecarFails(v, ls)
  {
    ghost var fs := Parsed(Lagged(ls));
    var line := "";
    var k := 0;
    while k < |ls|
      invariant k <= |ls|
      invariant line == if k == 0 then "" else ls[k - 1]
      invariant !MismatchIn(v, fs, k)
    {
      var bad := LineMismatch(v, line);
      LaggedFieldAt(ls, k, line);
      SidecarStep(v, fs, k, bad);
      if bad {
        return true;
      }
      k := k + 1;
      line := ls[k - 1];
    }
    return false;
  }

  lemma SidecarStep(v: Vars, fs: seq<Field>, k: nat, bad: bool)
    requires k < |fs| && bad == Mismatch(v, fs[k])
    ensures bad ==> MismatchIn(v, fs, |fs|)
    ensures MismatchIn(v, fs, k + 1) == (MismatchIn(v, fs, k) || bad)
  {
    if bad {
      MismatchInMono(v, fs, k + 1, |fs|);
    }
  }

  /** The comparison the inner loop makes on one sidecar line. */
  method LineMismatch(v: Vars, line: string) returns (bad: bool)
    ensures bad == Mismatch(v, ParseField(line))
  {
    var parts := SplitColonSpace(line);
    var val := "";
    if |parts| == 2 {
      val := TrimSpace(parts[1]);
    }
    bad := || (parts[0] == "Size" && v.size != val)
           || (parts[0] == "MD5sum" && v.md5 != val)
           || (parts[0] == "SHA1" && v.sha1 != val)
           || (parts[0] == "SHA256" && v.sha256 != val);
  }

  // ---- the sidecar written here, checked ----

  /** The values processFile writes for `data`, in its line order. */
  function Written(dg: Digests, data: seq<byte>): Vars {
    Vars("", FormatUint(|data| % TwoTo64), Hex(dg.md5(data)), Hex(dg.sha1(data)), Hex(dg.sha256(data)))
  }

  /** The lines processFile writes for `data`. */
  function WrittenText(dg: Digests, data: seq<byte>): seq<string> {
    SidecarLines(|data| % TwoTo64, dg.md5(data), dg.sha1(data), dg.sha256(data))
  }

  lemma EntryPlain(key: string, value: string)
    requires G.WriterKey(key) && G.WriterValue(value)
    ensures PlainLine(P.SidecarEntry(key, value))
  {
    G.SidecarLine(key, value);
  }

  lemma WrittenPlain(dg: Digests, data: seq<byte>)
    ensures forall i :: 0 <= i < 4 ==> PlainLine(WrittenText(dg, data)[i])
  {
    var w := Written(dg, data);
    G.WriterKeys();
    G.WriterValues(dg, data);
    EntryPlain("Size", w.size);
    EntryPlain("MD5sum", w.md5);
    EntryPlain("SHA1", w.sha1);
    EntryPlain("SHA256", w.sha256);
    var ls := WrittenText(dg, data);
    assert ls == [P.SidecarEntry("Size", w.size), P.SidecarEntry("MD5sum", w.md5),
                  P.SidecarEntry("SHA1", w.sha1), P.SidecarEntry("SHA256", w.sha256)];
  }

  /** The written sidecar scans back as the lines written. */
  lemma WrittenScan(dg: Digests, data: seq<byte>)
    ensures TextLines(SidecarBytes(dg, data)) == WrittenText(dg, data)
  {
    WrittenPlain(dg, data);
    ScanJoinedLines(WrittenText(dg, data));
  }

  /** Each written line parses as its key and value. */
  lemma WrittenFields(dg: Digests, data: seq<byte>)
    ensures var w := Written(dg, data); var ls := WrittenText(dg, data);
      && ParseField(ls[0]) == Field("Size", w.size)
      && ParseField(ls[1]) == Field("MD5sum", w.md5)
      && ParseField(ls[2]) == Field("SHA1", w.sha1)
      && ParseField(ls[3]) == Field("SHA256", w.sha256)
  {
    var w := Written(dg, data);
    G.WriterKeys();
    G.WriterValues(dg, data);
    G.SidecarLine("Size", w.size);
    G.SidecarLine("MD5sum", w.md5);
    G.SidecarLine("SHA1", w.sha1);
    G.SidecarLine("SHA256", w.sha256);
  }

  /** Which of the four values a check of written line `i` can see differ. */
  lemma WrittenMismatch(dg: Digests, data: seq<byte>, v: Vars, i: nat)
    requires i < 4
    ensures var w := Written(dg, data);
      Mismatch(v, ParseField(WrittenText(dg, data)[i])) <==>
        || (i == 0 && v.size != w.size) || (i == 1 && v.md5 != w.md5)
        || (i == 2 && v.sha1 != w.sha1) || (i == 3 && v.sha256 != w.sha256)
  {
    WrittenFields(dg, data);
  }

  /** As written, the check against a sidecar written here compares the size, MD5 and SHA-1 and
      never the SHA-256 the index gives. */
  lemma WrittenSidecarSkipsSha256(dg: Digests, data: seq<byte>, v: Vars)
    ensures var w := Written(dg, data);
      SidecarFails(v, TextLines(SidecarBytes(dg, data))) <==> v.size != w.size || v.md5 != w.md5 || v.sha1 != w.sha1
  {
    var w := Written(dg, data);
    var ls := TextLines(SidecarBytes(dg, data));
    WrittenScan(dg, data);
    SidecarFailsIff(v, ls);
    if SidecarFails(v, ls) {
      var i :| 0 <= i < |ls| - 1 && Mismatch(v, ParseField(ls[i]));
      WrittenMismatch(dg, data, v, i);
    }
    if v.size != w.size || v.md5 != w.md5 || v.sha1 != w.sha1 {
      var i := if v.size != w.size then 0 else if v.md5 != w.md5 then 1 else 2;
      WrittenMismatch(dg, data, v, i);
      assert 0 <= i < |ls| - 1 && Mismatch(v, ParseField(ls[i]));
    }
  }

  /** Corrected, the same check compares all four values. */
  lemma WrittenSidecarFixed(dg: Digests, data: seq<byte>, v: Vars)
    ensures var w := Written(dg, data);
      SidecarFailsFixed(v, TextLines(SidecarBytes(dg, data))) <==>
        (v.size != w.size || v.md5 != w.md5 || v.sha1 != w.sha1 || v.sha256 != w.sha256)
  {
    var w := Written(dg, data);
    var ls := TextLines(SidecarBytes(dg, data));
    WrittenScan(dg, data);
    SidecarFailsFixedIff(v, ls);
    if SidecarFailsFixed(v, ls) {
      var i :| 0 <= i < |ls| && Mismatch(v, ParseField(ls[i]));
      WrittenMismatch(dg, data, v, i);
    }
    if v.size != w.size || v.md5 != w.md5 || v.sha1 != w.sha1 || v.sha256 != w.sha256 {
      var i := if v.size != w.size then 0 else if v.md5 != w.md5 then 1 else if v.sha1 != w.sha1 then 2 else 3;
      WrittenMismatch(dg, data, v, i);
      assert 0 <= i < |ls| && Mismatch(v, ParseField(ls[i]));
    }
  }

  // ---- parse ----

  /** The loop's state: the file system (sidecars written on the way), the variables and what
      was printed. */
  datatype State = State(fs: Fs, vars: Vars, reports: seq<Report>)

  function Init(fs: Fs): State {
    State(fs, NoVars, [])
  }

  /** The assignments of the outer switch. */
  function Assign(v: Vars, f: Field): Vars {
    match f.key
    case "Filename" => v.(filename := f.value)
    case "Size" => v.(size := f.value)
    case "MD5sum" => v.(md5 := f.value)
    case "SHA1" => v.(sha1 := f.value)
    case "SHA256" => v.(sha256 := f.value)
    case _ => v
  }

  lemma AssignSha256(v: Vars, f: Field)
    requires f.key == "SHA256"
    ensures Assign(v, f) == v.(sha256 := f.value)
  {
  }

  /** The keys the outer switch assigns, and the variable each one names. */
  predicate VarKey(key: string) {
    key == "Filename" || key == "Size" || key == "MD5sum" || key == "SHA1" || key == "SHA256"
  }

  function Var(v: Vars, key: string): string {
    match key
    case "Filename" => v.filename
    case "Size" => v.size
    case "MD5sum" => v.md5
    case "SHA1" => v.sha1
    case "SHA256" => v.sha256
    case _ => ""
  }

  /** The check a "SHA256" line triggers, with the variables `v` it has just set: write the
      sidecar if its path does not exist, then report the file missing or compare. */
  function CheckFile(dg: Digests, fixed: bool, fs: Fs, v: Vars, reports: seq<Report>): State {
    var sumName := P.SidecarPath(v.filename);
    var fs1 := if Stat(fs, sumName) == NotExist then ProcessFileSpec(fs, dg, v.filename) else fs;
    match Open(fs1, sumName)
    case None => State(fs1, v, reports + [Missing(v.filename)])
    case Some(s) =>
      var fails := if fixed then SidecarFailsFixed(v, TextLines(s.data)) else SidecarFails(v, TextLines(s.data));
      State(fs1, v, if fails then reports + [Failed(v.filename)] else reports)
  }

  /** One iteration of the outer loop on the field `f`; `fixed` selects the corrected inner loop. */
  function Step(dg: Digests, fixed: bool, st: State, f: Field): State {
    var v := Assign(st.vars, f);
    if f.key == "SHA256" then CheckFile(dg, fixed, st.fs, v, st.reports) else st.(vars := v)
  }

  /** The state after the first `k` fields. */
  function Run(dg: Digests, fixed: bool, st: State, fs: seq<Field>, k: nat): State
    requires k <= |fs|
  {
    if k == 0 then st else Step(dg, fixed, Run(dg, fixed, st, fs, k - 1), fs[k - 1])
  }

  lemma RunStep(dg: Digests, fixed: bool, st: State, fs: seq<Field>, k: nat)
    requires k < |fs|
    ensures Run(dg, fixed, st, fs, k + 1) == Step(dg, fixed, Run(dg, fixed, st, fs, k), fs[k])
  {
  }

  /** Iteration `k` of a lagged loop steps on the line it holds. */
  lemma LaggedStep(dg: Digests, st: State, lines: seq<string>, k: nat, line: string)
    requires k < |lines| && line == if k == 0 then "" else lines[k - 1]
    ensures Run(dg, false, st, Parsed(Lagged(lines)), k + 1)
      == Step(dg, false, Run(dg, false, st, Parsed(Lagged(lines)), k), ParseField(line))
  {
    LaggedField(lines, k);
    BlankField();
    RunStep(dg, false, st, Parsed(Lagged(lines)), k);
  }

  /** parse as written, over the lines of the (already opened and decompressed) index. */
  function ParseSpec(fs: Fs, dg: Digests, lines: seq<string>): State {
    Run(dg, false, Init(fs), Parsed(Lagged(lines)), |lines|)
  }

  /** parse with both loops reading every line. */
  function ParseFixedSpec(fs: Fs, dg: Digests, lines: seq<string>): State {
    Run(dg, true, Init(fs), Parsed(lines), |lines|)
  }

  method ParseLines(fs: Fs, dg: Digests, lines: seq<string>, buf: array<byte>) returns (st: State)
    requires buf.Length == BufSize
    modifies buf
    ensures st == ParseSpec(fs, dg, lines)
  {
    ghost var fields := Parsed(Lagged(lines));
    st := Init(fs);
    var line := "";
    var k := 0;
    while k < |lines|
      invariant k <= |lines|
      invariant line == if k == 0 then "" else lines[k - 1]
      invariant st == Run(dg, false, Init(fs), fields, k)
    {
      st := ParseLagged(dg, fs, lines, k, line, st, buf);
      k := k + 1;
      line := lines[k - 1];
    }
  }

  /** One iteration of the lagged loop: the line it holds is the one read before. */
  method ParseLagged(dg: Digests, fs: Fs, lines: seq<string>, k: nat, line: string, st: State, buf: array<byte>)
    returns (r: State)
    requires k < |lines| && line == (if k == 0 then "" else lines[k - 1])
    requires st == Run(dg, false, Init(fs), Parsed(Lagged(lines)), k)
    requires buf.Length == BufSize
    modifies buf
    ensures r == Run(dg, false, Init(fs), Parsed(Lagged(lines)), k + 1)
  {
    LaggedStep(dg, Init(fs), lines, k, line);
    r := ParseLine(dg, st, line, buf);
  }

  /** The body of the outer loop. */
  method ParseLine(dg: Digests, st: State, line: string, buf: array<byte>) returns (r: State)
    requires buf.Length == BufSize
    modifies buf
    ensures r == Step(dg, false, st, ParseField(line))
  {
    var parts := SplitColonSpace(line);
    var val := "";
    if |parts| == 2 {
      val := TrimSpace(parts[1]);
    }
    assert ParseField(line) == Field(parts[0], val);
    var v := st.vars;
    if parts[0] == "Filename" {
      v := v.(filename := val);
    } else if parts[0] == "Size" {
      v := v.(size := val);
    } else if parts[0] == "MD5sum" {
      v := v.(md5 := val);
    } else if parts[0] == "SHA1" {
      v := v.(sha1 := val);
    } else if parts[0] == "SHA256" {
      v := v.(sha256 := val);
      r := CheckAgainstSidecar(dg, st.fs, v, st.reports, buf);
      return;
    }
    r := st.(vars := v);
  }

  /** The "SHA256" case: write the sidecar if its path does not exist, open it, and run the
      inner loop over its lines. */
  method CheckAgainstSidecar(dg: Digests, fs: Fs, v: Vars, reports: seq<Report>, buf: array<byte>) returns (r: State)
    requires buf.Length == BufSize
    modifies buf
    ensures r == CheckFile(dg, false, fs, v, reports)
  {
    var (dirName, fileName) := Split(v.filename);
    var sumName := Join(dirName, P.SidecarName(fileName));
    var fs1 := fs;
    if Stat(fs, sumName) == NotExist {
      fs1 := ProcessFile(fs, dg, v.filename, buf);
    }
    var sumFile := Open(fs1, sumName);
    if sumFile.None? {
      return State(fs1, v, reports + [Missing(v.filename)]);
    }
    var failed := CheckSidecar(v, TextLines(sumFile.value.data));
    if failed {
      return State(fs1, v, reports + [Failed(v.filename)]);
    }
    r := State(fs1, v, reports);
  }

  // ---- properties of parse ----

  lemma StepVars(dg: Digests, fixed: bool, st: State, f: Field)
    ensures Step(dg, fixed, st, f).vars == Assign(st.vars, f)
  {
  }

  lemma AssignVar(v: Vars, f: Field, key: string)
    requires VarKey(key)
    ensures Var(Assign(v, f), key) == if f.key == key then f.value else Var(v, key)
  {
  }

  /** A variable keeps the value of the last line that assigned it, however many stanzas and
      blank lines lie between: nothing resets it. */
  lemma {:induction false} LastAssignmentWins(dg: Digests, fixed: bool, st: State, fs: seq<Field>, j: nat, k: nat, key: string)
    requires j < k <= |fs| && VarKey(key) && fs[j].key == key
    requires forall i :: j < i < k ==> fs[i].key != key
    ensures Var(Run(dg, fixed, st, fs, k).vars, key) == fs[j].value
    decreases k
  {
    RunVars(dg, fixed, st, fs, k);
    AssignedLast(st.vars, fs, j, k, key);
  }

  /** The variables after k fields: every assignment of the switch, in order. */
  function AssignAll(v: Vars, fs: seq<Field>, k: nat): Vars
    requires k <= |fs|
  {
    if k == 0 then v else Assign(AssignAll(v, fs, k - 1), fs[k - 1])
  }

  /** The variables evolve by the assignments alone, whatever the checks do. */
  lemma {:induction false} RunVars(dg: Digests, fixed: bool, st: State, fs: seq<Field>, k: nat)
    requires k <= |fs|
    ensures Run(dg, fixed, st, fs, k).vars == AssignAll(st.vars, fs, k)
  {
    if k > 0 {
      RunVars(dg, fixed, st, fs, k - 1);
      StepVars(dg, fixed, Run(dg, fixed, st, fs, k - 1), fs[k - 1]);
    }
  }

  lemma {:induction false} AssignedLast(v: Vars, fs: seq<Field>, j: nat, k: nat, key: string)
    requires j < k <= |fs| && VarKey(key) && fs[j].key == key
    requires forall i :: j < i < k ==> fs[i].key != key
    ensures Var(AssignAll(v, fs, k), key) == fs[j].value
    decreases k
  {
    AssignVar(AssignAll(v, fs, k - 1), fs[k - 1], key);
    if k > j + 1 {
      AssignedLast(v, fs, j, k - 1, key);
    }
  }

  /** Only a "SHA256" line reports anything or writes a sidecar. */
  lemma OnlySha256Checks(dg: Digests, fixed: bool, st: State, f: Field)
    requires f.key != "SHA256"
    ensures Step(dg, fixed, st, f).fs == st.fs && Step(dg, fixed, st, f).reports == st.reports
  {
  }

  /** A "SHA256" line whose sidecar cannot be opened, even after processFile, reports the
      file missing and nothing else. */
  lemma MissingSidecar(dg: Digests, fixed: bool, st: State, f: Field)
    requires f.key == "SHA256"
    requires var v := Assign(st.vars, f); Open(Step(dg, fixed, st, f).fs, P.SidecarPath(v.filename)).None?
    ensures Step(dg, fixed, st, f).reports == st.reports + [Missing(st.vars.filename)]
  {
  }

  /** The sidecar a "SHA256" line opens for a readable, non-dot file without one is the one
      processFile writes for it. */
  lemma FreshSidecar(fs: Fs, dg: Digests, name: string)
    requires !HasPrefix(Split(name).1, ".") && P.SidecarPath(name) !in fs.nodes
    requires P.SidecarPath(name) !in fs.unwritable
    requires Open(fs, name).Some? && !Open(fs, name).value.failsAtEnd
    ensures var fs1 := if Stat(fs, P.SidecarPath(name)) == NotExist then ProcessFileSpec(fs, dg, name) else fs;
      Open(fs1, P.SidecarPath(name)) == Some(Stream(SidecarBytes(dg, Open(fs, name).value.data), false))
  {
    ProcessFileWrites(fs, dg, name);
  }

  /** A readable, non-dot file without a sidecar is never reported missing; as written it is
      reported failed exactly when its size, MD5 or SHA-1 differs from the index. */
  lemma FreshFileAsWritten(dg: Digests, st: State, f: Field)
    requires f.key == "SHA256"
    requires var name := st.vars.filename;
      && !HasPrefix(Split(name).1, ".") && P.SidecarPath(name) !in st.fs.nodes
      && P.SidecarPath(name) !in st.fs.unwritable
      && Open(st.fs, name).Some? && !Open(st.fs, name).value.failsAtEnd
    ensures var name := st.vars.filename; var v := Assign(st.vars, f);
      var w := Written(dg, Open(st.fs, name).value.data);
      Step(dg, false, st, f).reports
        == st.reports + (if v.size != w.size || v.md5 != w.md5 || v.sha1 != w.sha1 then [Failed(name)] else [])
  {
    var name := st.vars.filename;
    var v := Assign(st.vars, f);
    AssignSha256(st.vars, f);
    var data := Open(st.fs, name).value.data;
    FreshSidecar(st.fs, dg, name);
    WrittenSidecarSkipsSha256(dg, data, v);
    WrittenScan(dg, data);
    assert Step(dg, false, st, f) == CheckFile(dg, false, st.fs, v, st.reports);
  }

  /** Corrected, the same file is reported failed exactly when any of its four values differs. */
  lemma FreshFileFixed(dg: Digests, st: State, f: Field)
    requires f.key == "SHA256"
    requires var name := st.vars.filename;
      && !HasPrefix(Split(name).1, ".") && P.SidecarPath(name) !in st.fs.nodes
      && P.SidecarPath(name) !in st.fs.unwritable
      && Open(st.fs, name).Some? && !Open(st.fs, name).value.failsAtEnd
    ensures var name := st.vars.filename; var v := Assign(st.vars, f);
      var w := Written(dg, Open(st.fs, name).value.data);
      Step(dg, true, st, f).reports
        == st.reports + (if v.size != w.size || v.md5 != w.md5 || v.sha1 != w.sha1 || v.sha256 != w.sha256 then [Failed(name)] else [])
  {
    var name := st.vars.filename;
    var v := Assign(st.vars, f);
    AssignSha256(st.vars, f);
    var data := Open(st.fs, name).value.data;
    FreshSidecar(st.fs, dg, name);
    WrittenSidecarFixed(dg, data, v);
    WrittenScan(dg, data);
    assert Step(dg, true, st, f) == CheckFile(dg, true, st.fs, v, st.reports);
  }

  /** As written, the last line of the index never matters. */
  lemma LastLineIgnored(fs: Fs, dg: Digests, lines: seq<string>, l1: string, l2: string)
    ensures ParseSpec(fs, dg, lines + [l1]) == ParseSpec(fs, dg, lines + [l2])
  {
    LaggedDropsLast(lines, l1);
    LaggedDropsLast(lines, l2);
  }

  lemma {:induction false} RunPrefix(dg: Digests, fixed: bool, st: State, a: seq<Field>, b: seq<Field>, k: nat)
    requires k <= |a| && k <= |b| && a[..k] == b[..k]
    ensures Run(dg, fixed, st, a, k) == Run(dg, fixed, st, b, k)
    decreases k
  {
    if k > 0 {
      assert a[..k - 1] == b[..k - 1] && a[k - 1] == b[k - 1] by {
        assert a[..k][k - 1] == b[..k][k - 1];
        assert a[..k - 1] == a[..k][..k - 1] && b[..k - 1] == b[..k][..k - 1];
      }
      RunPrefix(dg, fixed, st, a, b, k - 1);
    }
  }

  /** Corrected, the last line of the index is a step of its own, like every other. */
  lemma FixedReadsLastLine(fs: Fs, dg: Digests, lines: seq<string>, l: string)
    ensures ParseFixedSpec(fs, dg, lines + [l]) == Step(dg, true, ParseFixedSpec(fs, dg, lines), ParseField(l))
  {
    var a := Parsed(lines + [l]);
    var b := Parsed(lines);
    var n := |lines|;
    assert a[..n] == b[..n];
    assert a[n] == ParseField(l);
    RunSnoc(dg, true, Init(fs), a, b, n);
  }

  /** Running fields that extend `b` by one is running `b`, then stepping once. */
  lemma RunSnoc(dg: Digests, fixed: bool, st: State, a: seq<Field>, b: seq<Field>, n: nat)
    requires |a| == n + 1 && |b| == n && a[..n] == b[..n]
    ensures Run(dg, fixed, st, a, n + 1) == Step(dg, fixed, Run(dg, fixed, st, b, n), a[n])
  {
    RunPrefix(dg, fixed, st, a, b, n);
    RunStep(dg, fixed, st, a, n);
  }
}
