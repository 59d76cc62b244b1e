/**
 * process.go: the sidecar writer. `ProcessFile` reads a file in 512 KiB chunks through two
 * alternating buffers, feeds every chunk to MD5, SHA-1, SHA-256 and SHA-512 and writes a
 * ".<name>.sum" file next to it; `Process` walks a directory tree and does this for every
 * regular file.
 */
module Process {
  import opened Wrappers
  import opened GoStrings
  import opened GoPath
  import opened FileSystem
  import opened Crypto

  /** The base name of the sidecar of a file named `file`. */
  function SidecarName(file: string): string {
    "." + file + ".sum"
  }

  /** The sidecar path of `name`: Join(dir, ".<base>.sum") where (dir, base) = Split(name). */
  function SidecarPath(name: string): string {
    Join(Split(name).0, SidecarName(Split(name).1))
  }

  lemma SidecarNameIsEntry(file: string)
    requires '/' !in file
    ensures EntryName(SidecarName(file))
    ensures HasPrefix(SidecarName(file), ".") && HasSuffix(SidecarName(file), ".sum")
  {
    var s := SidecarName(file);
    assert s[0] == '.' && s[..1] == ".";
    assert s[|s| - 4..] == ".sum";
    assert |s| >= 5;
    forall j | 0 <= j < |s| ensures s[j] != '/' {
      if 1 <= j < |s| - 4 {
        assert s[j] == file[j - 1];
      }
    }
  }

  /** A sidecar path's own base name is the sidecar name, so it starts with '.'. */
  lemma SidecarPathBase(name: string)
    ensures Split(SidecarPath(name)).1 == SidecarName(Split(name).1)
    ensures HasPrefix(Split(SidecarPath(name)).1, ".")
    ensures HasSuffix(Split(SidecarPath(name)).1, ".sum")
  {
    SplitParts(name);
    SidecarNameIsEntry(Split(name).1);
    SplitJoin(Split(name).0, SidecarName(Split(name).1));
  }

  /** One "Key: value" line of a sidecar. */
  function SidecarEntry(key: string, value: string): string {
    key + ": " + value
  }

  /** The lines of a sidecar, in the order they are written. */
  function SidecarLines(size: nat, md5: seq<byte>, sha1: seq<byte>, sha256: seq<byte>, sha512: seq<byte>): seq<string> {
    [SidecarEntry("Size", FormatUint(size)), SidecarEntry("MD5sum", Hex(md5)), SidecarEntry("SHA1", Hex(sha1)),
     SidecarEntry("SHA256", Hex(sha256)), SidecarEntry("SHA512", Hex(sha512))]
  }

  /** The content of the sidecar of a file whose reads delivered `data`: the size as a
      wrapped uint64 and the four digests in lower-case hex, one "Key: value" line each. */
  function SidecarBytes(dg: Digests, data: seq<byte>): seq<byte> {
    Utf8(JoinLines(SidecarLines(|data| % TwoTo64, dg.md5(data), dg.sha1(data), dg.sha256(data), dg.sha512(data))))
  }

  /** processFile as a function of the file system it runs on. */
  function ProcessFileSpec(fs: Fs, dg: Digests, name: string): (r: Fs)
    ensures r.unwritable == fs.unwritable
    ensures HasPrefix(Split(name).1, ".") ==> r == fs
    ensures Exists(fs, SidecarPath(name)) ==> r == fs
    ensures Open(fs, name).None? || Open(fs, name).value.failsAtEnd ==> r == fs
    ensures r != fs ==> (SidecarPath(name) !in fs.nodes &&
      r.nodes == fs.nodes[SidecarPath(name) := Regular(SidecarBytes(dg, Open(fs, name).value.data), Readable)])
  {
    var sumName := SidecarPath(name);
    if HasPrefix(Split(name).1, ".") || Exists(fs, sumName) then fs
    else match Open(fs, name)
      case None => fs
      case Some(s) =>
        if s.failsAtEnd then fs
        else match Create(fs, sumName, SidecarBytes(dg, s.data))
          case None => fs
          case Some(fs') => fs'
  }

  /** processFile: skips dot files and files whose sidecar path exists, reads the file chunk by
      chunk into alternating buffers, and writes the five-line sidecar. */
  method ProcessFile(fs: Fs, dg: Digests, name: string) returns (r: Fs)
    ensures r == ProcessFileSpec(fs, dg, name)
  {
    var (dirName, fileName) := Split(name);
    if HasPrefix(fileName, ".") {
      return fs;
    }
    var sumName := Join(dirName, SidecarName(fileName));
    if Stat(fs, sumName) != NotExist {
      return fs;
    }
    var file := Open(fs, name);
    if file.None? {
      return fs;
    }
    var s := file.value;
    var ok, hMd5, hSha1, hSha256, hSha512, total := ReadAll(s);
    if !ok {
      return fs;
    }
    var text := SidecarLines(total, dg.md5(hMd5), dg.sha1(hSha1), dg.sha256(hSha256), dg.sha512(hSha512));
    var out := Create(fs, sumName, Utf8(JoinLines(text)));
    if out.None? {
      return fs;
    }
    r := out.value;
  }

  /** The read loop of processFile: chunks alternate between two buffers, every chunk goes to
      the four hashes and its length to the wrapping uint64 total; a read error abandons the
      file. */
  method ReadAll(s: Stream) returns (ok: bool, hMd5: seq<byte>, hSha1: seq<byte>, hSha256: seq<byte>, hSha512: seq<byte>, total: nat)
    ensures ok <==> !s.failsAtEnd
    ensures ok ==> hMd5 == s.data && hSha1 == s.data && hSha256 == s.data && hSha512 == s.data
    ensures ok ==> total == |s.data| % TwoTo64
  {
    var buf0 := new byte[BufSize];
    var buf1 := new byte[BufSize];
    hMd5, hSha1, hSha256, hSha512 := [], [], [], [];
    total := 0;
    var i := 0;
    var pos: nat := 0;
    ghost var chunks: nat := 0;
    while true
      invariant pos <= |s.data|
      invariant hMd5 == s.data[..pos] && hSha1 == s.data[..pos]
      invariant hSha256 == s.data[..pos] && hSha512 == s.data[..pos]
      invariant total == pos % TwoTo64
      invariant i == chunks % 2
      decreases |s.data| - pos
    {
      var buf := if i == 0 then buf0 else buf1;
      var res := Read(s, pos, buf);
      if res == Eof {
        break;
      }
      if res == ReadError {
        return false, hMd5, hSha1, hSha256, hSha512, total;
      }
      var n := res.n;
      var toWrite := buf[..n];
      assert s.data[..pos + n] == s.data[..pos] + toWrite;
      hMd5 := hMd5 + toWrite;
      hSha1 := hSha1 + toWrite;
      hSha256 := hSha256 + toWrite;
      hSha512 := hSha512 + toWrite;
      AddMod(pos, n);
      total := (total + n) % TwoTo64;
      pos := pos + n;
      i := 1 - i;
      chunks := chunks + 1;
    }
    assert s.data[..pos] == s.data;
    ok := true;
  }

  /** A sidecar is never given a sidecar of its own. */
  lemma SidecarNotProcessed(fs: Fs, dg: Digests, name: string)
    ensures ProcessFileSpec(fs, dg, SidecarPath(name)) == fs
  {
    SidecarPathBase(name);
  }

  /** Write-once: a second call changes nothing. */
  lemma ProcessFileTwice(fs: Fs, dg: Digests, name: string)
    ensures ProcessFileSpec(ProcessFileSpec(fs, dg, name), dg, name) == ProcessFileSpec(fs, dg, name)
  {
  }

  /** A readable, non-dot file whose sidecar path is absent and writable gets its sidecar. */
  lemma ProcessFileWrites(fs: Fs, dg: Digests, name: string)
    requires !HasPrefix(Split(name).1, ".") && SidecarPath(name) !in fs.nodes
    requires SidecarPath(name) !in fs.unwritable
    requires Open(fs, name).Some? && !Open(fs, name).value.failsAtEnd
    ensures ProcessFileSpec(fs, dg, name).nodes
      == fs.nodes[SidecarPath(name) := Regular(SidecarBytes(dg, Open(fs, name).value.data), Readable)]
  {
  }

  /** `r` is `fs` with regular files added: nothing that existed changes or disappears. */
  predicate Extends(fs: Fs, r: Fs) {
    && r.unwritable == fs.unwritable
    && (forall p :: p in fs.nodes ==> p in r.nodes && r.nodes[p] == fs.nodes[p])
    && (forall p :: p in r.nodes && p !in fs.nodes ==> r.nodes[p].Regular?)
  }

  /** A base name of the sidecar form ".<name>.sum". */
  predicate SidecarForm(base: string) {
    HasPrefix(base, ".") && HasSuffix(base, ".sum")
  }

  /** Every path present in `r` but not in `fs` is a sidecar. */
  predicate AddsSidecars(fs: Fs, r: Fs) {
    forall p :: p in r.nodes && p !in fs.nodes ==> SidecarForm(Split(p).1)
  }

  lemma ExtendsTrans(a: Fs, b: Fs, c: Fs)
    requires Extends(a, b) && Extends(b, c)
    ensures Extends(a, c)
  {
  }

  lemma ExtendsDirs(fs: Fs, r: Fs)
    requires Valid(fs) && Extends(fs, r)
    ensures Dirs(r) == Dirs(fs) && Valid(r)
  {
    forall p | p in Dirs(r) ensures p in Dirs(fs) {
    }
  }

  lemma ProcessFileExtends(fs: Fs, dg: Digests, name: string)
    requires Valid(fs)
    ensures Extends(fs, ProcessFileSpec(fs, dg, name)) && Valid(ProcessFileSpec(fs, dg, name))
  {
    var r := ProcessFileSpec(fs, dg, name);
    ExtendsDirs(fs, r);
  }

  lemma ProcessFileAddsSidecar(fs: Fs, dg: Digests, name: string)
    ensures AddsSidecars(fs, ProcessFileSpec(fs, dg, name))
  {
    if ProcessFileSpec(fs, dg, name) != fs {
      SidecarPathBase(name);
    }
  }

  /** process: a directory is walked entry by entry, a regular file gets processFile, anything
      else (and any stat or listing error) is ignored. */
  function ProcessSpec(fs: Fs, dg: Digests, name: string): (r: Fs)
    requires Valid(fs)
    ensures Extends(fs, r) && Valid(r)
    decreases Height(fs, name), 1, 0
  {
    match Stat(fs, name)
    case IsDir =>
      (match ReadDir(fs, name)
       case None => fs
       case Some(es) => ProcessEntries(fs, dg, name, es, 0))
    case IsRegular =>
      ProcessFileExtends(fs, dg, name);
      ProcessFileSpec(fs, dg, name)
    case _ => fs
  }

  /** The loop over the entries `es[i..]` of `dir`. */
  function ProcessEntries(fs: Fs, dg: Digests, dir: string, es: seq<string>, i: nat): (r: Fs)
    requires Valid(fs) && dir in Dirs(fs) && i <= |es|
    requires forall j :: 0 <= j < |es| ==> EntryName(es[j])
    ensures Extends(fs, r) && Valid(r)
    decreases Height(fs, dir), 0, |es| - i
  {
    if i == |es| then fs
    else
      HeightEntry(fs, dir, es[i]);
      var fs1 := ProcessSpec(fs, dg, Join(dir, es[i]));
      ExtendsDirs(fs, fs1);
      var r := ProcessEntries(fs1, dg, dir, es, i + 1);
      ExtendsTrans(fs, fs1, r);
      r
  }

  method Process(fs: Fs, dg: Digests, name: string) returns (r: Fs)
    requires Valid(fs)
    ensures r == ProcessSpec(fs, dg, name)
    decreases Height(fs, name), 1
  {
    var info := Stat(fs, name);
    if info == IsDir {
      var files := ReadDir(fs, name);
      if files.None? {
        return fs;
      }
      assert name in Dirs(fs);
      assert ProcessSpec(fs, dg, name) == ProcessEntries(fs, dg, name, files.value, 0);
      r := ProcessDir(fs, dg, name, files.value);
    } else if info == IsRegular {
      assert ProcessSpec(fs, dg, name) == ProcessFileSpec(fs, dg, name);
      r := ProcessFile(fs, dg, name);
    } else {
      r := fs;
    }
  }

  /** The directory case of process: each entry in listing order. */
  method ProcessDir(fs: Fs, dg: Digests, name: string, es: seq<string>) returns (r: Fs)
    requires Valid(fs) && name in Dirs(fs)
    requires forall j :: 0 <= j < |es| ==> EntryName(es[j])
    ensures r == ProcessEntries(fs, dg, name, es, 0)
    decreases Height(fs, name), 0
  {
    r := fs;
    var k := 0;
    while k < |es|
      invariant 0 <= k <= |es|
      invariant Valid(r) && Dirs(r) == Dirs(fs)
      invariant ProcessEntries(r, dg, name, es, k) == ProcessEntries(fs, dg, name, es, 0)
    {
      EntriesFirst(r, dg, name, es, k);
      HeightEntry(r, name, es[k]);
      assert Height(r, name) == Height(fs, name);
      r := Process(r, dg, Join(name, es[k]));
      k := k + 1;
    }
  }

  /** Nothing outside a directory or a regular file is touched. */
  lemma ProcessIgnoresOthers(fs: Fs, dg: Digests, name: string)
    requires Valid(fs) && Stat(fs, name) != IsDir && Stat(fs, name) != IsRegular
    ensures ProcessSpec(fs, dg, name) == fs
  {
  }

  lemma AddsSidecarsTrans(a: Fs, b: Fs, c: Fs)
    requires Extends(a, b) && AddsSidecars(a, b) && AddsSidecars(b, c)
    ensures AddsSidecars(a, c)
  {
  }

  /** Every file process creates is a sidecar. */
  lemma ProcessAddsSidecars(fs: Fs, dg: Digests, name: string)
    requires Valid(fs)
    ensures AddsSidecars(fs, ProcessSpec(fs, dg, name))
    decreases Height(fs, name), 1, 0
  {
    var info := Stat(fs, name);
    if info == IsDir && ReadDir(fs, name).Some? {
      var es := ReadDir(fs, name).value;
      assert ProcessSpec(fs, dg, name) == ProcessEntries(fs, dg, name, es, 0);
      EntriesAddSidecars(fs, dg, name, es, 0);
    } else if info == IsRegular {
      assert ProcessSpec(fs, dg, name) == ProcessFileSpec(fs, dg, name);
      ProcessFileAddsSidecar(fs, dg, name);
    } else {
      assert ProcessSpec(fs, dg, name) == fs;
    }
  }

  lemma EntriesAddSidecars(fs: Fs, dg: Digests, dir: string, es: seq<string>, i: nat)
    requires Valid(fs) && dir in Dirs(fs) && i <= |es|
    requires forall j :: 0 <= j < |es| ==> EntryName(es[j])
    ensures AddsSidecars(fs, ProcessEntries(fs, dg, dir, es, i))
    decreases Height(fs, dir), 0, |es| - i
  {
    if i < |es| {
      HeightEntry(fs, dir, es[i]);
      var fs1 := ProcessSpec(fs, dg, Join(dir, es[i]));
      ExtendsDirs(fs, fs1);
      ProcessAddsSidecars(fs, dg, Join(dir, es[i]));
      EntriesAddSidecars(fs1, dg, dir, es, i + 1);
      AddsSidecarsTrans(fs, fs1, ProcessEntries(fs1, dg, dir, es, i + 1));
    }
  }

  /** A file that processFile would give a sidecar, in every file system `process` passes
      through on the way. */
  predicate WantsSidecar(fs: Fs, f: string) {
    && !HasPrefix(Split(f).1, ".")
    && Stat(fs, f) == IsRegular && Open(fs, f).Some? && !Open(fs, f).value.failsAtEnd
    && SidecarPath(f) !in fs.unwritable && SidecarPath(f) !in Dirs(fs)
  }

  lemma WantsSidecarStable(fs: Fs, r: Fs, f: string)
    requires Extends(fs, r) && Dirs(r) == Dirs(fs) && WantsSidecar(fs, f)
    ensures WantsSidecar(r, f)
  {
    assert Stat(r, f) == Stat(fs, f);
    assert Open(r, f) == Open(fs, f);
  }

  /** A file processFile would give a sidecar gets one. */
  lemma WantsSidecarWritten(fs: Fs, dg: Digests, f: string)
    requires Valid(fs) && WantsSidecar(fs, f)
    ensures Exists(ProcessSpec(fs, dg, f), SidecarPath(f))
  {
    assert ProcessSpec(fs, dg, f) == ProcessFileSpec(fs, dg, f);
  }

  lemma EntriesFirst(fs: Fs, dg: Digests, dir: string, es: seq<string>, i: nat)
    requires Valid(fs) && dir in Dirs(fs) && i < |es|
    requires forall j :: 0 <= j < |es| ==> EntryName(es[j])
    ensures Valid(ProcessSpec(fs, dg, Join(dir, es[i])))
    ensures Dirs(ProcessSpec(fs, dg, Join(dir, es[i]))) == Dirs(fs)
    ensures ProcessEntries(fs, dg, dir, es, i) == ProcessEntries(ProcessSpec(fs, dg, Join(dir, es[i])), dg, dir, es, i + 1)
  {
    ExtendsDirs(fs, ProcessSpec(fs, dg, Join(dir, es[i])));
  }

  lemma ExistsKept(fs: Fs, r: Fs, p: string)
    requires Extends(fs, r) && Exists(fs, p)
    ensures Exists(r, p)
  {
  }

  lemma {:induction false} EntriesCover(fs: Fs, dg: Digests, dir: string, es: seq<string>, i: nat, k: nat)
    requires Valid(fs) && dir in Dirs(fs)
    requires forall j :: 0 <= j < |es| ==> EntryName(es[j])
    requires i <= k < |es| && WantsSidecar(fs, Join(dir, es[k]))
    ensures Exists(ProcessEntries(fs, dg, dir, es, i), SidecarPath(Join(dir, es[k])))
    decreases |es| - i
  {
    var fs1 := ProcessSpec(fs, dg, Join(dir, es[i]));
    EntriesFirst(fs, dg, dir, es, i);
    if k == i {
      WantsSidecarWritten(fs, dg, Join(dir, es[i]));
      ExistsKept(fs1, ProcessEntries(fs1, dg, dir, es, i + 1), SidecarPath(Join(dir, es[i])));
    } else {
      WantsSidecarStable(fs, fs1, Join(dir, es[k]));
      EntriesCover(fs1, dg, dir, es, i + 1, k);
    }
  }

  /** After process(dir), every readable, non-dot regular entry whose sidecar can be created
      has a sidecar. */
  lemma ProcessCoversEntries(fs: Fs, dg: Digests, dir: string, e: string)
    requires Valid(fs) && ReadDir(fs, dir).Some? && e in ReadDir(fs, dir).value
    requires WantsSidecar(fs, Join(dir, e))
    ensures Exists(ProcessSpec(fs, dg, dir), SidecarPath(Join(dir, e)))
  {
    var es := ReadDir(fs, dir).value;
    ListedDir(fs, dg, dir);
    var k :| 0 <= k < |es| && es[k] == e;
    EntriesCover(fs, dg, dir, es, 0, k);
  }

  /** process on a listable directory is the loop over its entries. */
  lemma ListedDir(fs: Fs, dg: Digests, dir: string)
    requires Valid(fs) && ReadDir(fs, dir).Some?
    ensures dir in Dirs(fs) && forall j :: 0 <= j < |ReadDir(fs, dir).value| ==> EntryName(ReadDir(fs, dir).value[j])
    ensures ProcessSpec(fs, dg, dir) == ProcessEntries(fs, dg, dir, ReadDir(fs, dir).value, 0)
  {
    assert dir in Dirs(fs) && Stat(fs, dir) == IsDir;
  }
}
