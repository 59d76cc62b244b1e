/**
 * The part of the operating system the checker touches: stat, open-and-read, directory
 * listing and create. The file system is a value that operations take and return, keyed by
 * the exact path string the program passes (no symbolic links, no kernel-side path
 * resolution).
 */
module FileSystem {
  import opened Wrappers
  import opened GoStrings
  import opened GoPath

  /** What opening and reading a regular file does. */
  datatype Access =
    | Readable     // open succeeds, reads deliver the content, then end of file
    | Unopenable   // open fails (permission denied, ...)
    | ReadFails    // open succeeds, reads deliver the content, then an I/O error

  datatype Node =
    | Regular(content: seq<byte>, access: Access)
    | Directory(entries: seq<string>, listable: bool)
    | Special      // a device, FIFO or socket: neither a directory nor a regular file
    | Unstatable   // stat fails with an error other than "does not exist"

  /** `unwritable` names the paths where os.Create fails. */
  datatype Fs = Fs(nodes: map<string, Node>, unwritable: set<string>)

  /** The outcome of os.Stat as the program inspects it. */
  datatype FileInfo = NotExist | StatError | IsDir | IsRegular | IsOther

  function Stat(fs: Fs, p: string): FileInfo {
    if p !in fs.nodes then NotExist
    else match fs.nodes[p]
      case Regular(_, _) => IsRegular
      case Directory(_, _) => IsDir
      case Special => IsOther
      case Unstatable => StatError
  }

  /** `!os.IsNotExist(err)` after os.Stat: true for every outcome except "does not exist". */
  predicate Exists(fs: Fs, p: string) {
    Stat(fs, p) != NotExist
  }

  /** An opened file: the bytes its reads deliver, and whether the read after them reports an
      error instead of end of file. */
  datatype Stream = Stream(data: seq<byte>, failsAtEnd: bool)

  /** os.OpenFile(p, O_RDONLY): a directory opens, but reading it fails at once. */
  function Open(fs: Fs, p: string): Option<Stream> {
    if p !in fs.nodes then None
    else match fs.nodes[p]
      case Regular(c, Readable) => Some(Stream(c, false))
      case Regular(c, ReadFails) => Some(Stream(c, true))
      case Regular(_, Unopenable) => None
      case Directory(_, _) => Some(Stream([], true))
      case Special => None
      case Unstatable => None
  }

  /** Go's `<` on strings: byte-wise lexicographic order, a proper prefix first. On the UTF-8
      encodings of two strings this is the order of their code points. */
  predicate NameLess(a: string, b: string)
    decreases |a|
  {
    |b| > 0 && (|a| == 0 || a[0] < b[0] || (a[0] == b[0] && NameLess(a[1..], b[1..])))
  }

  /** Names in strictly increasing order. */
  predicate SortedNames(es: seq<string>) {
    forall i, j :: 0 <= i < j < |es| ==> NameLess(es[i], es[j])
  }

  /** ioutil.ReadDir: the entry names of a listable directory, sorted by name. */
  function ReadDir(fs: Fs, p: string): (r: Option<seq<string>>)
    ensures r.Some? <==> p in fs.nodes && fs.nodes[p].Directory? && fs.nodes[p].listable
    ensures r.Some? && Valid(fs) ==> SortedNames(r.value)
  {
    if p in fs.nodes && fs.nodes[p].Directory? && fs.nodes[p].listable then Some(fs.nodes[p].entries)
    else None
  }

  function Dirs(fs: Fs): set<string> {
    set p | p in fs.nodes && fs.nodes[p].Directory?
  }

  /** os.Create followed by writes of `data`: fails on an unwritable path and on a directory. */
  function Create(fs: Fs, p: string, data: seq<byte>): (r: Option<Fs>)
    ensures r.Some? <==> p !in fs.unwritable && p !in Dirs(fs)
    ensures r.Some? ==> r.value.nodes == fs.nodes[p := Regular(data, Readable)]
    ensures r.Some? ==> r.value.unwritable == fs.unwritable && Dirs(r.value) == Dirs(fs)
  {
    if p in fs.unwritable || (p in fs.nodes && fs.nodes[p].Directory?) then None
    else Some(Fs(fs.nodes[p := Regular(data, Readable)], fs.unwritable))
  }

  /** The size of the buffer each os.File.Read fills. */
  const BufSize: nat := 512 * 1024

  datatype ReadResult = Data(n: nat) | Eof | ReadError

  /** os.File.Read into `buf` at file offset `pos`: as many bytes as fit, then end of file or
      the stream's error. */
  method Read(s: Stream, pos: nat, buf: array<byte>) returns (r: ReadResult)
    requires pos <= |s.data| && buf.Length > 0
    modifies buf
    ensures pos == |s.data| ==> r == (if s.failsAtEnd then ReadError else Eof)
    ensures pos < |s.data| ==> r.Data? && 0 < r.n <= buf.Length && pos + r.n <= |s.data|
    ensures pos < |s.data| ==> r.n == buf.Length || pos + r.n == |s.data|
    ensures r.Data? ==> buf[..r.n] == s.data[pos..pos + r.n]
  {
    if pos == |s.data| {
      return if s.failsAtEnd then ReadError else Eof;
    }
    var n := if |s.data| - pos < buf.Length then |s.data| - pos else buf.Length;
    forall k | 0 <= k < n {
      buf[k] := s.data[pos + k];
    }
    r := Data(n);
  }

  /** Directory entries are plain names, as the operating system lists them, and are kept in
      the order ioutil.ReadDir returns them: sorted by name. */
  predicate Valid(fs: Fs) {
    forall p :: p in fs.nodes && fs.nodes[p].Directory? ==>
      && (forall i :: 0 <= i < |fs.nodes[p].entries| ==> EntryName(fs.nodes[p].entries[i]))
      && SortedNames(fs.nodes[p].entries)
  }

  /** NameLess is a strict order: no name comes before itself ... */
  lemma {:induction false} NameLessIrreflexive(a: string)
    ensures !NameLess(a, a)
    decreases |a|
  {
    if |a| > 0 {
      assert a[1..] == a[1..];
      NameLessIrreflexive(a[1..]);
    }
  }

  /** ... and so a listing of a directory names each entry once. */
  lemma ReadDirDistinct(fs: Fs, p: string)
    requires Valid(fs) && ReadDir(fs, p).Some?
    ensures forall i, j :: 0 <= i < j < |ReadDir(fs, p).value| ==> ReadDir(fs, p).value[i] != ReadDir(fs, p).value[j]
  {
    var es := ReadDir(fs, p).value;
    forall i, j | 0 <= i < j < |es|
      ensures es[i] != es[j]
    {
      NameLessIrreflexive(es[i]);
    }
  }

  ghost function MaxNat(s: set<nat>): (r: nat)
    ensures forall x :: x in s ==> x <= r
  {
    if s == {} then 0
    else
      var x :| x in s;
      var rest := MaxNat(s - {x});
      assert forall y :: y in s ==> y == x || y in s - {x};
      if x > rest then x else rest
  }

  /** The depth of the deepest directory: recursion into directories cannot go below it. */
  ghost function MaxDepth(ds: set<string>): (r: nat)
    ensures forall p :: p in ds ==> Depth(p) <= r
  {
    var depths := set p | p in ds :: Depth(p);
    assert forall p :: p in ds ==> Depth(p) in depths;
    MaxNat(depths)
  }

  /** A measure that strictly decreases from a directory to each of its entries. */
  ghost function Height(fs: Fs, p: string): nat {
    if p in Dirs(fs) then MaxDepth(Dirs(fs)) + 1 - Depth(p) else 0
  }

  lemma HeightEntry(fs: Fs, dir: string, e: string)
    requires dir in Dirs(fs) && EntryName(e)
    ensures Height(fs, Join(dir, e)) < Height(fs, dir)
  {
    DepthJoin(dir, e);
  }
}
