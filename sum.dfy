/**
 * sum: tallies the sizes listed in a Packages index. Each stanza's "Filename" and "Size" are
 * remembered until a blank line, which records a new file name with its size (when the size
 * is a decimal uint64) and then resets both. The record lives in a passback struct shared
 * across calls: the size strings by file name, their count and their total, both unsigned
 * 64-bit and so wrapping.
 */
module Sum {
  import opened Wrappers
  import opened GoStrings

  /** The fields of sum_passback, as a value. */
  datatype Pass = Pass(sizes: map<string, string>, count: nat, total: nat)

  /** The parsed size of a recorded file name; 0 for an unparsable or absent one. */
  function SizeOf(sizes: map<string, string>, f: string): nat {
    if f in sizes && ParseUint(sizes[f]).Some? then ParseUint(sizes[f]).value else 0
  }

  /** The sum of the sizes of the file names in `order`. */
  function Total(sizes: map<string, string>, order: seq<string>): nat
    decreases |order|
  {
    if order == [] then 0 else Total(sizes, order[..|order| - 1]) + SizeOf(sizes, order[|order| - 1])
  }

  /** `order` lists the recorded file names, as many as there are: each of them once. */
  ghost predicate IsOrder(order: seq<string>, sizes: map<string, string>) {
    (forall f :: f in order <==> f in sizes) && |order| == |sizes|
  }

  /** The passback's invariant: `count` is the number of recorded file names and `total` the
      sum of their sizes, both modulo 2^64. */
  ghost predicate Tallied(p: Pass, order: seq<string>) {
    && IsOrder(order, p.sizes)
    && p.count == |p.sizes| % TwoTo64
    && p.total == Total(p.sizes, order) % TwoTo64
  }

  /** What a blank line does with the stanza's `filename` and `size`: the new record, and
      whether the "two different sizes" warning is printed. */
  function Flush(p: Pass, filename: string, size: string): (Pass, bool) {
    if filename == "" then (p, false)
    else if filename in p.sizes then (p, size != p.sizes[filename])
    else match ParseUint(size)
      case None => (p, false)
      case Some(v) => (Pass(p.sizes[filename := size], (p.count + 1) % TwoTo64, (p.total + v) % TwoTo64), false)
  }

  /** The loop's variables besides the passback: the stanza's `filename` and `size`, and the
      file names warned about. */
  datatype SumState = SumState(pass: Pass, filename: string, size: string, warnings: seq<string>)

  function SumStep(st: SumState, line: string): SumState {
    var f := ParseField(line);
    if f.key == "Filename" then st.(filename := f.value)
    else if f.key == "Size" then st.(size := f.value)
    else if f.key == "" then
      var (p, warn) := Flush(st.pass, st.filename, st.size);
      SumState(p, "", "", if warn then st.warnings + [st.filename] else st.warnings)
    else st
  }

  function SumRun(st: SumState, lines: seq<string>, k: nat): SumState
    requires k <= |lines|
  {
    if k == 0 then st else SumStep(SumRun(st, lines, k - 1), lines[k - 1])
  }

  lemma SumRunNext(st: SumState, lines: seq<string>, k: nat)
    requires k < |lines|
    ensures SumRun(st, lines, k + 1) == SumStep(SumRun(st, lines, k), lines[k])
  {
  }

  /** sum over the lines of an index, starting from the passback `p`. */
  function SumSpec(p: Pass, lines: seq<string>): SumState {
    SumRun(SumState(p, "", "", []), lines, |lines|)
  }

  /** sum_passback, updated in place by sum. */
  class SumPassback {
    var fileSizes: map<string, string>
    var count: nat
    var total: nat
    /** The order in which the file names were recorded. */
    ghost var order: seq<string>

    function Fields(): Pass
      reads this
    {
      Pass(fileSizes, count, total)
    }

    ghost predicate Valid()
      reads this
    {
      Tallied(Fields(), order)
    }

    constructor()
      ensures Valid() && fileSizes == map[] && count == 0 && total == 0
    {
      fileSizes := map[];
      count := 0;
      total := 0;
      order := [];
    }

    /** The scan loop of sum. */
    method Sum(lines: seq<string>) returns (warnings: seq<string>)
      requires Valid()
      modifies this
      ensures Valid()
      ensures Fields() == SumSpec(old(Fields()), lines).pass
      ensures warnings == SumSpec(old(Fields()), lines).warnings
    {
      ghost var p0 := Fields();
      var filename, size := "", "";
      warnings := [];
      var k := 0;
      while k < |lines|
        invariant k <= |lines| && Valid()
        invariant SumRun(SumState(p0, "", "", []), lines, k) == SumState(Fields(), filename, size, warnings)
      {
        SumRunNext(SumState(p0, "", "", []), lines, k);
        filename, size, warnings := SumLine(lines[k], filename, size, warnings);
        k := k + 1;
      }
    }

    /** The body of the scan loop. */
    method SumLine(line: string, filename0: string, size0: string, warnings0: seq<string>)
      returns (filename: string, size: string, warnings: seq<string>)
      requires Valid()
      modifies this
      ensures Valid()
      ensures SumState(Fields(), filename, size, warnings) == SumStep(SumState(old(Fields()), filename0, size0, warnings0), line)
    {
      filename, size, warnings := filename0, size0, warnings0;
      var parts := SplitColonSpace(line);
      var val := "";
      if |parts| == 2 {
        val := TrimSpace(parts[1]);
      }
      if parts[0] == "Filename" {
        filename := val;
      } else if parts[0] == "Size" {
        size := val;
      } else if parts[0] == "" {
        if filename != "" {
          if filename in fileSizes {
            if size != fileSizes[filename] {
              warnings := warnings + [filename];
            }
          } else {
            Record(filename, size);
          }
        }
        filename, size := "", "";
      }
    }

    /** The branch for a file name not yet recorded. */
    method Record(filename: string, size: string)
      requires Valid() && filename != "" && filename !in fileSizes
      modifies this
      ensures Valid()
      ensures Pass(fileSizes, count, total) == Flush(old(Pass(fileSizes, count, total)), filename, size).0
    {
      ghost var p, o := Pass(fileSizes, count, total), order;
      var v := ParseUint(size);
      if v.Some? {
        fileSizes, total, count, order :=
          fileSizes[filename := size], (total + v.value) % TwoTo64, (count + 1) % TwoTo64, order + [filename];
        RecordTallied(p, o, filename, size, v.value, Pass(fileSizes, count, total));
      }
    }
  }

  // ---- the invariant ----

  lemma {:induction false} TotalFrame(sizes: map<string, string>, order: seq<string>, f: string, s: string)
    requires f !in order
    ensures Total(sizes[f := s], order) == Total(sizes, order)
    decreases |order|
  {
    if order != [] {
      TotalFrame(sizes, order[..|order| - 1], f, s);
    }
  }

  /** Recording a new name adds its parsed size to the total. */
  lemma TotalInsert(sizes: map<string, string>, order: seq<string>, f: string, s: string)
    requires f !in order
    ensures Total(sizes[f := s], order + [f]) == Total(sizes, order) + SizeOf(sizes[f := s], f)
  {
    assert (order + [f])[..|order|] == order;
    TotalFrame(sizes, order, f, s);
  }

  lemma CountMod(n: nat, c: nat)
    requires c == n % TwoTo64
    ensures (c + 1) % TwoTo64 == (n + 1) % TwoTo64
  {
  }

  lemma InsertOrder(order: seq<string>, sizes: map<string, string>, f: string, s: string)
    requires IsOrder(order, sizes) && f !in sizes
    ensures IsOrder(order + [f], sizes[f := s])
  {
  }

  lemma InsertTotal(order: seq<string>, sizes: map<string, string>, total: nat, f: string, s: string, v: nat)
    requires total == Total(sizes, order) % TwoTo64 && f !in order && ParseUint(s) == Some(v)
    ensures (total + v) % TwoTo64 == Total(sizes[f := s], order + [f]) % TwoTo64
  {
    var a := Total(sizes, order);
    assert Total(sizes[f := s], order + [f]) == a + v by {
      TotalInsert(sizes, order, f, s);
      assert SizeOf(sizes[f := s], f) == v;
    }
    AddMod(a, v);
  }

  /** Recording a new name with a parsed size keeps `count` and `total` in step with the
      recorded names. */
  lemma InsertTallied(p: Pass, order: seq<string>, f: string, s: string, v: nat)
    requires Tallied(p, order) && f !in p.sizes && ParseUint(s) == Some(v)
    ensures Tallied(Pass(p.sizes[f := s], (p.count + 1) % TwoTo64, (p.total + v) % TwoTo64), order + [f])
  {
    InsertOrder(order, p.sizes, f, s);
    assert |p.sizes[f := s]| == |p.sizes| + 1;
    CountMod(|p.sizes|, p.count);
    InsertTotal(order, p.sizes, p.total, f, s, v);
  }

  /** Whatever a stanza says, its blank line keeps the passback's invariant. */
  lemma FlushTallied(p: Pass, order: seq<string>, filename: string, size: string)
    requires Tallied(p, order)
    ensures var recorded := filename != "" && filename !in p.sizes && ParseUint(size).Some?;
      Tallied(Flush(p, filename, size).0, if recorded then order + [filename] else order)
  {
    if filename != "" && filename !in p.sizes && ParseUint(size).Some? {
      var v := ParseUint(size).value;
      InsertTallied(p, order, filename, size, v);
      assert Flush(p, filename, size).0 == Pass(p.sizes[filename := size], (p.count + 1) % TwoTo64, (p.total + v) % TwoTo64);
    }
  }

  /** The new passback after recording a parsed size is the blank line's record, and it keeps
      the invariant. */
  lemma RecordTallied(p: Pass, order: seq<string>, f: string, s: string, v: nat, q: Pass)
    requires Tallied(p, order) && f != "" && f !in p.sizes && ParseUint(s) == Some(v)
    requires q == Pass(p.sizes[f := s], (p.count + 1) % TwoTo64, (p.total + v) % TwoTo64)
    ensures q == Flush(p, f, s).0 && Tallied(q, order + [f])
  {
    FlushRecords(p, f, s, v);
    InsertTallied(p, order, f, s, v);
  }

  // ---- one stanza ----

  /** A stanza without a file name records nothing and warns about nothing. */
  lemma NoFilenameNoRecord(p: Pass, size: string)
    ensures Flush(p, "", size) == (p, false)
  {
  }

  /** A known file name leaves the record as it is, and warns exactly when the size differs. */
  lemma KnownFilename(p: Pass, filename: string, size: string)
    requires filename != "" && filename in p.sizes
    ensures Flush(p, filename, size).0 == p
    ensures Flush(p, filename, size).1 <==> size != p.sizes[filename]
  {
  }

  /** A new file name is recorded exactly when its size parses, adding one to the count and the
      size to the total, both modulo 2^64. */
  lemma NewFilename(p: Pass, filename: string, size: string)
    requires filename != "" && filename !in p.sizes
    ensures var q := Flush(p, filename, size).0;
      && (ParseUint(size).None? ==> q == p)
      && (ParseUint(size).Some? ==>
            && q.sizes == p.sizes[filename := size]
            && q.count == (p.count + 1) % TwoTo64
            && q.total == (p.total + ParseUint(size).value) % TwoTo64)
      && !Flush(p, filename, size).1
  {
  }

  lemma FlushRecords(p: Pass, filename: string, size: string, v: nat)
    requires filename != "" && filename !in p.sizes && ParseUint(size) == Some(v)
    ensures Flush(p, filename, size).0 == Pass(p.sizes[filename := size], (p.count + 1) % TwoTo64, (p.total + v) % TwoTo64)
  {
  }

  /** A blank line resets the stanza's file name and size. */
  lemma BlankResets(st: SumState, line: string)
    requires ParseField(line).key == ""
    ensures SumStep(st, line).filename == "" && SumStep(st, line).size == ""
  {
  }

  /** A line with any other key changes nothing. */
  lemma OtherKeyIgnored(st: SumState, line: string)
    requires ParseField(line).key !in {"Filename", "Size", ""}
    ensures SumStep(st, line) == st
  {
  }

  lemma StepKeepsRecorded(st: SumState, line: string, f: string)
    requires f in st.pass.sizes
    ensures f in SumStep(st, line).pass.sizes && SumStep(st, line).pass.sizes[f] == st.pass.sizes[f]
  {
  }

  /** `f` is recorded in `r` with size `size`. */
  predicate Keeps(r: SumState, f: string, size: string) {
    f in r.pass.sizes && r.pass.sizes[f] == size
  }

  lemma RunKeepsRecorded(st: SumState, lines: seq<string>, k: nat, f: string, size: string)
    requires 0 < k <= |lines|
    requires Keeps(SumRun(st, lines, k - 1), f, size)
    ensures Keeps(SumRun(st, lines, k), f, size)
  {
    StepKeepsRecorded(SumRun(st, lines, k - 1), lines[k - 1], f);
  }

  /** An already recorded file name keeps its first size, whatever later stanzas say. */
  lemma {:induction false} RecordedStays(st: SumState, lines: seq<string>, k: nat, f: string)
    requires k <= |lines| && f in st.pass.sizes
    ensures Keeps(SumRun(st, lines, k), f, st.pass.sizes[f])
    decreases k
  {
    if k > 0 {
      RecordedStays(st, lines, k - 1, f);
      RunKeepsRecorded(st, lines, k, f, st.pass.sizes[f]);
    }
  }
}
