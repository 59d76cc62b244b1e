/**
 * The reconciliation loop shared by parse and verify: every expected "key: value" pair of a
 * file is compared with the file's sidecar map, matching keys are deleted from the expected
 * map while it is being ranged over, and any mismatch marks the run as failed.
 */
module Compare {
  import opened Wrappers
  import opened FileSystem
  import opened Crypto
  import opened Process
  import opened GetSum

  /** What a run reports besides its error value. */
  datatype Event =
    | Missing(path: string)                          // "missing <path>"
    | Checked(path: string, failed: set<string>)     // the keys printed as "Failed_<key> <path>"

  /** The expected entries that the sidecar does not confirm. */
  function Mismatches(sums: map<string, string>, file: Option<map<string, string>>): (r: map<string, string>)
    ensures forall k :: k in r <==> k in sums && Lookup(file, k) != sums[k]
    ensures forall k :: k in r ==> r[k] == sums[k]
  {
    map k | k in sums && Lookup(file, k) != sums[k] :: sums[k]
  }

  /** `for k, v := range sums { if file_sums[k] != v { report; fail; continue }; delete(sums, k) }`.
      Go visits every key exactly once, in an order it does not specify; here the order is
      any choice. Deleting the key being visited does not disturb the iteration. */
  method CompareSums(sums: map<string, string>, file: Option<map<string, string>>)
    returns (remaining: map<string, string>, failed: bool, report: seq<string>)
    ensures remaining == Mismatches(sums, file)
    ensures failed <==> remaining != map[]
    ensures forall k :: k in report <==> k in remaining
    ensures forall i, j :: 0 <= i < j < |report| ==> report[i] != report[j]
  {
    remaining := sums;
    failed := false;
    report := [];
    var todo := sums.Keys;
    while todo != {}
      invariant todo <= sums.Keys
      invariant forall k :: k in remaining <==> k in sums && (k in todo || Lookup(file, k) != sums[k])
      invariant forall k :: k in remaining ==> remaining[k] == sums[k]
      invariant failed <==> exists k :: k in remaining && k !in todo
      invariant forall k :: k in report <==> k in remaining && k !in todo
      invariant forall i, j :: 0 <= i < j < |report| ==> report[i] != report[j]
      decreases |todo|
    {
      var k :| k in todo;
      if Lookup(file, k) != remaining[k] {
        report := report + [k];
        failed := true;
      } else {
        remaining := remaining - {k};
      }
      todo := todo - {k};
    }
    assert forall k :: k in remaining <==> k in Mismatches(sums, file);
  }

  /** A sidecar that cannot be opened confirms nothing: every non-empty expected value stays. */
  lemma NilSidecarMismatches(sums: map<string, string>)
    ensures forall k :: k in Mismatches(sums, None) <==> k in sums && sums[k] != ""
  {
  }

  /** A sidecar holding every expected pair clears the map. */
  lemma MatchingSidecarClears(sums: map<string, string>, m: map<string, string>)
    requires forall k :: k in sums ==> k in m && m[k] == sums[k]
    ensures Mismatches(sums, Some(m)) == map[]
  {
    assert forall k :: k !in Mismatches(sums, Some(m));
  }

  /** Comparing what is left against the same sidecar removes nothing more. */
  lemma MismatchesIdempotent(sums: map<string, string>, file: Option<map<string, string>>)
    ensures Mismatches(Mismatches(sums, file), file) == Mismatches(sums, file)
  {
  }

  /** Only expected entries are ever kept, and a kept entry keeps its expected value. */
  lemma MismatchesShrink(sums: map<string, string>, file: Option<map<string, string>>)
    ensures Mismatches(sums, file).Keys <= sums.Keys
    ensures Mismatches(sums, file) == map[] <==> forall k :: k in sums ==> Lookup(file, k) == sums[k]
  {
    if Mismatches(sums, file) == map[] {
      forall k | k in sums ensures Lookup(file, k) == sums[k] {
        assert k !in Mismatches(sums, file);
      }
    } else {
      var k :| k in Mismatches(sums, file);
      assert k in sums && Lookup(file, k) != sums[k];
    }
  }

  /** getSums on `path` followed by the compare loop: the file system after the sidecar may have
      been written, and the expected entries left over. */
  function CheckFile(fs: Fs, dg: Digests, path: string, sums: map<string, string>): (Fs, map<string, string>) {
    (GetSumsSpec(fs, dg, path).0, Mismatches(sums, GetSumsSpec(fs, dg, path).1))
  }

  method Check(fs: Fs, dg: Digests, path: string, sums: map<string, string>)
    returns (fs1: Fs, remaining: map<string, string>, failed: bool, report: seq<string>)
    ensures (fs1, remaining) == CheckFile(fs, dg, path, sums)
    ensures failed <==> remaining != map[]
    ensures (set k | k in report) == remaining.Keys
  {
    var fileSums;
    fs1, fileSums := GetSums(fs, dg, path);
    remaining, failed, report := CompareSums(sums, fileSums);
  }

  /** Checking the same file twice: the second check writes nothing and removes nothing more. */
  lemma CheckTwice(fs: Fs, dg: Digests, path: string, sums: map<string, string>)
    ensures var (fs1, rem) := CheckFile(fs, dg, path, sums);
      CheckFile(fs1, dg, path, rem) == (fs1, rem)
  {
    GetSumsTwice(fs, dg, path);
    MismatchesIdempotent(sums, GetSumsSpec(fs, dg, path).1);
  }

  /** A check only ever adds sidecars. */
  lemma CheckExtends(fs: Fs, dg: Digests, path: string, sums: map<string, string>)
    ensures Extends(fs, CheckFile(fs, dg, path, sums).0)
  {
    var r := CheckFile(fs, dg, path, sums).0;
    if r != fs {
      assert r == ProcessFileSpec(fs, dg, path);
    }
  }
}
