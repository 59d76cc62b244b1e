/**
 * parse: the Packages-index checker. Each "Key: value" line of a stanza updates the current
 * file name or the expected sums; a line whose key is empty (a blank line) checks the current
 * file against its sidecar. Neither the file name nor the sums are reset between stanzas.
 */
module Parse {
  import opened Wrappers
  import opened GoStrings
  import opened FileSystem
  import opened Crypto
  import opened Process
  import opened GetSum
  import opened Compare

  /** The keys whose values are expected sums. */
  predicate SumKey(k: string) {
    k == "Size" || k == "MD5sum" || k == "SHA1" || k == "SHA256" || k == "SHA512"
  }

  /** The loop's variables: `filename`, `sums` and the named result `err` (here: whether it is
      "failed verification"), together with the file system and what was reported. */
  datatype State = State(fs: Fs, filename: string, sums: map<string, string>, failed: bool, events: seq<Event>)

  function Init(fs: Fs): State {
    State(fs, "", map[], false, [])
  }

  /** One iteration of the scanner loop. */
  function Step(dg: Digests, st: State, line: string): State {
    var f := ParseField(line);
    if f.key == "Filename" then st.(filename := f.value)
    else if SumKey(f.key) then st.(sums := st.sums[f.key := f.value])
    else if f.key != "" || st.filename == "" then st
    else if !Exists(st.fs, st.filename) then st.(events := st.events + [Missing(st.filename)])
    else
      var (fs1, rem) := CheckFile(st.fs, dg, st.filename, st.sums);
      State(fs1, st.filename, rem, st.failed || rem != map[], st.events + [Checked(st.filename, rem.Keys)])
  }

  /** The state after the first `k` lines. */
  function Run(dg: Digests, st: State, lines: seq<string>, k: nat): State
    requires k <= |lines|
  {
    if k == 0 then st else Step(dg, Run(dg, st, lines, k - 1), lines[k - 1])
  }

  function ParseSpec(fs: Fs, dg: Digests, lines: seq<string>): State {
    Run(dg, Init(fs), lines, |lines|)
  }

  /** parse over the lines of the (already opened and decompressed) index: its result is the
      file system (sidecars written on the way), the error and the reports of the final state. */
  method ParseLines(fs: Fs, dg: Digests, lines: seq<string>) returns (st: State)
    ensures st == ParseSpec(fs, dg, lines)
  {
    st := Init(fs);
    var k := 0;
    while k < |lines|
      invariant k <= |lines| && st == Run(dg, Init(fs), lines, k)
    {
      st := ParseLine(dg, st, lines[k]);
      k := k + 1;
    }
  }

  /** The body of the scanner loop. */
  method ParseLine(dg: Digests, st: State, line: string) returns (r: State)
    ensures r == Step(dg, st, line)
  {
    var State(fs, filename, sums, failed, events) := st;
    var parts := SplitColonSpace(line);
    var val := "";
    if |parts| == 2 {
      val := TrimSpace(parts[1]);
    }
    if parts[0] == "Filename" {
      filename := val;
    } else if parts[0] == "Size" || parts[0] == "MD5sum" || parts[0] == "SHA1" || parts[0] == "SHA256" || parts[0] == "SHA512" {
      sums := sums[parts[0] := val];
    } else if parts[0] == "" {
      if filename != "" {
        if Stat(fs, filename) == NotExist {
          events := events + [Missing(filename)];
          return State(fs, filename, sums, failed, events);
        }
        var mismatch, report;
        fs, sums, mismatch, report := Check(fs, dg, filename, sums);
        if mismatch {
          failed := true;
        }
        events := events + [Checked(filename, set k | k in report)];
      }
    }
    r := State(fs, filename, sums, failed, events);
  }

  // ---- one line ----

  /** A line with any other key changes nothing. */
  lemma OtherKeyIgnored(dg: Digests, st: State, line: string)
    requires ParseField(line).key != "Filename" && !SumKey(ParseField(line).key) && ParseField(line).key != ""
    ensures Step(dg, st, line) == st
  {
  }

  /** "Filename: f" sets the file name and nothing else; a sum key sets that expected sum,
      trimmed, and nothing else. */
  lemma KeyLines(dg: Digests, st: State, key: string, value: string)
    requires ':' !in key
    ensures key == "Filename" ==> Step(dg, st, key + ": " + value) == st.(filename := TrimSpace(value))
    ensures SumKey(key) ==> Step(dg, st, key + ": " + value) == st.(sums := st.sums[key := TrimSpace(value)])
  {
    SplitKeyValue(key, value);
  }

  /** A blank line with no file name does nothing. */
  lemma BlankWithoutFilename(dg: Digests, st: State, line: string)
    requires ParseField(line).key == "" && st.filename == ""
    ensures Step(dg, st, line) == st
  {
  }

  /** A missing file is reported, and leaves the sums, the error and the file system alone. */
  lemma MissingFile(dg: Digests, st: State, line: string)
    requires ParseField(line).key == "" && st.filename != "" && !Exists(st.fs, st.filename)
    ensures Step(dg, st, line) == st.(events := st.events + [Missing(st.filename)])
  {
  }

  /** After a check exactly the entries the sidecar confirms are gone, and the error is set
      iff it was already set or some entry mismatched. */
  lemma CheckedFile(dg: Digests, st: State, line: string)
    requires ParseField(line).key == "" && st.filename != "" && Exists(st.fs, st.filename)
    ensures var r := Step(dg, st, line); var file := GetSumsSpec(st.fs, dg, st.filename).1;
      && r.filename == st.filename
      && r.sums.Keys <= st.sums.Keys
      && (forall k :: k in r.sums <==> k in st.sums && Lookup(file, k) != st.sums[k])
      && (forall k :: k in r.sums ==> r.sums[k] == st.sums[k])
      && (r.failed <==> st.failed || exists k :: k in st.sums && Lookup(file, k) != st.sums[k])
  {
    MismatchesShrink(st.sums, GetSumsSpec(st.fs, dg, st.filename).1);
  }

  /** A second blank line re-checks the same file with the leftover sums: the file system, the
      sums and the error stay as the first check left them. */
  lemma RepeatedBlank(dg: Digests, st: State, b1: string, b2: string)
    requires ParseField(b1).key == "" && ParseField(b2).key == ""
    ensures var s1 := Step(dg, st, b1); var s2 := Step(dg, s1, b2);
      s2.fs == s1.fs && s2.filename == s1.filename && s2.sums == s1.sums && s2.failed == s1.failed
  {
    if st.filename != "" && Exists(st.fs, st.filename) {
      CheckExtends(st.fs, dg, st.filename, st.sums);
      CheckTwice(st.fs, dg, st.filename, st.sums);
      var s1 := Step(dg, st, b1);
      assert Exists(s1.fs, s1.filename);
    }
  }

  /** A line with a non-empty key neither checks nor reports. */
  lemma NonBlankStep(dg: Digests, st: State, line: string)
    requires ParseField(line).key != ""
    ensures Frozen(st, Step(dg, st, line))
  {
  }

  /** The error, once set, is never cleared by a line. */
  lemma StepKeepsFailed(dg: Digests, st: State, line: string)
    requires st.failed
    ensures Step(dg, st, line).failed
  {
  }

  // ---- whole runs ----

  /** The run has failed by line `k`. */
  predicate FailedAt(dg: Digests, st: State, lines: seq<string>, k: nat)
    requires k <= |lines|
  {
    Run(dg, st, lines, k).failed
  }

  lemma FailedStep(dg: Digests, st: State, lines: seq<string>, k: nat)
    requires 0 < k <= |lines| && FailedAt(dg, st, lines, k - 1)
    ensures FailedAt(dg, st, lines, k)
  {
    StepKeepsFailed(dg, Run(dg, st, lines, k - 1), lines[k - 1]);
  }

  /** The error is sticky over any number of lines. */
  lemma {:induction false} RunKeepsFailed(dg: Digests, st: State, lines: seq<string>, i: nat, j: nat)
    requires i <= j <= |lines| && FailedAt(dg, st, lines, i)
    ensures FailedAt(dg, st, lines, j)
    decreases j
  {
    if j > i {
      RunKeepsFailed(dg, st, lines, i, j - 1);
      FailedStep(dg, st, lines, j);
    }
  }

  /** `b` has the same file system, error and reports as `a`. */
  predicate Frozen(a: State, b: State) {
    b.fs == a.fs && b.failed == a.failed && b.events == a.events
  }

  lemma RunStepFrozen(dg: Digests, st: State, lines: seq<string>, j: nat)
    requires 0 < j <= |lines| && ParseField(lines[j - 1]).key != ""
    ensures Frozen(Run(dg, st, lines, j - 1), Run(dg, st, lines, j))
  {
    NonBlankStep(dg, Run(dg, st, lines, j - 1), lines[j - 1]);
  }

  /** No line of `lines[i..j]` has an empty key. */
  predicate NoBlank(lines: seq<string>, i: nat, j: nat)
    requires i <= j <= |lines|
    decreases j
  {
    j == i || (NoBlank(lines, i, j - 1) && ParseField(lines[j - 1]).key != "")
  }

  /** Lines `i..j` without an empty key neither check, report nor change the file system or
      the error; with `j == |lines|`: a last stanza that no blank line follows is never checked. */
  lemma {:induction false} RunWithoutBlank(dg: Digests, st: State, lines: seq<string>, i: nat, j: nat)
    requires i <= j <= |lines| && NoBlank(lines, i, j)
    ensures Frozen(Run(dg, st, lines, i), Run(dg, st, lines, j))
    decreases j
  {
    if j > i {
      RunWithoutBlank(dg, st, lines, i, j - 1);
      RunStepFrozen(dg, st, lines, j);
    }
  }
}
