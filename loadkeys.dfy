/**
 * loadKeys: reads an armored keyring file line by line. Every line is appended, with a
 * '\n', to the pending text; a line that is the END marker of a public key block (after
 * trimming white space) counts a block and hands the whole pending text to
 * ReadArmoredKeyRing. A parse that succeeds appends its entities to the keyring, in order,
 * and clears the pending text; one that fails records its error and keeps the text, so the
 * next block is parsed together with it. Once the keyring holds a key the error is cleared.
 */
module LoadKeys {
  import opened Wrappers
  import opened GoStrings
  import opened FileSystem
  import opened Crypto

  const EndMarker := "-----END PGP PUBLIC KEY BLOCK-----"

  predicate IsEnd(line: string) {
    TrimSpace(line) == EndMarker
  }

  /** The error loadKeys returns: the one from os.Open, or the one ReadArmoredKeyRing gave
      for the block with the given number (counted from 1). */
  datatype LoadError = OpenFailed | InvalidKey(block: nat)

  /** The loop's variables: keystr, i, keyring and err. */
  datatype LoadState = LoadState(keystr: string, blocks: nat, keyring: seq<Entity>, err: Option<LoadError>)

  /** The state after a successful os.Open. */
  const Init := LoadState("", 0, [], None)

  /** Which lines are END markers: the fold below is over the lines and these flags. */
  function Ends(lines: seq<string>): (ends: seq<bool>)
    ensures |ends| == |lines|
  {
    seq(|lines|, i requires 0 <= i < |lines| => IsEnd(lines[i]))
  }

  /** One line of the keyring file; `end` says whether it is an END marker. */
  function LoadStep(pgp: OpenPgp, st: LoadState, line: string, end: bool): LoadState {
    var text := st.keystr + line + "\n";
    var st1 :=
      if end then
        match pgp.readKeyRing(text)
        case Some(ks) => LoadState("", st.blocks + 1, st.keyring + ks, None)
        case None => LoadState(text, st.blocks + 1, st.keyring, Some(InvalidKey(st.blocks + 1)))
      else st.(keystr := text);
    if |st1.keyring| > 0 then st1.(err := None) else st1
  }

  /** The state after the first k lines. */
  function LoadRun(pgp: OpenPgp, lines: seq<string>, ends: seq<bool>, k: nat): LoadState
    requires k <= |lines| == |ends|
  {
    if k == 0 then Init else LoadStep(pgp, LoadRun(pgp, lines, ends, k - 1), lines[k - 1], ends[k - 1])
  }

  /** The text ReadArmoredKeyRing is given when line k is an END marker. */
  function ParsedText(pgp: OpenPgp, lines: seq<string>, ends: seq<bool>, k: nat): string
    requires k < |lines| == |ends|
  {
    LoadRun(pgp, lines, ends, k).keystr + lines[k] + "\n"
  }

  /** Does line k end a block whose text parses? */
  predicate Loads(pgp: OpenPgp, lines: seq<string>, ends: seq<bool>, k: nat)
    requires k < |lines| == |ends|
  {
    ends[k] && pgp.readKeyRing(ParsedText(pgp, lines, ends, k)).Some?
  }

  /** The number of END markers among the flags. */
  function CountEnds(ends: seq<bool>): nat
    decreases |ends|
  {
    if ends == [] then 0 else CountEnds(ends[..|ends| - 1]) + (if ends[|ends| - 1] then 1 else 0)
  }

  /** The index after the last line before k that ended a block which parsed; 0 if none. */
  function LastLoaded(pgp: OpenPgp, lines: seq<string>, ends: seq<bool>, k: nat): (r: nat)
    requires k <= |lines| == |ends|
    ensures r <= k
  {
    if k == 0 then 0 else if Loads(pgp, lines, ends, k - 1) then k else LastLoaded(pgp, lines, ends, k - 1)
  }

  /** The keyring and error loadKeys(keyfile) returns. A keyring that holds a key comes with
      no error, and the open error is reported exactly when the file cannot be opened. */
  function LoadKeysSpec(fs: Fs, pgp: OpenPgp, keyfile: string): (r: (seq<Entity>, Option<LoadError>))
    ensures |r.0| > 0 ==> r.1 == None
    ensures r.1 == Some(OpenFailed) <==> Open(fs, keyfile).None?
  {
    match Open(fs, keyfile)
    case None => ([], Some(OpenFailed))
    case Some(s) =>
      var lines := TextLines(s.data);
      var st := LoadRun(pgp, lines, Ends(lines), |lines|);
      ErrorNamesLastBlock(pgp, lines, Ends(lines), |lines|);
      (st.keyring, st.err)
  }

  /** loadKeys; the lines are what a bufio.Scanner over the opened file yields. */
  method LoadKeys(fs: Fs, pgp: OpenPgp, keyfile: string) returns (keyring: seq<Entity>, err: Option<LoadError>)
    ensures (keyring, err) == LoadKeysSpec(fs, pgp, keyfile)
  {
    var f := Open(fs, keyfile);
    if f.None? {
      keyring, err := [], Some(OpenFailed);
      return;
    }
    var lines := TextLines(f.value.data);
    ghost var ends := Ends(lines);
    var keystr := "";
    var i := 0;
    keyring, err := [], None;
    var k := 0;
    while k < |lines|
      invariant k <= |lines|
      invariant LoadState(keystr, i, keyring, err) == LoadRun(pgp, lines, ends, k)
    {
      keystr, i, keyring, err := ScanLine(pgp, keystr, i, keyring, err, lines[k]);
      k := k + 1;
    }
  }

  /** The loop body for one scanned line. */
  method ScanLine(pgp: OpenPgp, keystr0: string, i0: nat, keyring0: seq<Entity>, err0: Option<LoadError>, line: string)
    returns (keystr: string, i: nat, keyring: seq<Entity>, err: Option<LoadError>)
    ensures LoadState(keystr, i, keyring, err) == LoadStep(pgp, LoadState(keystr0, i0, keyring0, err0), line, IsEnd(line))
  {
    keystr, i, keyring, err := keystr0 + line + "\n", i0, keyring0, err0;
    if TrimSpace(line) == EndMarker {
      i := i + 1;
      var loaded := pgp.readKeyRing(keystr);
      if loaded.Some? {
        keyring := AppendKeys(keyring, loaded.value);
        keystr := "";
        err := None;
      } else {
        err := Some(InvalidKey(i));
      }
    }
    if |keyring| > 0 {
      err := None;
    }
  }

  /** The range loop that appends the loaded entities to the keyring, one by one. */
  method AppendKeys(keyring0: seq<Entity>, ks: seq<Entity>) returns (keyring: seq<Entity>)
    ensures keyring == keyring0 + ks
  {
    keyring := keyring0;
    var j := 0;
    while j < |ks|
      invariant j <= |ks|
      invariant keyring == keyring0 + ks[..j]
    {
      keyring := keyring + [ks[j]];
      j := j + 1;
    }
  }

  lemma JoinFirst(lines: seq<string>, a: nat, b: nat)
    requires a < b <= |lines|
    ensures JoinLines(lines[a..b]) == lines[a] + "\n" + JoinLines(lines[a + 1..b])
  {
    assert lines[a..b][1..] == lines[a + 1..b];
  }

  lemma JoinLast(lines: seq<string>, a: nat, b: nat)
    requires a <= b < |lines|
    ensures JoinLines(lines[a..b + 1]) == JoinLines(lines[a..b]) + lines[b] + "\n"
  {
    assert lines[a..b + 1] == lines[a..b] + [lines[b]];
    JoinLinesSnoc(lines[a..b], lines[b]);
  }

  lemma Assoc(x: string, y: string, z: string)
    ensures x + (y + z) == x + y + z
  {
  }

  /** JoinLines distributes over a split of consecutive lines. */
  lemma {:induction false} JoinSplit(lines: seq<string>, a: nat, b: nat, c: nat)
    requires a <= b <= c <= |lines|
    ensures JoinLines(lines[a..c]) == JoinLines(lines[a..b]) + JoinLines(lines[b..c])
    decreases b - a
  {
    if a < b {
      JoinSplit(lines, a + 1, b, c);
      JoinFirst(lines, a, c);
      JoinFirst(lines, a, b);
      Assoc(lines[a] + "\n", JoinLines(lines[a + 1..b]), JoinLines(lines[b..c]));
    } else {
      assert lines[a..b] == [];
    }
  }

  /** A line is appended to the pending text, which a block that parses clears. */
  lemma StepPending(pgp: OpenPgp, st: LoadState, line: string, end: bool)
    ensures var text := st.keystr + line + "\n";
      LoadStep(pgp, st, line, end).keystr == if end && pgp.readKeyRing(text).Some? then "" else text
  {
  }

  /** The pending text is every line since the last block that parsed, each followed by '\n'. */
  lemma {:induction false} PendingSinceLastLoaded(pgp: OpenPgp, lines: seq<string>, ends: seq<bool>, k: nat)
    requires k <= |lines| == |ends|
    ensures LoadRun(pgp, lines, ends, k).keystr == JoinLines(lines[LastLoaded(pgp, lines, ends, k)..k])
  {
    if k > 0 {
      var prev := LoadRun(pgp, lines, ends, k - 1);
      var a := LastLoaded(pgp, lines, ends, k - 1);
      PendingSinceLastLoaded(pgp, lines, ends, k - 1);
      assert prev.keystr == JoinLines(lines[a..k - 1]);
      StepPending(pgp, prev, lines[k - 1], ends[k - 1]);
      if Loads(pgp, lines, ends, k - 1) {
        assert LoadRun(pgp, lines, ends, k).keystr == "";
        assert LastLoaded(pgp, lines, ends, k) == k;
        assert lines[k..k] == [];
      } else {
        assert LoadRun(pgp, lines, ends, k).keystr == prev.keystr + lines[k - 1] + "\n";
        assert LastLoaded(pgp, lines, ends, k) == a;
        JoinLast(lines, a, k - 1);
      }
    }
  }

  /** Lines that are not END markers parse nothing, so LastLoaded stays put across them. */
  lemma {:induction false} NoLoadsBetween(pgp: OpenPgp, lines: seq<string>, ends: seq<bool>, k: nat, m: nat)
    requires k < m <= |lines| == |ends|
    requires forall j :: k < j < m ==> !ends[j]
    ensures LastLoaded(pgp, lines, ends, m) ==
      if Loads(pgp, lines, ends, k) then k + 1 else LastLoaded(pgp, lines, ends, k)
    decreases m - k
  {
    if m > k + 1 {
      NoLoadsBetween(pgp, lines, ends, k, m - 1);
    }
  }

  lemma Regroup(a: string, l: string, b: string, x: string)
    ensures a + (l + "\n" + b) + x + "\n" == (a + l + "\n") + (b + x + "\n")
  {
  }

  /** A block whose parse fails stays in the pending text: the next END marker parses it
      again, followed by the lines in between. */
  lemma FailedBlockKept(pgp: OpenPgp, lines: seq<string>, ends: seq<bool>, k: nat, m: nat)
    requires k < m < |lines| == |ends|
    requires ends[k] && !Loads(pgp, lines, ends, k)
    requires forall j :: k < j < m ==> !ends[j]
    ensures ParsedText(pgp, lines, ends, m) == ParsedText(pgp, lines, ends, k) + JoinLines(lines[k + 1..m + 1])
  {
    NoLoadsBetween(pgp, lines, ends, k, m);
    var s := LastLoaded(pgp, lines, ends, k);
    PendingSinceLastLoaded(pgp, lines, ends, k);
    PendingSinceLastLoaded(pgp, lines, ends, m);
    JoinSplit(lines, s, k, m);
    JoinFirst(lines, k, m);
    JoinLast(lines, k + 1, m);
    var a, b := JoinLines(lines[s..k]), JoinLines(lines[k + 1..m]);
    calc {
      ParsedText(pgp, lines, ends, m);
      LoadRun(pgp, lines, ends, m).keystr + lines[m] + "\n";
      JoinLines(lines[s..k]) + JoinLines(lines[k..m]) + lines[m] + "\n";
      a + (lines[k] + "\n" + b) + lines[m] + "\n";
      { Regroup(a, lines[k], b, lines[m]); }
      (a + lines[k] + "\n") + (b + lines[m] + "\n");
      ParsedText(pgp, lines, ends, k) + JoinLines(lines[k + 1..m + 1]);
    }
  }

  /** After a block that parses, the next END marker parses only the lines after it. */
  lemma LoadedBlockCleared(pgp: OpenPgp, lines: seq<string>, ends: seq<bool>, k: nat, m: nat)
    requires k < m < |lines| == |ends|
    requires Loads(pgp, lines, ends, k)
    requires forall j :: k < j < m ==> !ends[j]
    ensures ParsedText(pgp, lines, ends, m) == JoinLines(lines[k + 1..m + 1])
  {
    NoLoadsBetween(pgp, lines, ends, k, m);
    PendingSinceLastLoaded(pgp, lines, ends, m);
    JoinLast(lines, k + 1, m);
  }

  /** A block that parses appends its entities, in order, and clears the error; one that
      fails leaves the keyring and the pending text as they were. */
  lemma EndLineOutcome(pgp: OpenPgp, lines: seq<string>, ends: seq<bool>, k: nat)
    requires k < |lines| == |ends| && ends[k]
    ensures var before := LoadRun(pgp, lines, ends, k);
      var after := LoadRun(pgp, lines, ends, k + 1);
      match pgp.readKeyRing(ParsedText(pgp, lines, ends, k))
      case Some(ks) => after.keyring == before.keyring + ks && after.keystr == "" && after.err == None
      case None =>
        && after.keyring == before.keyring && after.keystr == ParsedText(pgp, lines, ends, k)
        && after.err == (if |before.keyring| > 0 then None else Some(InvalidKey(after.blocks)))
  {
  }

  /** The keyring only grows: an earlier keyring is a prefix of a later one. */
  lemma {:induction false} KeyringGrows(pgp: OpenPgp, lines: seq<string>, ends: seq<bool>, j: nat, k: nat)
    requires j <= k <= |lines| == |ends|
    ensures LoadRun(pgp, lines, ends, j).keyring <= LoadRun(pgp, lines, ends, k).keyring
    decreases k - j
  {
    if j < k {
      KeyringGrows(pgp, lines, ends, j, k - 1);
    }
  }

  /** The block counter i is the number of END markers read. */
  lemma {:induction false} BlocksCountEnds(pgp: OpenPgp, lines: seq<string>, ends: seq<bool>, k: nat)
    requires k <= |lines| == |ends|
    ensures LoadRun(pgp, lines, ends, k).blocks == CountEnds(ends[..k])
  {
    if k > 0 {
      BlocksCountEnds(pgp, lines, ends, k - 1);
      assert ends[..k][..k - 1] == ends[..k - 1];
    }
  }

  /** An error is only left standing while the keyring is empty, and it is the one from the
      last block parsed. */
  lemma {:induction false} ErrorNamesLastBlock(pgp: OpenPgp, lines: seq<string>, ends: seq<bool>, k: nat)
    requires k <= |lines| == |ends|
    ensures var st := LoadRun(pgp, lines, ends, k);
      st.err.Some? ==> st.keyring == [] && st.blocks > 0 && st.err == Some(InvalidKey(st.blocks))
  {
    if k > 0 {
      ErrorNamesLastBlock(pgp, lines, ends, k - 1);
    }
  }

  /** Without an END marker no key is parsed and no error arises: the pending text is all of
      the lines. */
  lemma {:induction false} NoEndNoKeys(pgp: OpenPgp, lines: seq<string>, ends: seq<bool>, k: nat)
    requires k <= |lines| == |ends|
    requires CountEnds(ends[..k]) == 0
    ensures LoadRun(pgp, lines, ends, k) == LoadState(JoinLines(lines[..k]), 0, [], None)
  {
    if k > 0 {
      assert ends[..k][..k - 1] == ends[..k - 1];
      NoEndNoKeys(pgp, lines, ends, k - 1);
      JoinLast(lines, 0, k - 1);
      assert lines[0..k] == lines[..k] && lines[0..k - 1] == lines[..k - 1];
    }
  }
}
