/**
 * verify: checks the clearsigned Release file, then reconciles every file its tables list
 * against that file's sidecar. The signature packet's issuer selects the signing keys of the
 * key ring; a nil key ring only reports the signer. Files are looked for as listed, then next
 * to the Release file; a file found under neither name is reported missing unless a
 * compressed or uncompressed variant of it exists.
 */
module Verify {
  import opened Wrappers
  import opened GoStrings
  import opened GoPath
  import opened FileSystem
  import opened Crypto
  import opened Process
  import opened GetSum
  import opened Compare
  import opened Clearsign

  /** The errors verify returns after the scan. */
  datatype VerifyError =
    | MissingSignatureBlock      // no block was captured, or armor.Decode failed on it
    | UnreadableSignatureBlock   // packet.Read gave io.EOF
    | SignatureReadError         // packet.Read gave another error
    | NoIssuer                   // a version-4 signature without issuer key id
    | InvalidSignatureBlock      // a packet that is not a signature
    | NoMatchingKey              // no signing key with the issuer's id
    | NoKeyVerifies              // no such key verifies the signature
    | NilHashPanic               // not a returned error: the key loop panics on the nil hash
                                 // (no "Hash:" header named SHA1, SHA256 or SHA512), ending the run
    | FailedVerification         // some listed sum did not match

  /** The signature packet's issuer, or the error that ends verify before the key ring. */
  datatype Signer = Unsigned(e: VerifyError) | SignedBy(issuer: nat, packet: Packet)

  function SignerOf(pgp: OpenPgp, block: Option<string>): Signer {
    if block.None? || pgp.armorDecode(block.value).None? then Unsigned(MissingSignatureBlock)
    else
      var p := pgp.readPacket(pgp.armorDecode(block.value).value);
      match p
      case PacketEof => Unsigned(UnreadableSignatureBlock)
      case PacketError => Unsigned(SignatureReadError)
      case Signature(issuer, _, _) => if issuer.None? then Unsigned(NoIssuer) else SignedBy(issuer.value, p)
      case SignatureV3(issuer, _, _) => SignedBy(issuer, p)
      case OtherPacket => Unsigned(InvalidSignatureBlock)
  }

  /** What the key loop ends with. */
  datatype KeyResult =
    | Verified        // some key verified the signature: err == nil after the loop
    | NoneVerified    // every key returned an error
    | NilHash         // a key able to sign was handed the nil hash.Hash: Write on it panics

  /** The bytes VerifySignature writes to the hash before summing it. */
  function Suffix(p: Packet): seq<byte> {
    if p.Signature? then p.suffix else if p.SignatureV3? then p.suffixV3 else []
  }

  /** The hash state once VerifySignature has written the signature's suffix to it. */
  function WithSuffix(h: HashState, p: Packet): HashState {
    h.(written := h.written + Suffix(p))
  }

  /** The key loop from the given key on. A key whose algorithm cannot sign fails before it
      touches the hash; any other writes the suffix into the one hash state all keys share,
      so every later key sees it too. */
  function TryKeys(pgp: OpenPgp, keys: seq<PublicKey>, p: Packet, hash: Option<HashState>): KeyResult
    decreases |keys|
  {
    if keys == [] then NoneVerified
    else if !keys[0].algoSigns then TryKeys(pgp, keys[1..], p, hash)
    else if hash.None? then NilHash
    else
      var h := WithSuffix(hash.value, p);
      if pgp.verify(keys[0], p, h) then Verified else TryKeys(pgp, keys[1..], p, Some(h))
  }

  /** The key loop: try each key until one verifies. */
  method VerifyKeys(pgp: OpenPgp, keys: seq<PublicKey>, p: Packet, hash: Option<HashState>) returns (r: KeyResult)
    ensures r == TryKeys(pgp, keys, p, hash)
  {
    var h := hash;
    var i := 0;
    while i < |keys|
      invariant i <= |keys|
      invariant TryKeys(pgp, keys[i..], p, h) == TryKeys(pgp, keys, p, hash)
    {
      assert keys[i..][1..] == keys[i + 1..];
      var key := keys[i];
      if key.algoSigns {
        if h.None? {
          return NilHash;
        }
        h := Some(WithSuffix(h.value, p));
        if pgp.verify(key, p, h.value) {
          return Verified;
        }
      }
      i := i + 1;
    }
    return NoneVerified;
  }

  /** The number of keys among `ks` whose algorithm can sign. */
  function Signers(ks: seq<PublicKey>): nat {
    if ks == [] then 0 else (if ks[0].algoSigns then 1 else 0) + Signers(ks[1..])
  }

  /** `s` written `n` times. */
  function Repeat(s: seq<byte>, n: nat): seq<byte> {
    if n == 0 then [] else s + Repeat(s, n - 1)
  }

  /** The hash state when the key at `i` is tried, having started from `h`: one suffix more for
      every key up to and including it that can sign. */
  function SeenBy(h: HashState, p: Packet, keys: seq<PublicKey>, i: nat): HashState
    requires i < |keys|
  {
    h.(written := h.written + Repeat(Suffix(p), Signers(keys[..i + 1])))
  }

  /** The key at `i` can sign and verifies the digest it is handed. */
  predicate Hit(pgp: OpenPgp, keys: seq<PublicKey>, p: Packet, h: HashState, i: nat)
    requires i < |keys|
  {
    keys[i].algoSigns && pgp.verify(keys[i], p, SeenBy(h, p, keys, i))
  }

  predicate SomeHit(pgp: OpenPgp, keys: seq<PublicKey>, p: Packet, h: HashState) {
    exists i :: 0 <= i < |keys| && Hit(pgp, keys, p, h, i)
  }

  /** Without a digest, the loop panics exactly when some key can sign, and never verifies. */
  lemma {:induction false} NilHashPanics(pgp: OpenPgp, keys: seq<PublicKey>, p: Packet)
    ensures TryKeys(pgp, keys, p, None) != Verified
    ensures TryKeys(pgp, keys, p, None) == NilHash <==> exists i :: 0 <= i < |keys| && keys[i].algoSigns
    decreases |keys|
  {
    if keys != [] && !keys[0].algoSigns {
      NilHashPanics(pgp, keys[1..], p);
      if exists i :: 0 <= i < |keys| && keys[i].algoSigns {
        var i :| 0 <= i < |keys| && keys[i].algoSigns;
        assert keys[1..][i - 1] == keys[i];
      }
      if exists i :: 0 <= i < |keys| - 1 && keys[1..][i].algoSigns {
        var i :| 0 <= i < |keys| - 1 && keys[1..][i].algoSigns;
        assert keys[i + 1] == keys[1..][i];
      }
    }
  }

  /** The first key, if it can sign, is handed the digest with one suffix. */
  lemma SeenByFirst(h: HashState, p: Packet, keys: seq<PublicKey>)
    requires keys != [] && keys[0].algoSigns
    ensures SeenBy(h, p, keys, 0) == WithSuffix(h, p)
  {
    assert keys[..1] == [keys[0]];
    assert [keys[0]][1..] == [];
    assert Signers(keys[..1]) == 1;
    assert Repeat(Suffix(p), 1) == Suffix(p) + [];
  }

  /** A later key sees what it would see if the loop had started at the second key. */
  lemma SeenByNext(h: HashState, p: Packet, keys: seq<PublicKey>, i: nat)
    requires 0 < i < |keys|
    ensures var h1 := if keys[0].algoSigns then WithSuffix(h, p) else h;
      SeenBy(h, p, keys, i) == SeenBy(h1, p, keys[1..], i - 1)
  {
    var suffix := Suffix(p);
    assert keys[..i + 1][1..] == keys[1..][..i];
    var n := Signers(keys[1..][..i]);
    if keys[0].algoSigns {
      assert Repeat(suffix, n + 1) == suffix + Repeat(suffix, n);
      assert h.written + Repeat(suffix, n + 1) == (h.written + suffix) + Repeat(suffix, n);
    }
  }

  /** A hit among all keys is a hit of the first key or a hit among the rest. */
  lemma SomeHitSplit(pgp: OpenPgp, keys: seq<PublicKey>, p: Packet, h: HashState)
    requires keys != []
    ensures var h1 := if keys[0].algoSigns then WithSuffix(h, p) else h;
      SomeHit(pgp, keys, p, h) <==> Hit(pgp, keys, p, h, 0) || SomeHit(pgp, keys[1..], p, h1)
  {
    var h1 := if keys[0].algoSigns then WithSuffix(h, p) else h;
    if SomeHit(pgp, keys, p, h) {
      var i :| 0 <= i < |keys| && Hit(pgp, keys, p, h, i);
      if i > 0 {
        SeenByNext(h, p, keys, i);
        assert keys[1..][i - 1] == keys[i];
        assert Hit(pgp, keys[1..], p, h1, i - 1);
      }
    }
    if SomeHit(pgp, keys[1..], p, h1) {
      var i :| 0 <= i < |keys| - 1 && Hit(pgp, keys[1..], p, h1, i);
      SeenByNext(h, p, keys, i + 1);
      assert keys[i + 1] == keys[1..][i];
      assert Hit(pgp, keys, p, h, i + 1);
    }
  }

  /** With a digest, the loop never panics, and it verifies exactly when some key that can sign
      verifies the digest it is handed: the content's digest with one suffix per key able to
      sign tried so far. */
  lemma {:induction false} VerifiedIff(pgp: OpenPgp, keys: seq<PublicKey>, p: Packet, h: HashState)
    ensures TryKeys(pgp, keys, p, Some(h)) != NilHash
    ensures TryKeys(pgp, keys, p, Some(h)) == Verified <==> SomeHit(pgp, keys, p, h)
    decreases |keys|
  {
    if keys != [] {
      var h1 := if keys[0].algoSigns then WithSuffix(h, p) else h;
      VerifiedIff(pgp, keys[1..], p, h1);
      SomeHitSplit(pgp, keys, p, h);
      if keys[0].algoSigns {
        SeenByFirst(h, p, keys);
      }
    }
  }

  // ---- reconciliation ----

  /** The reconciliation's effects: the file system (sidecars written), whether some sum
      failed, and the reports. */
  datatype Tally = Tally(fs: Fs, failed: bool, events: seq<Event>)

  /** getSums on `path` and the compare loop over the listed sums. */
  function CheckAt(dg: Digests, t: Tally, path: string, sums: map<string, string>): Tally {
    var (fs1, rem) := CheckFile(t.fs, dg, path, sums);
    Tally(fs1, t.failed || rem != map[], t.events + [Checked(path, rem.Keys)])
  }

  /** The name next to the Release file `name`. */
  function Beside(name: string, filename: string): string {
    Join(Split(name).0, filename)
  }

  /** The compressed or uncompressed variants that silence the "missing" report. */
  predicate VariantExists(fs: Fs, name: string, filename: string) {
    var t := TrimSuffix(TrimSuffix(Beside(name, filename), ".gz"), ".xz");
    Exists(fs, t) || Exists(fs, t + ".gz") || Exists(fs, t + ".xz")
  }

  /** One listed file. */
  function ReconcileStep(dg: Digests, name: string, t: Tally, filename: string, sums: map<string, string>): Tally {
    if Exists(t.fs, filename) then CheckAt(dg, t, filename, sums)
    else if Exists(t.fs, Beside(name, filename)) then CheckAt(dg, t, Beside(name, filename), sums)
    else if VariantExists(t.fs, name, filename) then t
    else t.(events := t.events + [Missing(filename)])
  }

  /** The listed files taken in `order`. */
  function Recon(dg: Digests, name: string, table: map<string, map<string, string>>, t: Tally, order: seq<string>): Tally
    decreases |order|
  {
    if order == [] then t
    else
      var prev := Recon(dg, name, table, t, order[..|order| - 1]);
      var f := order[|order| - 1];
      if f in table then ReconcileStep(dg, name, prev, f, table[f]) else prev
  }

  /** `order` lists every key of `table` exactly once. */
  ghost predicate IsOrder(order: seq<string>, table: map<string, map<string, string>>) {
    && (forall f :: f in order <==> f in table)
    && (forall i, j :: 0 <= i < j < |order| ==> order[i] != order[j])
  }

  /** `for filename, sums := range file_hashes`, in an order Go does not specify. */
  method Reconcile(fs: Fs, dg: Digests, name: string, table: map<string, map<string, string>>)
    returns (t: Tally, ghost order: seq<string>)
    ensures IsOrder(order, table)
    ensures t == Recon(dg, name, table, Tally(fs, false, []), order)
  {
    t := Tally(fs, false, []);
    order := [];
    var todo := table.Keys;
    while todo != {}
      invariant todo <= table.Keys
      invariant forall f :: f in order <==> f in table && f !in todo
      invariant forall i, j :: 0 <= i < j < |order| ==> order[i] != order[j]
      invariant t == Recon(dg, name, table, Tally(fs, false, []), order)
      decreases |todo|
    {
      var filename :| filename in todo;
      t := ReconcileFile(dg, name, t, filename, table[filename]);
      assert (order + [filename])[..|order|] == order;
      order := order + [filename];
      todo := todo - {filename};
    }
  }

  /** The body of the reconciliation loop. */
  method ReconcileFile(dg: Digests, name: string, t: Tally, filename: string, sums: map<string, string>)
    returns (r: Tally)
    ensures r == ReconcileStep(dg, name, t, filename, sums)
  {
    var path := filename;
    if Stat(t.fs, path) == NotExist {
      var (d, _) := Split(name);
      var test := Join(d, path);
      if Stat(t.fs, test) != NotExist {
        path := test;
      } else {
        test := TrimSuffix(TrimSuffix(test, ".gz"), ".xz");
        if Stat(t.fs, test) != NotExist {
        } else if Stat(t.fs, test + ".gz") != NotExist {
        } else if Stat(t.fs, test + ".xz") != NotExist {
        } else {
          return t.(events := t.events + [Missing(filename)]);
        }
        return t;
      }
    }
    var fs1, remaining, failed, report := Check(t.fs, dg, path, sums);
    r := Tally(fs1, t.failed || failed, t.events + [Checked(path, set k | k in report)]);
  }

  // ---- the whole of verify ----

  /** What verify returns and leaves behind. */
  datatype Outcome = Outcome(fs: Fs, err: Option<VerifyError>, events: seq<Event>)

  /** verify over the lines of the opened Release file, with the listed files taken in `order`. */
  function VerifySpec(fs: Fs, dg: Digests, pgp: OpenPgp, name: string, lines: seq<string>,
                      keyring: Option<seq<Entity>>, order: seq<string>): Outcome {
    var sc := ScanSpec(lines);
    match SignerOf(pgp, sc.block)
    case Unsigned(e) => Outcome(fs, Some(e), [])
    case SignedBy(issuer, p) =>
      if keyring.None? then Outcome(fs, None, [])
      else
        var keys := KeysByIdUsage(keyring.value, issuer);
        if |keys| == 0 then Outcome(fs, Some(NoMatchingKey), [])
        else match TryKeys(pgp, keys, p, sc.hash)
          case NilHash => Outcome(fs, Some(NilHashPanic), [])
          case NoneVerified => Outcome(fs, Some(NoKeyVerifies), [])
          case Verified =>
            var t := Recon(dg, name, sc.table, Tally(fs, false, []), order);
            Outcome(t.fs, if t.failed then Some(FailedVerification) else None, t.events)
  }

  /** The signature checked against the key ring: the point after which files are reconciled. */
  predicate SignatureAccepted(pgp: OpenPgp, lines: seq<string>, keyring: Option<seq<Entity>>) {
    var sc := ScanSpec(lines);
    var s := SignerOf(pgp, sc.block);
    && s.SignedBy? && keyring.Some?
    && TryKeys(pgp, KeysByIdUsage(keyring.value, s.issuer), s.packet, sc.hash) == Verified
  }

  method Verify(fs: Fs, dg: Digests, pgp: OpenPgp, name: string, lines: seq<string>, keyring: Option<seq<Entity>>)
    returns (r: Outcome, ghost order: seq<string>)
    ensures r == VerifySpec(fs, dg, pgp, name, lines, keyring, order)
    ensures SignatureAccepted(pgp, lines, keyring) ==> IsOrder(order, ScanSpec(lines).table)
  {
    order := [];
    var sc := Scan(lines);
    if sc.block.None? {
      return Outcome(fs, Some(MissingSignatureBlock), []), order;
    }
    var body := pgp.armorDecode(sc.block.value);
    if body.None? {
      return Outcome(fs, Some(MissingSignatureBlock), []), order;
    }
    var p := pgp.readPacket(body.value);
    if p.PacketEof? {
      return Outcome(fs, Some(UnreadableSignatureBlock), []), order;
    }
    if p.PacketError? {
      return Outcome(fs, Some(SignatureReadError), []), order;
    }
    var issuer;
    if p.Signature? {
      if p.issuer.None? {
        return Outcome(fs, Some(NoIssuer), []), order;
      }
      issuer := p.issuer.value;
    } else if p.SignatureV3? {
      issuer := p.issuerV3;
    } else {
      return Outcome(fs, Some(InvalidSignatureBlock), []), order;
    }
    if keyring.None? {
      return Outcome(fs, None, []), order;
    }
    var keys := KeysByIdUsage(keyring.value, issuer);
    if |keys| == 0 {
      return Outcome(fs, Some(NoMatchingKey), []), order;
    }
    var verdict := VerifyKeys(pgp, keys, p, sc.hash);
    if verdict == NilHash {
      return Outcome(fs, Some(NilHashPanic), []), order;
    }
    if verdict == NoneVerified {
      return Outcome(fs, Some(NoKeyVerifies), []), order;
    }
    var t;
    t, order := Reconcile(fs, dg, name, sc.table);
    r := Outcome(t.fs, if t.failed then Some(FailedVerification) else None, t.events);
  }

  // ---- one listed file ----

  /** A file present under its listed name is checked there, whatever is beside the Release file. */
  lemma ListedNameFirst(dg: Digests, name: string, t: Tally, filename: string, sums: map<string, string>)
    requires Exists(t.fs, filename)
    ensures ReconcileStep(dg, name, t, filename, sums) == CheckAt(dg, t, filename, sums)
    ensures ReconcileStep(dg, name, t, filename, sums).events[|t.events|].path == filename
  {
  }

  /** Otherwise the file next to the Release file is checked, and reported under that name. */
  lemma BesideFallback(dg: Digests, name: string, t: Tally, filename: string, sums: map<string, string>)
    requires !Exists(t.fs, filename) && Exists(t.fs, Beside(name, filename))
    ensures ReconcileStep(dg, name, t, filename, sums) == CheckAt(dg, t, Beside(name, filename), sums)
  {
  }

  /** A file found under neither name is never checked: it is reported missing exactly when no
      variant with or without ".gz" or ".xz" exists, and nothing else changes. */
  lemma UnfoundFile(dg: Digests, name: string, t: Tally, filename: string, sums: map<string, string>)
    requires !Exists(t.fs, filename) && !Exists(t.fs, Beside(name, filename))
    ensures var r := ReconcileStep(dg, name, t, filename, sums);
      && r.fs == t.fs && r.failed == t.failed
      && (r.events == t.events + [Missing(filename)] <==> !VariantExists(t.fs, name, filename))
      && (r.events == t.events <==> VariantExists(t.fs, name, filename))
  {
    var r := ReconcileStep(dg, name, t, filename, sums);
    if !VariantExists(t.fs, name, filename) {
      assert |r.events| == |t.events| + 1;
    }
  }

  /** A check fails exactly when some listed sum is not confirmed by the sidecar. */
  lemma CheckAtFails(dg: Digests, t: Tally, path: string, sums: map<string, string>)
    ensures var r := CheckAt(dg, t, path, sums); var file := GetSumsSpec(t.fs, dg, path).1;
      && (r.failed <==> t.failed || exists k :: k in sums && Lookup(file, k) != sums[k])
      && r.events == t.events + [Checked(path, set k | k in sums && Lookup(file, k) != sums[k])]
  {
    var file := GetSumsSpec(t.fs, dg, path).1;
    MismatchesShrink(sums, file);
    assert Mismatches(sums, file).Keys == set k | k in sums && Lookup(file, k) != sums[k];
  }

  // ---- the reconciliation loop ----

  /** Some check reported a failed sum. */
  predicate AnyFailure(events: seq<Event>) {
    exists i :: 0 <= i < |events| && events[i].Checked? && events[i].failed != {}
  }

  /** The error of a tally is exactly the record of a failed check. */
  predicate Consistent(t: Tally) {
    t.failed <==> AnyFailure(t.events)
  }

  lemma AnyFailureSnoc(events: seq<Event>, e: Event)
    ensures AnyFailure(events + [e]) <==> AnyFailure(events) || (e.Checked? && e.failed != {})
  {
    if AnyFailure(events + [e]) {
      var i :| 0 <= i < |events + [e]| && (events + [e])[i].Checked? && (events + [e])[i].failed != {};
      if i < |events| {
        assert events[i] == (events + [e])[i];
      }
    }
    if AnyFailure(events) {
      var i :| 0 <= i < |events| && events[i].Checked? && events[i].failed != {};
      assert (events + [e])[i] == events[i];
    }
    if e.Checked? && e.failed != {} {
      assert (events + [e])[|events|] == e;
    }
  }

  lemma StepConsistent(dg: Digests, name: string, t: Tally, filename: string, sums: map<string, string>)
    requires Consistent(t)
    ensures Consistent(ReconcileStep(dg, name, t, filename, sums))
  {
    var r := ReconcileStep(dg, name, t, filename, sums);
    if r.events != t.events {
      AnyFailureSnoc(t.events, r.events[|t.events|]);
      assert r.events == t.events + [r.events[|t.events|]];
    }
  }

  /** Over any order of the listed files, the error is set exactly when some check reported a
      failed sum. */
  lemma {:induction false} ReconConsistent(dg: Digests, name: string, table: map<string, map<string, string>>, t: Tally, order: seq<string>)
    requires Consistent(t)
    ensures Consistent(Recon(dg, name, table, t, order))
    decreases |order|
  {
    if order != [] {
      ReconConsistent(dg, name, table, t, order[..|order| - 1]);
      var f := order[|order| - 1];
      if f in table {
        StepConsistent(dg, name, Recon(dg, name, table, t, order[..|order| - 1]), f, table[f]);
      }
    }
  }

  lemma StepExtends(dg: Digests, name: string, t: Tally, filename: string, sums: map<string, string>)
    ensures Extends(t.fs, ReconcileStep(dg, name, t, filename, sums).fs)
  {
    if Exists(t.fs, filename) {
      CheckExtends(t.fs, dg, filename, sums);
    } else if Exists(t.fs, Beside(name, filename)) {
      CheckExtends(t.fs, dg, Beside(name, filename), sums);
    }
  }

  /** The reconciliation only ever adds files: nothing that existed changes or disappears. */
  lemma {:induction false} ReconExtends(dg: Digests, name: string, table: map<string, map<string, string>>, t: Tally, order: seq<string>)
    ensures Extends(t.fs, Recon(dg, name, table, t, order).fs)
    decreases |order|
  {
    if order != [] {
      var prev := Recon(dg, name, table, t, order[..|order| - 1]);
      ReconExtends(dg, name, table, t, order[..|order| - 1]);
      var f := order[|order| - 1];
      if f in table {
        StepExtends(dg, name, prev, f, table[f]);
        ExtendsTrans(t.fs, prev.fs, Recon(dg, name, table, t, order).fs);
      }
    }
  }

  // ---- verify ----

  /** verify succeeds only if the signature was checked against the key ring, unless there is
      no key ring, in which case it only reports the signer and reconciles nothing. */
  lemma SuccessNeedsSignature(fs: Fs, dg: Digests, pgp: OpenPgp, name: string, lines: seq<string>,
                              keyring: Option<seq<Entity>>, order: seq<string>)
    ensures var r := VerifySpec(fs, dg, pgp, name, lines, keyring, order);
      r.err.None? ==> SignatureAccepted(pgp, lines, keyring) || (keyring.None? && r == Outcome(fs, None, []))
  {
  }

  /** A Release file without a "-----" line other than the begin marker has no signature block:
      verify returns that error and checks nothing. */
  lemma NoBlockNoSignature(fs: Fs, dg: Digests, pgp: OpenPgp, name: string, lines: seq<string>,
                           keyring: Option<seq<Entity>>, order: seq<string>)
    requires NoCapture(lines, |lines|)
    ensures VerifySpec(fs, dg, pgp, name, lines, keyring, order) == Outcome(fs, Some(MissingSignatureBlock), [])
  {
    NoMarkerNoBlock(ScanInit(), lines, |lines|);
  }

  /** Without a "Hash:" header naming SHA1, SHA256 or SHA512 the digest stays nil: once a signed
      block and a key able to sign are found, verify panics before checking any file. */
  lemma MissingHashPanics(fs: Fs, dg: Digests, pgp: OpenPgp, name: string, lines: seq<string>,
                          keyring: seq<Entity>, order: seq<string>)
    requires ScanSpec(lines).hash.None? && SignerOf(pgp, ScanSpec(lines).block).SignedBy?
    requires var keys := KeysByIdUsage(keyring, SignerOf(pgp, ScanSpec(lines).block).issuer);
      exists i :: 0 <= i < |keys| && keys[i].algoSigns
    ensures VerifySpec(fs, dg, pgp, name, lines, Some(keyring), order) == Outcome(fs, Some(NilHashPanic), [])
  {
    var s := SignerOf(pgp, ScanSpec(lines).block);
    NilHashPanics(pgp, KeysByIdUsage(keyring, s.issuer), s.packet);
  }

  /** An accepted signature needs a digest, and some signing key that verifies it. */
  lemma AcceptedNeedsHash(pgp: OpenPgp, lines: seq<string>, keyring: Option<seq<Entity>>)
    requires SignatureAccepted(pgp, lines, keyring)
    ensures var sc := ScanSpec(lines); var s := SignerOf(pgp, sc.block);
      && sc.hash.Some?
      && SomeHit(pgp, KeysByIdUsage(keyring.value, s.issuer), s.packet, sc.hash.value)
  {
    var sc := ScanSpec(lines);
    var s := SignerOf(pgp, sc.block);
    NilHashPanics(pgp, KeysByIdUsage(keyring.value, s.issuer), s.packet);
    if sc.hash.Some? {
      VerifiedIff(pgp, KeysByIdUsage(keyring.value, s.issuer), s.packet, sc.hash.value);
    }
  }

  /** Every error other than a failed sum leaves the file system alone and reports nothing. */
  lemma EarlyErrorsChangeNothing(fs: Fs, dg: Digests, pgp: OpenPgp, name: string, lines: seq<string>,
                                 keyring: Option<seq<Entity>>, order: seq<string>)
    ensures var r := VerifySpec(fs, dg, pgp, name, lines, keyring, order);
      r.err.Some? && r.err != Some(FailedVerification) ==> r.fs == fs && r.events == [] && !SignatureAccepted(pgp, lines, keyring)
  {
  }

  /** Once the signature is accepted, verify fails exactly when some check reported a failed sum,
      and it only adds files. */
  lemma AcceptedOutcome(fs: Fs, dg: Digests, pgp: OpenPgp, name: string, lines: seq<string>,
                        keyring: Option<seq<Entity>>, order: seq<string>)
    requires SignatureAccepted(pgp, lines, keyring)
    ensures var r := VerifySpec(fs, dg, pgp, name, lines, keyring, order);
      && (r.err.Some? <==> AnyFailure(r.events))
      && (r.err.Some? ==> r.err == Some(FailedVerification))
      && Extends(fs, r.fs)
  {
    var t0 := Tally(fs, false, []);
    ReconConsistent(dg, name, ScanSpec(lines).table, t0, order);
    ReconExtends(dg, name, ScanSpec(lines).table, t0, order);
  }
}
