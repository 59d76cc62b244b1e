/**
 * The cryptographic libraries the checker calls, as given functions: the four digests of
 * crypto/md5, crypto/sha1, crypto/sha256 and crypto/sha512, and the parts of
 * golang.org/x/crypto/openpgp that verify.go and loadKeys.go use. Signature packets are
 * abstract: an issuer key id, a creation time and the packet version.
 */
module Crypto {
  import opened Wrappers
  import opened GoStrings

  /** Each digest is a function of all bytes written to the hash state, in order. */
  datatype Digests = Digests(
    md5: seq<byte> -> seq<byte>,
    sha1: seq<byte> -> seq<byte>,
    sha256: seq<byte> -> seq<byte>,
    sha512: seq<byte> -> seq<byte>)

  datatype HashAlgo = SHA1 | SHA256 | SHA512

  /** A hash.Hash value: its algorithm and the bytes written to it so far. */
  datatype HashState = HashState(algo: HashAlgo, written: seq<byte>)

  /** The outcome of packet.Read on the body of the armored signature block. A signature
      carries the bytes its verification appends to the hash state before summing it: the
      hashed subpackets and trailer of a version-4 signature, the signature type and creation
      time of a version-3 one. */
  datatype Packet =
    | PacketEof                                                   // io.EOF: no packet at all
    | PacketError                                                 // any other read error
    | Signature(issuer: Option<nat>, created: int, suffix: seq<byte>)     // *packet.Signature
    | SignatureV3(issuerV3: nat, createdV3: int, suffixV3: seq<byte>)     // *packet.SignatureV3
    | OtherPacket                                                 // a packet of another type

  /** A public key: `canSign` says that KeysByIdUsage(_, KeyFlagSign) selects it (not revoked,
      and its self-signature's flags, when valid, allow signing); `algoSigns` is
      PublicKey.CanSign(), whether its algorithm can make signatures at all. */
  datatype PublicKey = PublicKey(keyId: nat, canSign: bool, algoSigns: bool, material: seq<byte>)

  /** An openpgp.Entity: a primary key and its subkeys. */
  datatype Entity = Entity(primary: PublicKey, subkeys: seq<PublicKey>)

  datatype OpenPgp = OpenPgp(
    /** armor.Decode: the body of the first armored block, or None on failure */
    armorDecode: string -> Option<seq<byte>>,
    /** packet.Read */
    readPacket: seq<byte> -> Packet,
    /** PublicKey.VerifySignature / VerifySignatureV3, after the signature's suffix has been
        written to the hash: does `key` sign the digest of the given hash state */
    verify: (PublicKey, Packet, HashState) -> bool,
    /** openpgp.ReadArmoredKeyRing: the entities of an armored text, or None on error */
    readKeyRing: string -> Option<seq<Entity>>)

  function EntityKeys(e: Entity): seq<PublicKey> {
    [e.primary] + e.subkeys
  }

  /** The signing keys of `ks` with key id `id`, in the order `ks` holds them. */
  function MatchingKeys(ks: seq<PublicKey>, id: nat): (r: seq<PublicKey>)
    ensures forall i :: 0 <= i < |r| ==> r[i] in ks && r[i].keyId == id && r[i].canSign
    ensures forall k :: k in ks && k.keyId == id && k.canSign ==> k in r
  {
    if ks == [] then []
    else
      var rest := MatchingKeys(ks[1..], id);
      if ks[0].keyId == id && ks[0].canSign then [ks[0]] + rest else rest
  }

  /** `idx` lists, strictly increasing, exactly the positions of `ks` that hold a signing key
      with id `id`, and `r` holds the keys at those positions. */
  ghost predicate Selects(ks: seq<PublicKey>, id: nat, r: seq<PublicKey>, idx: seq<nat>) {
    && |idx| == |r|
    && (forall i :: 0 <= i < |idx| ==> idx[i] < |ks| && ks[idx[i]] == r[i])
    && (forall i, j :: 0 <= i < j < |idx| ==> idx[i] < idx[j])
    && (forall x :: 0 <= x < |ks| ==> (x in idx <==> ks[x].keyId == id && ks[x].canSign))
  }

  /** Every position moved one place on. */
  function Shift(idx: seq<nat>): (r: seq<nat>)
    ensures |r| == |idx| && forall i :: 0 <= i < |r| ==> r[i] == idx[i] + 1
  {
    seq(|idx|, i requires 0 <= i < |idx| => idx[i] + 1)
  }

  /** The positions of `ks[1..]` moved one place on select in `ks` when `ks[0]` does not match. */
  lemma SelectsSkip(ks: seq<PublicKey>, id: nat, r: seq<PublicKey>, tail: seq<nat>)
    requires ks != [] && !(ks[0].keyId == id && ks[0].canSign)
    requires Selects(ks[1..], id, r, tail)
    ensures Selects(ks, id, r, Shift(tail))
  {
    var idx := Shift(tail);
    forall x | 0 <= x < |ks|
      ensures x in idx <==> ks[x].keyId == id && ks[x].canSign
    {
      if x > 0 {
        ShiftMember(ks, id, tail, x);
      } else {
        assert forall j :: 0 <= j < |idx| ==> idx[j] != 0;
      }
    }
  }

  /** With `ks[0]` matching, position 0 followed by the moved positions selects `[ks[0]] + r`. */
  lemma SelectsCons(ks: seq<PublicKey>, id: nat, r: seq<PublicKey>, tail: seq<nat>)
    requires ks != [] && ks[0].keyId == id && ks[0].canSign
    requires Selects(ks[1..], id, r, tail)
    ensures Selects(ks, id, [ks[0]] + r, [0] + Shift(tail))
  {
    var idx := [0] + Shift(tail);
    forall x | 0 <= x < |ks|
      ensures x in idx <==> ks[x].keyId == id && ks[x].canSign
    {
      if x > 0 {
        ShiftMember(ks, id, tail, x);
        assert x in idx <==> x in Shift(tail);
      } else {
        assert idx[0] == 0;
      }
    }
  }

  lemma ShiftMember(ks: seq<PublicKey>, id: nat, tail: seq<nat>, x: nat)
    requires 0 < x < |ks|
    requires forall y :: 0 <= y < |ks[1..]| ==> (y in tail <==> ks[1..][y].keyId == id && ks[1..][y].canSign)
    ensures x in Shift(tail) <==> ks[x].keyId == id && ks[x].canSign
  {
    var sh := Shift(tail);
    assert ks[x] == ks[1..][x - 1];
    if x - 1 in tail {
      var j :| 0 <= j < |tail| && tail[j] == x - 1;
      assert sh[j] == x;
    }
    if x in sh {
      var j :| 0 <= j < |sh| && sh[j] == x;
      assert tail[j] == x - 1;
    }
  }

  /** MatchingKeys keeps the order of its input: its result is the subsequence of `ks` at the
      positions of the matching keys. */
  lemma {:induction false} MatchingKeysOrder(ks: seq<PublicKey>, id: nat) returns (idx: seq<nat>)
    ensures Selects(ks, id, MatchingKeys(ks, id), idx)
  {
    if ks == [] {
      idx := [];
    } else {
      var tail := MatchingKeysOrder(ks[1..], id);
      if ks[0].keyId == id && ks[0].canSign {
        SelectsCons(ks, id, MatchingKeys(ks[1..], id), tail);
        idx := [0] + Shift(tail);
      } else {
        SelectsSkip(ks, id, MatchingKeys(ks[1..], id), tail);
        idx := Shift(tail);
      }
    }
  }

  /** Every key of a ring, entity by entity, each primary key before its subkeys. */
  function RingKeys(ring: seq<Entity>): (r: seq<PublicKey>)
    ensures forall j, k :: 0 <= j < |ring| && k in EntityKeys(ring[j]) ==> k in r
  {
    if ring == [] then [] else EntityKeys(ring[0]) + RingKeys(ring[1..])
  }

  lemma {:induction false} MatchingKeysAppend(a: seq<PublicKey>, b: seq<PublicKey>, id: nat)
    ensures MatchingKeys(a + b, id) == MatchingKeys(a, id) + MatchingKeys(b, id)
  {
    if a != [] {
      var ab := a + b;
      assert ab[0] == a[0] && ab[1..] == a[1..] + b;
      MatchingKeysAppend(a[1..], b, id);
      var x, y := MatchingKeys(a[1..], id), MatchingKeys(b, id);
      if a[0].keyId == id && a[0].canSign {
        assert MatchingKeys(ab, id) == [a[0]] + (x + y);
        assert MatchingKeys(a, id) == [a[0]] + x;
        assert [a[0]] + (x + y) == ([a[0]] + x) + y;
      } else {
        assert MatchingKeys(ab, id) == x + y;
        assert MatchingKeys(a, id) == x;
      }
    } else {
      assert a + b == b;
    }
  }

  /** KeyRing.KeysByIdUsage(id, KeyFlagSign): the signing keys with the given key id, each one
      a key of the ring. */
  function KeysByIdUsage(ring: seq<Entity>, id: nat): (r: seq<PublicKey>)
    ensures forall i :: 0 <= i < |r| ==> r[i].keyId == id && r[i].canSign
    ensures forall i :: 0 <= i < |r| ==> exists j :: 0 <= j < |ring| && r[i] in EntityKeys(ring[j])
    ensures forall j, k :: 0 <= j < |ring| && k in EntityKeys(ring[j]) && k.keyId == id && k.canSign ==> k in r
  {
    if ring == [] then []
    else
      var head := MatchingKeys(EntityKeys(ring[0]), id);
      var rest := KeysByIdUsage(ring[1..], id);
      assert forall i :: 0 <= i < |rest| ==> exists j :: 0 <= j < |ring| && rest[i] in EntityKeys(ring[j]) by {
        forall i | 0 <= i < |rest|
          ensures exists j :: 0 <= j < |ring| && rest[i] in EntityKeys(ring[j])
        {
          var j :| 0 <= j < |ring[1..]| && rest[i] in EntityKeys(ring[1..][j]);
          assert ring[1..][j] == ring[j + 1];
        }
      }
      head + rest
  }

  /** KeysByIdUsage selects the matching keys in ring order: entity by entity, a primary key
      before its subkeys. With MatchingKeysOrder this gives the positions in RingKeys(ring). */
  lemma {:induction false} KeysByIdUsageOrder(ring: seq<Entity>, id: nat)
    ensures KeysByIdUsage(ring, id) == MatchingKeys(RingKeys(ring), id)
  {
    if ring != [] {
      KeysByIdUsageOrder(ring[1..], id);
      MatchingKeysAppend(EntityKeys(ring[0]), RingKeys(ring[1..]), id);
    }
  }
}
