/** The byte layout of everything that is hashed, offset by offset behind the domain
    tag: what an independent implementation of the receiver has to reproduce. */
module Layout {
  import opened Util
  import opened Hashing
  import opened RootAdvance
  import Wots

  /** `n` bytes of `b` from offset `i`. */
  function At(b: Bytes, i: nat, n: nat): Bytes
    requires i + n <= |b|
  {
    b[i..i + n]
  }

  /** Where field `k` of a concatenation begins. */
  function Offset(fields: seq<Bytes>, k: nat): nat
    requires k <= |fields|
  {
    if k == 0 then 0 else Offset(fields, k - 1) + |fields[k - 1]|
  }

  lemma {:induction false} OffsetTail(fields: seq<Bytes>, k: nat)
    requires 0 < k <= |fields|
    ensures Offset(fields, k) == |fields[0]| + Offset(fields[1..], k - 1)
    decreases k
  {
    if k > 1 { OffsetTail(fields, k - 1); }
  }

  lemma {:induction false} FieldAt(fields: seq<Bytes>, k: nat)
    requires k < |fields|
    ensures Offset(fields, k) + |fields[k]| <= |Flatten(fields)|
    ensures At(Flatten(fields), Offset(fields, k), |fields[k]|) == fields[k]
    decreases |fields|
  {
    if k > 0 {
      OffsetTail(fields, k);
      FieldAt(fields[1..], k - 1);
    }
  }

  lemma {:induction false} WholeLength(fields: seq<Bytes>)
    ensures |Flatten(fields)| == Offset(fields, |fields|)
    decreases |fields|
  {
    if |fields| > 0 {
      WholeLength(fields[1..]);
      OffsetTail(fields, |fields|);
    }
  }

  /** A string of a domain: its tag, then the body. */
  predicate Tagged(b: Bytes, tag: string, body: Bytes) {
    |b| == |tag| + |body| && b[|tag|..] == body && forall i :: 0 <= i < |tag| ==> b[i] == tag[i] as int
  }

  lemma PreimageTagged(domain: Domain, fields: seq<Bytes>)
    ensures Tagged(Preimage(domain, fields), domain.Tag(), Flatten(fields))
  {
    hide Domain.Tag, Flatten;
    TagIsAscii(domain);
    AsciiTagged(domain.Tag(), Flatten(fields));
  }

  lemma AsciiTagged(tag: string, body: Bytes)
    requires IsAscii(tag)
    ensures Tagged(Ascii(tag) + body, tag, body)
  {
    assert forall i :: 0 <= i < |tag| ==> (Ascii(tag) + body)[i] == Ascii(tag)[i];
  }

  predicate IsAscii(s: string) { forall i :: 0 <= i < |s| ==> s[i] as int < 0x80 }

  lemma TagIsAscii(domain: Domain)
    ensures IsAscii(domain.Tag())
  {
    hide IsAscii;
    LongTagsAscii();
    WitnessTagsAscii();
    ShortTagsAscii();
  }

  lemma LongTagsAscii()
    ensures IsAscii(TRANSITION_DIGEST_V1) && IsAscii(CERT_MESSAGE_V1)
  {
  }

  lemma WitnessTagsAscii()
    ensures IsAscii(ROOT_ADVANCE_INPUT_V1) && IsAscii(ROOT_ADVANCE_WITNESS_KEY_V1)
  {
  }

  lemma ShortTagsAscii()
    ensures IsAscii(PK_HASH_V1) && IsAscii(WOTS_CHAIN_V1) && IsAscii(WOTS_SK_V1) && IsAscii(WOTS_PK_V1)
  {
  }

  /** D = h(tag, enc(Δ)); P_hw = h(tag, pk). One chain step, one compression of the 67
      tops, one chain secret. */
  lemma SingleFieldLayouts(o: Hashes, t: Transition, pk: Bytes, x: Digest, tops: seq<Digest>, seed: Digest, i: nat)
    requires i < Wots.LEN
    ensures exists b :: TransitionDigestOf(o, t) == o.hash(b)
              && Tagged(b, "DSM/root-advance/transition-digest/v1", EncTransition(t))
    ensures exists b :: PkHashOf(o, pk) == o.hash(b) && Tagged(b, "DSM/tropic/pk-hash/v1", pk)
    ensures exists b :: Wots.F(o, x) == o.hash(b) && Tagged(b, "DSM/anchor/wots-chain/v1", x)
    ensures exists b :: Wots.Compress(o, tops) == o.hash(b) && Tagged(b, "DSM/anchor/wots-pk/v1", Flatten(tops))
    ensures exists b :: Wots.ChainSecret(o, seed, i) == o.keyed(seed, b)
              && Tagged(b, "DSM/anchor/wots-sk/v1", [i % 256, i / 256])
  {
    hide EncTransition, Preimage, Tagged;
    OneField(TransitionDigest, EncTransition(t));
    OneField(PkHash, pk);
    OneField(WotsChain, x);
    OneField(WotsPk, Flatten(tops));
    OneField(WotsSk, Le(i, 2));
    IndexBytes(i);
  }

  lemma OneField(domain: Domain, x: Bytes)
    ensures Tagged(Preimage(domain, [x]), domain.Tag(), x)
  {
    hide Tagged;
    PreimageTagged(domain, [x]);
    assert Flatten([x][1..]) == [] && Flatten([x]) == x + [] == x;
  }

  lemma IndexBytes(i: nat)
    requires i < 0x1_0000
    ensures Le(i, 2) == [i % 256, i / 256]
  {
    LeByte(i, 2, 0);
    LeByte(i, 2, 1);
    assert Pow256(1) == 256;
  }

  /** The body of X, 274 bytes. */
  lemma WitnessInputLayout(o: Hashes, t: Transition, d: Digest, anchorId: Digest, q: u16, challenge: Digest)
    ensures exists b, x :: WitnessInputOf(o, t, d, anchorId, q, challenge) == o.hash(b)
              && Tagged(b, "DSM/tropic/root-advance-input/v1", x) && |x| == 274
              && At(x, 0, 32) == t.prevRoot && At(x, 32, 32) == t.nextRoot
              && At(x, 64, 8) == U64Le(t.anchorCounter) && At(x, 72, 8) == U64Le(t.nextAnchorCounter)
              && At(x, 80, 32) == d && At(x, 112, 32) == t.recipientDeviceId && At(x, 144, 32) == t.objectId
              && At(x, 176, 32) == t.authorityPolicyHash && At(x, 208, 32) == anchorId
              && At(x, 240, 2) == U16Le(q) && At(x, 242, 32) == challenge
  {
    hide At, Tagged, Preimage, Flatten, U64Le, U16Le;
    var fs := WitnessInputFields(t, d, anchorId, q, challenge);
    PreimageTagged(RootAdvanceInput, fs);
    WholeLength(fs);
    Offsets11(fs);
    forall k | 0 <= k < 11 ensures At(Flatten(fs), Offset(fs, k), |fs[k]|) == fs[k] { FieldAt(fs, k); }
    assert fs[0] == t.prevRoot && fs[1] == t.nextRoot && fs[2] == U64Le(t.anchorCounter);
    assert fs[3] == U64Le(t.nextAnchorCounter) && fs[4] == d && fs[5] == t.recipientDeviceId && fs[6] == t.objectId;
    assert fs[7] == t.authorityPolicyHash && fs[8] == anchorId && fs[9] == U16Le(q) && fs[10] == challenge;
  }

  lemma Offsets11(fs: seq<Bytes>)
    requires |fs| == 11
    requires |fs[0]| == |fs[1]| == |fs[4]| == |fs[5]| == |fs[6]| == |fs[7]| == |fs[8]| == |fs[10]| == 32
    requires |fs[2]| == |fs[3]| == 8 && |fs[9]| == 2
    ensures Offset(fs, 0) == 0 && Offset(fs, 1) == 32 && Offset(fs, 2) == 64 && Offset(fs, 3) == 72
    ensures Offset(fs, 4) == 80 && Offset(fs, 5) == 112 && Offset(fs, 6) == 144 && Offset(fs, 7) == 176
    ensures Offset(fs, 8) == 208 && Offset(fs, 9) == 240 && Offset(fs, 10) == 242 && Offset(fs, 11) == 274
  {
  }

  /** The body of K's derivation, 178 bytes, keyed by the chip's answer. */
  lemma WitnessKeyLayout(o: Hashes, w: Digest, x: Digest, t: Transition, anchorId: Digest, q: u16)
    ensures exists b, y :: WitnessKeyMaterial(o, w, x, t, anchorId, q) == o.keyed(w, b)
              && Tagged(b, "DSM/tropic/root-advance-witness-key/v1", y) && |y| == 178
              && At(y, 0, 32) == x && At(y, 32, 32) == t.prevRoot && At(y, 64, 32) == t.nextRoot
              && At(y, 96, 8) == U64Le(t.anchorCounter) && At(y, 104, 8) == U64Le(t.nextAnchorCounter)
              && At(y, 112, 32) == anchorId && At(y, 144, 2) == U16Le(q) && At(y, 146, 32) == t.authorityPolicyHash
  {
    hide At, Tagged, Preimage, Flatten, U64Le, U16Le;
    var fs := WitnessKeyFields(x, t, anchorId, q);
    PreimageTagged(WitnessKey, fs);
    WholeLength(fs);
    Offsets8(fs);
    forall k | 0 <= k < 8 ensures At(Flatten(fs), Offset(fs, k), |fs[k]|) == fs[k] { FieldAt(fs, k); }
    assert fs[0] == x && fs[1] == t.prevRoot && fs[2] == t.nextRoot && fs[3] == U64Le(t.anchorCounter);
    assert fs[4] == U64Le(t.nextAnchorCounter) && fs[5] == anchorId && fs[6] == U16Le(q);
    assert fs[7] == t.authorityPolicyHash;
  }

  lemma Offsets8(fs: seq<Bytes>)
    requires |fs| == 8
    requires |fs[0]| == |fs[1]| == |fs[2]| == |fs[5]| == |fs[7]| == 32
    requires |fs[3]| == |fs[4]| == 8 && |fs[6]| == 2
    ensures Offset(fs, 0) == 0 && Offset(fs, 1) == 32 && Offset(fs, 2) == 64 && Offset(fs, 3) == 96
    ensures Offset(fs, 4) == 104 && Offset(fs, 5) == 112 && Offset(fs, 6) == 144 && Offset(fs, 7) == 146
    ensures Offset(fs, 8) == 178
  {
  }

  /** The body of M, 338 bytes. */
  lemma CertMessageLayout(o: Hashes, t: Transition, d: Digest, x: Digest, pHw: Digest, anchorId: Digest, q: u16,
                          challenge: Digest)
    ensures exists b, m :: CertMessageOf(o, t, d, x, pHw, anchorId, q, challenge) == o.hash(b)
              && Tagged(b, "DSM/root-advance/cert-message/v1", m) && |m| == 338
              && At(m, 0, 32) == t.prevRoot && At(m, 32, 32) == t.nextRoot
              && At(m, 64, 8) == U64Le(t.anchorCounter) && At(m, 72, 8) == U64Le(t.nextAnchorCounter)
              && At(m, 80, 32) == d && At(m, 112, 32) == x && At(m, 144, 32) == pHw
              && At(m, 176, 32) == t.recipientDeviceId && At(m, 208, 32) == t.objectId
              && At(m, 240, 32) == t.authorityPolicyHash && At(m, 272, 32) == anchorId
              && At(m, 304, 2) == U16Le(q) && At(m, 306, 32) == challenge
  {
    hide At, Tagged, Preimage, Flatten, U64Le, U16Le;
    var fs := CertMessageFields(t, d, x, pHw, anchorId, q, challenge);
    PreimageTagged(CertMessage, fs);
    WholeLength(fs);
    Offsets13(fs);
    forall k | 0 <= k < 13 ensures At(Flatten(fs), Offset(fs, k), |fs[k]|) == fs[k] { FieldAt(fs, k); }
    assert fs[0] == t.prevRoot && fs[1] == t.nextRoot && fs[2] == U64Le(t.anchorCounter);
    assert fs[3] == U64Le(t.nextAnchorCounter) && fs[4] == d && fs[5] == x && fs[6] == pHw;
    assert fs[7] == t.recipientDeviceId && fs[8] == t.objectId && fs[9] == t.authorityPolicyHash;
    assert fs[10] == anchorId && fs[11] == U16Le(q) && fs[12] == challenge;
  }

  lemma Offsets13(fs: seq<Bytes>)
    requires |fs| == 13
    requires |fs[0]| == |fs[1]| == |fs[4]| == |fs[5]| == |fs[6]| == |fs[7]| == |fs[8]| == |fs[9]| == 32
    requires |fs[10]| == |fs[12]| == 32 && |fs[2]| == |fs[3]| == 8 && |fs[11]| == 2
    ensures Offset(fs, 0) == 0 && Offset(fs, 1) == 32 && Offset(fs, 2) == 64 && Offset(fs, 3) == 72
    ensures Offset(fs, 4) == 80 && Offset(fs, 5) == 112 && Offset(fs, 6) == 144 && Offset(fs, 7) == 176
    ensures Offset(fs, 8) == 208 && Offset(fs, 9) == 240 && Offset(fs, 10) == 272 && Offset(fs, 11) == 304
    ensures Offset(fs, 12) == 306 && Offset(fs, 13) == 338
  {
  }

  // ----- enc(Δ) -----

  /** The parts of an encoding, length prefixes apart from what they prefix. */
  function Parts(t: Transition): seq<Bytes> {
    [t.relationshipId, t.objectId, t.senderDeviceId, t.recipientDeviceId, t.prevRoot, t.nextRoot,
     U64Le(t.anchorCounter), U64Le(t.nextAnchorCounter), U32Le(t.actionType),
     Le(|t.actionFields|, 4), t.actionFields, t.payloadHash, Le(|t.oldLeafProof|, 4), t.oldLeafProof,
     Le(|t.newLeafProof|, 4), t.newLeafProof, t.authorityPolicyHash]
  }

  /** An encoding is 212 bytes of fixed fields, then the variable ones behind their
      lengths, with the payload hash after the first and the policy at the end. */
  lemma TransitionLayout(t: Transition)
    ensures var e, a, b, c := EncTransition(t), |t.actionFields|, |t.oldLeafProof|, |t.newLeafProof|;
            && |e| == 288 + a + b + c
            && At(e, 0, 32) == t.relationshipId && At(e, 32, 32) == t.objectId && At(e, 64, 32) == t.senderDeviceId
            && At(e, 96, 32) == t.recipientDeviceId && At(e, 128, 32) == t.prevRoot && At(e, 160, 32) == t.nextRoot
            && At(e, 192, 8) == U64Le(t.anchorCounter) && At(e, 200, 8) == U64Le(t.nextAnchorCounter)
            && At(e, 208, 4) == U32Le(t.actionType)
            && At(e, 212, 4) == Le(a, 4) && At(e, 216, a) == t.actionFields && At(e, 216 + a, 32) == t.payloadHash
            && At(e, 248 + a, 4) == Le(b, 4) && At(e, 252 + a, b) == t.oldLeafProof
            && At(e, 252 + a + b, 4) == Le(c, 4) && At(e, 256 + a + b, c) == t.newLeafProof
            && At(e, 256 + a + b + c, 32) == t.authorityPolicyHash
  {
    hide At, Flatten, EncTransition, U64Le, U32Le, Le;
    var ps := Parts(t);
    EncIsParts(t);
    WholeLength(ps);
    OffsetsOfParts(t);
    forall k | 0 <= k < 17 ensures At(Flatten(ps), Offset(ps, k), |ps[k]|) == ps[k] { FieldAt(ps, k); }
  }

  lemma OffsetsOfParts(t: Transition)
    ensures var fs, a, b, c := Parts(t), |t.actionFields|, |t.oldLeafProof|, |t.newLeafProof|;
            && Offset(fs, 0) == 0 && Offset(fs, 1) == 32 && Offset(fs, 2) == 64 && Offset(fs, 3) == 96
            && Offset(fs, 4) == 128 && Offset(fs, 5) == 160 && Offset(fs, 6) == 192 && Offset(fs, 7) == 200
            && Offset(fs, 8) == 208 && Offset(fs, 9) == 212 && Offset(fs, 10) == 216 && Offset(fs, 11) == 216 + a
            && Offset(fs, 12) == 248 + a && Offset(fs, 13) == 252 + a && Offset(fs, 14) == 252 + a + b
            && Offset(fs, 15) == 256 + a + b && Offset(fs, 16) == 256 + a + b + c
            && Offset(fs, 17) == 288 + a + b + c
  {
    hide U64Le, U32Le, Le;
  }

  lemma EncIsParts(t: Transition)
    ensures EncTransition(t) == Flatten(Parts(t))
  {
    hide EncTransition, Flatten, EncPrefix, PartAt;
    PartsInOrder(t);
    WholePrefix(t);
    PrefixStep(t, 0);
    FlattenNone();
    PartsUpTo(t, 9);
    PrefixStep(t, 9);
    TwoMore(t, 9);
    PrefixStep(t, 10);
    OneMore(t, 11);
    PrefixStep(t, 11);
    TwoMore(t, 12);
    PrefixStep(t, 12);
    TwoMore(t, 14);
    PrefixStep(t, 13);
    OneMore(t, 16);
    assert Parts(t)[..17] == Parts(t);
  }

  lemma FlattenNone()
    ensures Flatten([]) == []
  {
  }

  lemma OneMore(t: Transition, k: nat)
    requires k < 17
    ensures Flatten(Parts(t)[..k + 1]) == Flatten(Parts(t)[..k]) + Parts(t)[k]
  {
    hide Flatten;
    FlattenAppend(Parts(t)[..k], Parts(t)[k]);
    assert Parts(t)[..k + 1] == Parts(t)[..k] + [Parts(t)[k]];
  }

  lemma TwoMore(t: Transition, k: nat)
    requires k < 16
    ensures Flatten(Parts(t)[..k + 2]) == Flatten(Parts(t)[..k]) + (Parts(t)[k] + Parts(t)[k + 1])
  {
    hide Flatten;
    OneMore(t, k);
    OneMore(t, k + 1);
  }

  lemma {:induction false} PartsUpTo(t: Transition, k: nat)
    requires k <= 9
    ensures EncPrefix(t, k) == Flatten(Parts(t)[..k])
    decreases k
  {
    hide Flatten, EncPrefix, PartAt;
    if k == 0 {
      PrefixStep(t, 0);
      FlattenNone();
    } else {
      PartsUpTo(t, k - 1);
      PrefixStep(t, k - 1);
      PartsInOrder(t);
      OneMore(t, k - 1);
    }
  }
}
