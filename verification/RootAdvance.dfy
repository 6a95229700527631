/** Root-advance objects and their canonical encodings (`root_advance.rs`). */
module RootAdvance {
  import opened Util
  import opened Hashing

  /** The DSM transition package: the borrowed and the owned form of the source
      are one value here. */
  datatype Transition = Transition(
    relationshipId: Digest,
    objectId: Digest,
    senderDeviceId: Digest,
    recipientDeviceId: Digest,
    prevRoot: Digest,
    nextRoot: Digest,
    anchorCounter: u64,
    nextAnchorCounter: u64,
    actionType: u32,
    actionFields: Bytes,
    payloadHash: Digest,
    oldLeafProof: Bytes,
    newLeafProof: Bytes,
    authorityPolicyHash: Digest)

  datatype Certificate = Certificate(
    prevRoot: Digest,
    nextRoot: Digest,
    anchorCounter: u64,
    nextAnchorCounter: u64,
    transitionDigest: Digest,
    witnessInput: Digest,
    pkHash: Digest,
    pkHw: Bytes,
    sigma: Bytes,
    anchorId: Digest,
    slot: u16,
    receiverChallenge: Digest)

  datatype CounterEvidence = CounterEvidence(
    anchorId: Digest,
    enrolledCounter: u64,
    liveCounterClaim: u64,
    derivedIndexClaim: u64,
    verifierTranscript: Bytes)

  datatype OfflineRelease = OfflineRelease(transition: Transition, cert: Certificate, counter: CounterEvidence)

  // ----- a format is a list of fields, fixed-width or length-prefixed -----

  datatype Field = Fixed(width: nat) | Var

  predicate Fits(format: seq<Field>, fields: seq<Bytes>) {
    && |fields| == |format|
    && forall i :: 0 <= i < |format| ==>
         match format[i]
         case Fixed(n) => |fields[i]| == n
         case Var => |fields[i]| < 0x1_0000_0000
  }

  function Part(f: Field, b: Bytes): Bytes {
    match f case Fixed(_) => b case Var => VarField(b)
  }

  function Encode(format: seq<Field>, fields: seq<Bytes>): Bytes
    requires |fields| == |format|
  {
    if |format| == 0 then [] else Part(format[0], fields[0]) + Encode(format[1..], fields[1..])
  }

  function DecodePart(f: Field, b: Bytes): Option<(Bytes, Bytes)> {
    match f
    case Fixed(n) => if |b| < n then None else Some((b[..n], b[n..]))
    case Var =>
      if |b| < 4 then None else
        var n := FromLe(b[..4]);
        if |b| < 4 + n then None else Some((b[4..4 + n], b[4 + n..]))
  }

  function Decode(format: seq<Field>, b: Bytes): Option<(seq<Bytes>, Bytes)> {
    if |format| == 0 then Some(([], b)) else
      match DecodePart(format[0], b)
      case None => None
      case Some((x, rest)) =>
        match Decode(format[1..], rest)
        case None => None
        case Some((xs, tail)) => Some(([x] + xs, tail))
  }

  lemma DecodePartOfPart(f: Field, x: Bytes, rest: Bytes)
    requires Fits([f], [x])
    ensures DecodePart(f, Part(f, x) + rest) == Some((x, rest))
  {
    assert [f][0] == f && [x][0] == x;
    var b := Part(f, x) + rest;
    match f
    case Fixed(n) => assert b[..n] == x && b[n..] == rest;
    case Var =>
      LePow();
      LeKeepsLowBytes(|x|, 4);
      assert b[..4] == Le(|x|, 4);
      assert b[4..4 + |x|] == x && b[4 + |x|..] == rest;
  }

  /** Decoding undoes encoding and returns what follows untouched. */
  lemma {:induction false} DecodeOfEncode(format: seq<Field>, fields: seq<Bytes>, rest: Bytes)
    requires Fits(format, fields)
    ensures Decode(format, Encode(format, fields) + rest) == Some((fields, rest))
  {
    if |format| == 0 {
      assert Encode(format, fields) + rest == rest;
    } else {
      var tail := Encode(format[1..], fields[1..]) + rest;
      assert Encode(format, fields) + rest == Part(format[0], fields[0]) + tail;
      DecodePartOfPart(format[0], fields[0], tail);
      DecodeOfEncode(format[1..], fields[1..], rest);
      assert [fields[0]] + fields[1..] == fields;
    }
  }

  lemma PartOfDecodePart(f: Field, b: Bytes)
    requires DecodePart(f, b).Some?
    ensures var (x, rest) := DecodePart(f, b).value; Fits([f], [x]) && Part(f, x) + rest == b
  {
    var (x, rest) := DecodePart(f, b).value;
    assert [f][0] == f && [x][0] == x;
    if f.Var? {
      hide Le, FromLe;
      LePow();
      FromLeBound(b[..4]);
      LeOfFromLe(b[..4]);
      Cut(b, 4, 4 + |x|);
    } else {
      assert x + rest == b;
    }
  }

  lemma Cut(b: Bytes, i: nat, j: nat)
    requires i <= j <= |b|
    ensures (b[..i] + b[i..j]) + b[j..] == b
  {
  }

  /** Whatever decodes is the encoding of the fields it decodes to. */
  lemma {:induction false} EncodeOfDecode(format: seq<Field>, b: Bytes)
    requires Decode(format, b).Some?
    ensures var (fields, rest) := Decode(format, b).value;
            Fits(format, fields) && Encode(format, fields) + rest == b
  {
    if |format| > 0 {
      var (x, rest) := DecodePart(format[0], b).value;
      PartOfDecodePart(format[0], b);
      assert [format[0]][0] == format[0] && [x][0] == x;
      EncodeOfDecode(format[1..], rest);
      var (xs, tail) := Decode(format[1..], rest).value;
      var fields := [x] + xs;
      assert fields[1..] == xs;
      assert forall i :: 0 < i < |format| ==> fields[i] == xs[i - 1] && format[i] == format[1..][i - 1];
      assert Encode(format, fields) + tail == Part(format[0], x) + (Encode(format[1..], xs) + tail);
    }
  }

  /** An encoding may be assembled from the encodings of two halves. */
  lemma {:induction false} EncodeConcat(f: seq<Field>, a: seq<Bytes>, g: seq<Field>, b: seq<Bytes>)
    requires |a| == |f| && |b| == |g|
    ensures Encode(f + g, a + b) == Encode(f, a) + Encode(g, b)
  {
    if |f| == 0 {
      assert f + g == g && a + b == b;
    } else {
      assert (f + g)[1..] == f[1..] + g && (a + b)[1..] == a[1..] + b;
      EncodeConcat(f[1..], a[1..], g, b);
    }
  }

  // ----- enc(Δ) -----

  const TRANSITION_FORMAT: seq<Field> :=
    [Fixed(32), Fixed(32), Fixed(32), Fixed(32), Fixed(32), Fixed(32), Fixed(8), Fixed(8), Fixed(4), Var, Fixed(32),
     Var, Var, Fixed(32)]

  function Fields(t: Transition): (fs: seq<Bytes>)
    ensures |fs| == |TRANSITION_FORMAT|
  {
    [t.relationshipId, t.objectId, t.senderDeviceId, t.recipientDeviceId, t.prevRoot, t.nextRoot,
     U64Le(t.anchorCounter), U64Le(t.nextAnchorCounter), U32Le(t.actionType), t.actionFields, t.payloadHash,
     t.oldLeafProof, t.newLeafProof, t.authorityPolicyHash]
  }

  function EncTransition(t: Transition): Bytes {
    Encode(TRANSITION_FORMAT, Fields(t))
  }

  /** The variable fields are short enough for their 32-bit length prefix. */
  predicate Prefixable(t: Transition) {
    |t.actionFields| < 0x1_0000_0000 && |t.oldLeafProof| < 0x1_0000_0000 && |t.newLeafProof| < 0x1_0000_0000
  }

  function DecTransition(b: Bytes): Option<(Transition, Bytes)> {
    match Decode(TRANSITION_FORMAT, b)
    case None => None
    case Some((fs, rest)) => EncodeOfDecode(TRANSITION_FORMAT, b); Some((OfFields(fs), rest))
  }

  function OfFields(fs: seq<Bytes>): Transition
    requires Fits(TRANSITION_FORMAT, fs)
  {
    FieldWidths(fs);
    LePow();
    FromLeBound(fs[6]);
    FromLeBound(fs[7]);
    FromLeBound(fs[8]);
    Transition(fs[0], fs[1], fs[2], fs[3], fs[4], fs[5], FromLe(fs[6]), FromLe(fs[7]), FromLe(fs[8]), fs[9], fs[10],
               fs[11], fs[12], fs[13])
  }

  lemma FieldWidths(fs: seq<Bytes>)
    requires Fits(TRANSITION_FORMAT, fs)
    ensures |fs| == 14
    ensures forall i :: i in {0, 1, 2, 3, 4, 5, 10, 13} ==> |fs[i]| == 32
    ensures |fs[6]| == 8 && |fs[7]| == 8 && |fs[8]| == 4
    ensures forall i :: i in {9, 11, 12} ==> |fs[i]| < 0x1_0000_0000
  {
    var f := TRANSITION_FORMAT;
    assert f[0] == f[1] == f[2] == f[3] == f[4] == f[5] == f[10] == f[13] == Fixed(32);
    assert f[6] == f[7] == Fixed(8) && f[8] == Fixed(4) && f[9] == f[11] == f[12] == Var;
  }

  lemma OfFieldsOfTransition(t: Transition)
    requires Prefixable(t)
    ensures Fits(TRANSITION_FORMAT, Fields(t)) && OfFields(Fields(t)) == t
  {
    IntegersRoundTrip(0, t.actionType, t.anchorCounter);
    IntegersRoundTrip(0, 0, t.nextAnchorCounter);
  }

  lemma FieldsOfOfFields(fs: seq<Bytes>)
    requires Fits(TRANSITION_FORMAT, fs)
    ensures Fields(OfFields(fs)) == fs && Prefixable(OfFields(fs))
  {
    hide Le, FromLe;
    FieldWidths(fs);
    LeOfFromLe(fs[6]);
    LeOfFromLe(fs[7]);
    LeOfFromLe(fs[8]);
  }

  /** enc(Δ) is uniquely decodable: the decoder returns the transition and what
      follows it, and accepts nothing but encodings. */
  lemma TransitionDecodable(t: Transition, b: Bytes, rest: Bytes)
    requires Prefixable(t)
    ensures b == EncTransition(t) + rest <==> DecTransition(b) == Some((t, rest))
  {
    OfFieldsOfTransition(t);
    DecodeOfEncode(TRANSITION_FORMAT, Fields(t), rest);
    if DecTransition(b) == Some((t, rest)) {
      EncodeOfDecode(TRANSITION_FORMAT, b);
      FieldsOfOfFields(Decode(TRANSITION_FORMAT, b).value.0);
    }
  }

  /** Hence no encoding is a proper prefix of another, and equal encodings come
      from equal transitions. */
  lemma TransitionPrefixFree(t: Transition, u: Transition)
    requires Prefixable(t) && Prefixable(u)
    ensures EncTransition(t) <= EncTransition(u) ==> t == u
  {
    var a, b := EncTransition(t), EncTransition(u);
    if a <= b {
      assert b == a + b[|a|..] && b == b + [];
      TransitionDecodable(t, b, b[|a|..]);
      TransitionDecodable(u, b, []);
    }
  }

  /** At 2^32 bytes the prefix wraps to zero and two different transitions, whose
      fields are no longer than that, share an encoding. */
  lemma LongFieldsAlias()
    ensures exists t, u :: Within(t, 0x1_0000_0000) && Within(u, 0x1_0000_0000) && t != u
              && |t.actionFields| == |u.oldLeafProof| == 0x1_0000_0000
              && EncTransition(t) == EncTransition(u)
  {
    hide EncTransition;
    var z: Digest := seq(32, _ => 0);
    var long: Bytes := seq(0x1_0000_0000, _ => 0);
    var t := Transition(z, z, z, z, z, z, 0, 0, 0, long, z, [], [], z);
    var u := t.(actionFields := [], oldLeafProof := long);
    assert |t.actionFields| != |u.actionFields|;
    MiddleOfZeros(long);
    SameOutsideMiddle(t, u);
  }

  /** The variable fields have at most `cap` bytes. */
  predicate Within(t: Transition, cap: nat) {
    |t.actionFields| <= cap && |t.oldLeafProof| <= cap && |t.newLeafProof| <= cap
  }

  /** Among the transitions within a cap the encoding is injective. */
  ghost predicate InjectiveWithin(cap: nat) {
    forall t, u :: Within(t, cap) && Within(u, cap) && EncTransition(t) == EncTransition(u) ==> t == u
  }

  /** The encoder keeps transitions apart, exactly: for any cap on the variable
      fields it is injective within the cap if and only if the cap fits the
      32-bit length prefix. */
  lemma InjectiveExactly(cap: nat)
    ensures InjectiveWithin(cap) <==> cap < 0x1_0000_0000
  {
    hide EncTransition;
    if cap < 0x1_0000_0000 {
      forall t, u | Within(t, cap) && Within(u, cap) && EncTransition(t) == EncTransition(u)
        ensures t == u
      {
        TransitionPrefixFree(t, u);
      }
    } else {
      LongFieldsAlias();
      var t, u :| Within(t, 0x1_0000_0000) && Within(u, 0x1_0000_0000) && t != u
                  && EncTransition(t) == EncTransition(u);
      assert Within(t, cap) && Within(u, cap);
    }
  }

  lemma MiddleOfZeros(long: Bytes)
    requires |long| == 0x1_0000_0000 && forall j :: 0 <= j < |long| ==> long[j] == 0
    ensures var z: Digest := seq(32, _ => 0);
            VarField(long) + z + VarField([]) == VarField([]) + z + VarField(long)
  {
    WrappedPrefix();
    var z: Digest := seq(32, _ => 0);
    var m, n := VarField(long) + z + VarField([]), VarField([]) + z + VarField(long);
    assert |m| == |n| && forall j :: 0 <= j < |m| ==> m[j] == 0 == n[j];
  }

  lemma SameOutsideMiddle(t: Transition, u: Transition)
    requires u == t.(actionFields := u.actionFields, oldLeafProof := u.oldLeafProof)
    requires Middle(t) == Middle(u)
    ensures EncTransition(t) == EncTransition(u)
  {
    SplitEncoding(t);
    SplitEncoding(u);
    assert Fields(t)[..9] == Fields(u)[..9] && Fields(t)[12..] == Fields(u)[12..];
  }

  lemma WrappedPrefix()
    ensures Le(0x1_0000_0000, 4) == Le(0, 4) == [0, 0, 0, 0]
  {
    LePow();
    LeKeepsLowBytes(0x1_0000_0000, 4);
    LeKeepsLowBytes(0, 4);
    LeOfFromLe(Le(0x1_0000_0000, 4));
    LeOfFromLe([0, 0, 0, 0]);
    assert FromLe([0, 0, 0, 0]) == 0;
  }

  function Middle(t: Transition): Bytes {
    VarField(t.actionFields) + t.payloadHash + VarField(t.oldLeafProof)
  }

  lemma SplitEncoding(t: Transition)
    ensures var f, a := TRANSITION_FORMAT, Fields(t);
            EncTransition(t) == Encode(f[..9], a[..9]) + Middle(t) + Encode(f[12..], a[12..])
  {
    hide Encode;
    var f, a := TRANSITION_FORMAT, Fields(t);
    SplitAt(f, a, 9);
    SplitAt(f[9..], a[9..], 3);
    assert f[9..][3..] == f[12..] && a[9..][3..] == a[12..];
    EncodeMiddle(t);
    assert f[9..][..3] == [Var, Fixed(32), Var] && a[9..][..3] == [t.actionFields, t.payloadHash, t.oldLeafProof];
  }

  lemma SplitAt(f: seq<Field>, a: seq<Bytes>, k: nat)
    requires k <= |f| == |a|
    ensures Encode(f, a) == Encode(f[..k], a[..k]) + Encode(f[k..], a[k..])
  {
    assert f == f[..k] + f[k..] && a == a[..k] + a[k..];
    EncodeConcat(f[..k], a[..k], f[k..], a[k..]);
  }

  lemma EncodeMiddle(t: Transition)
    ensures Encode([Var, Fixed(32), Var], [t.actionFields, t.payloadHash, t.oldLeafProof]) == Middle(t)
  {
    var f, a := [Var, Fixed(32), Var], [t.actionFields, t.payloadHash, t.oldLeafProof];
    assert f[1..] == [Fixed(32), Var] && a[1..] == [t.payloadHash, t.oldLeafProof];
    assert f[1..][1..] == [Var] && a[1..][1..] == [t.oldLeafProof];
    assert Encode([Var], [t.oldLeafProof]) == VarField(t.oldLeafProof) + Encode([Var][1..], [t.oldLeafProof][1..]);
  }

  /** The encoder of the source, appending field by field to one buffer. */
  method EncodeTransition(t: Transition) returns (v: Bytes)
    ensures v == EncTransition(t)
  {
    hide *;
    PartsInOrder(t);
    var buf := new ByteBuf();
    buf.Extend(t.relationshipId);
    PrefixStep(t, 0);
    buf.Extend(t.objectId);
    PrefixStep(t, 1);
    buf.Extend(t.senderDeviceId);
    PrefixStep(t, 2);
    buf.Extend(t.recipientDeviceId);
    PrefixStep(t, 3);
    buf.Extend(t.prevRoot);
    PrefixStep(t, 4);
    buf.Extend(t.nextRoot);
    PrefixStep(t, 5);
    assert buf.data == EncPrefix(t, 6);
    buf.Extend(U64Le(t.anchorCounter));
    PrefixStep(t, 6);
    buf.Extend(U64Le(t.nextAnchorCounter));
    PrefixStep(t, 7);
    buf.Extend(U32Le(t.actionType));
    PrefixStep(t, 8);
    assert buf.data == EncPrefix(t, 9);
    buf.PushVar(t.actionFields);
    PrefixStep(t, 9);
    buf.Extend(t.payloadHash);
    PrefixStep(t, 10);
    buf.PushVar(t.oldLeafProof);
    PrefixStep(t, 11);
    buf.PushVar(t.newLeafProof);
    PrefixStep(t, 12);
    buf.Extend(t.authorityPolicyHash);
    PrefixStep(t, 13);
    WholePrefix(t);
    v := buf.data;
  }

  function EncPrefix(t: Transition, k: nat): Bytes
    requires k <= 14
  {
    Encode(TRANSITION_FORMAT[..k], Fields(t)[..k])
  }

  lemma WholePrefix(t: Transition)
    ensures EncPrefix(t, 14) == EncTransition(t)
  {
    assert TRANSITION_FORMAT[..14] == TRANSITION_FORMAT && Fields(t)[..14] == Fields(t);
  }

  function PartAt(t: Transition, k: nat): Bytes
    requires k < 14
  {
    if k in {9, 11, 12} then VarField(Fields(t)[k]) else Fields(t)[k]
  }

  lemma PartsInOrder(t: Transition)
    ensures PartAt(t, 0) == t.relationshipId && PartAt(t, 1) == t.objectId && PartAt(t, 2) == t.senderDeviceId
    ensures PartAt(t, 3) == t.recipientDeviceId && PartAt(t, 4) == t.prevRoot && PartAt(t, 5) == t.nextRoot
    ensures PartAt(t, 6) == U64Le(t.anchorCounter) && PartAt(t, 7) == U64Le(t.nextAnchorCounter)
    ensures PartAt(t, 8) == U32Le(t.actionType) && PartAt(t, 9) == VarField(t.actionFields)
    ensures PartAt(t, 10) == t.payloadHash && PartAt(t, 11) == VarField(t.oldLeafProof)
    ensures PartAt(t, 12) == VarField(t.newLeafProof) && PartAt(t, 13) == t.authorityPolicyHash
  {
  }

  lemma PrefixStep(t: Transition, k: nat)
    requires k < 14
    ensures EncPrefix(t, 0) == []
    ensures EncPrefix(t, k + 1) == EncPrefix(t, k) + PartAt(t, k)
  {
    var f, a := TRANSITION_FORMAT, Fields(t);
    assert f[..k + 1] == f[..k] + [f[k]] && a[..k + 1] == a[..k] + [a[k]];
    EncodeConcat(f[..k], a[..k], [f[k]], [a[k]]);
    assert Encode([f[k]], [a[k]]) == Part(f[k], a[k]) + Encode([f[k]][1..], [a[k]][1..]);
  }

  // ----- D, X, K, P_hw and M -----

  function TransitionDigestOf(o: Hashes, t: Transition): Digest {
    o.H(TransitionDigest, [EncTransition(t)])
  }

  function WitnessInputFields(t: Transition, d: Digest, anchorId: Digest, q: u16, challenge: Digest): seq<Bytes> {
    [t.prevRoot, t.nextRoot, U64Le(t.anchorCounter), U64Le(t.nextAnchorCounter), d, t.recipientDeviceId, t.objectId,
     t.authorityPolicyHash, anchorId, U16Le(q), challenge]
  }

  function WitnessInputOf(o: Hashes, t: Transition, d: Digest, anchorId: Digest, q: u16, challenge: Digest): Digest {
    o.H(RootAdvanceInput, WitnessInputFields(t, d, anchorId, q, challenge))
  }

  function WitnessKeyFields(x: Digest, t: Transition, anchorId: Digest, q: u16): seq<Bytes> {
    [x, t.prevRoot, t.nextRoot, U64Le(t.anchorCounter), U64Le(t.nextAnchorCounter), anchorId, U16Le(q),
     t.authorityPolicyHash]
  }

  function WitnessKeyMaterial(o: Hashes, w: Digest, x: Digest, t: Transition, anchorId: Digest, q: u16): Digest {
    o.Kdf(w, WitnessKey, WitnessKeyFields(x, t, anchorId, q))
  }

  function PkHashOf(o: Hashes, pkHw: Bytes): Digest {
    o.H(PkHash, [pkHw])
  }

  function CertMessageFields(t: Transition, d: Digest, x: Digest, pHw: Digest, anchorId: Digest, q: u16,
                             challenge: Digest): seq<Bytes> {
    [t.prevRoot, t.nextRoot, U64Le(t.anchorCounter), U64Le(t.nextAnchorCounter), d, x, pHw, t.recipientDeviceId,
     t.objectId, t.authorityPolicyHash, anchorId, U16Le(q), challenge]
  }

  function CertMessageOf(o: Hashes, t: Transition, d: Digest, x: Digest, pHw: Digest, anchorId: Digest, q: u16,
                         challenge: Digest): Digest {
    o.H(CertMessage, CertMessageFields(t, d, x, pHw, anchorId, q, challenge))
  }

  /** Everything a certificate message is computed from. */
  datatype Binding = Binding(t: Transition, anchorId: Digest, slot: u16, challenge: Digest, pkHw: Bytes)
  {
    function D(o: Hashes): Digest { TransitionDigestOf(o, t) }

    function X(o: Hashes): Digest { WitnessInputOf(o, t, D(o), anchorId, slot, challenge) }

    function M(o: Hashes): Digest {
      CertMessageOf(o, t, D(o), X(o), PkHashOf(o, pkHw), anchorId, slot, challenge)
    }

    function DPreimage(): Bytes { Preimage(TransitionDigest, [EncTransition(t)]) }

    function XPreimage(o: Hashes): Bytes {
      Preimage(RootAdvanceInput, WitnessInputFields(t, D(o), anchorId, slot, challenge))
    }

    function MPreimage(o: Hashes): Bytes {
      Preimage(CertMessage, CertMessageFields(t, D(o), X(o), PkHashOf(o, pkHw), anchorId, slot, challenge))
    }
  }

  /** The message `M` pins the transition, the anchor, the slot and the
      challenge: two bindings with one message agree on all of them, or their
      own preimages collide. */
  lemma MessageBinds(o: Hashes, a: Binding, b: Binding)
    requires Prefixable(a.t) && Prefixable(b.t)
    requires a.M(o) == b.M(o)
    ensures || (a.t == b.t && a.anchorId == b.anchorId && a.slot == b.slot && a.challenge == b.challenge)
            || o.Collide(a.MPreimage(o), b.MPreimage(o))
            || o.Collide(a.DPreimage(), b.DPreimage())
  {
    if a.MPreimage(o) == b.MPreimage(o) {
      var fa := CertMessageFields(a.t, a.D(o), a.X(o), PkHashOf(o, a.pkHw), a.anchorId, a.slot, a.challenge);
      var fb := CertMessageFields(b.t, b.D(o), b.X(o), PkHashOf(o, b.pkHw), b.anchorId, b.slot, b.challenge);
      PreimageInjective(CertMessage, fa, fb);
      assert fa[4] == fb[4] && fa[10] == fb[10] && fa[11] == fb[11] && fa[12] == fb[12];
      IntegersRoundTrip(a.slot, 0, 0);
      IntegersRoundTrip(b.slot, 0, 0);
      DigestBinds(o, a.t, b.t);
    }
  }

  /** What `M` covers, field by field: besides the two roots and counters also the
      digest, the witness input, the key handle, the recipient, the object and the
      policy; and through the handle the public key itself. */
  lemma MessageCovers(o: Hashes, a: Binding, b: Binding)
    requires a.M(o) == b.M(o)
    ensures || o.Collide(a.MPreimage(o), b.MPreimage(o))
            || (&& a.t.prevRoot == b.t.prevRoot && a.t.nextRoot == b.t.nextRoot
                && a.t.anchorCounter == b.t.anchorCounter && a.t.nextAnchorCounter == b.t.nextAnchorCounter
                && a.D(o) == b.D(o) && a.X(o) == b.X(o) && PkHashOf(o, a.pkHw) == PkHashOf(o, b.pkHw)
                && a.t.recipientDeviceId == b.t.recipientDeviceId && a.t.objectId == b.t.objectId
                && a.t.authorityPolicyHash == b.t.authorityPolicyHash
                && a.anchorId == b.anchorId && a.slot == b.slot && a.challenge == b.challenge
                && (a.pkHw == b.pkHw || o.Collide(Preimage(PkHash, [a.pkHw]), Preimage(PkHash, [b.pkHw]))))
  {
    hide TransitionDigestOf, WitnessInputOf, PkHashOf;
    if a.MPreimage(o) == b.MPreimage(o) {
      var fa := CertMessageFields(a.t, a.D(o), a.X(o), PkHashOf(o, a.pkHw), a.anchorId, a.slot, a.challenge);
      var fb := CertMessageFields(b.t, b.D(o), b.X(o), PkHashOf(o, b.pkHw), b.anchorId, b.slot, b.challenge);
      PreimageInjective(CertMessage, fa, fb);
      forall i | 0 <= i < 13 ensures fa[i] == fb[i] {}
      IntegersBind(a.t, a.slot, b.t, b.slot);
      PkHashBinds(o, a.pkHw, b.pkHw);
    }
  }

  lemma IntegersBind(t: Transition, p: u16, u: Transition, q: u16)
    ensures U64Le(t.anchorCounter) == U64Le(u.anchorCounter) ==> t.anchorCounter == u.anchorCounter
    ensures U64Le(t.nextAnchorCounter) == U64Le(u.nextAnchorCounter) ==> t.nextAnchorCounter == u.nextAnchorCounter
    ensures U16Le(p) == U16Le(q) ==> p == q
  {
    hide U64Le, U16Le;
    IntegersRoundTrip(p, 0, t.anchorCounter);
    IntegersRoundTrip(q, 0, u.anchorCounter);
    IntegersRoundTrip(p, 0, t.nextAnchorCounter);
    IntegersRoundTrip(q, 0, u.nextAnchorCounter);
  }

  lemma DigestBinds(o: Hashes, t: Transition, u: Transition)
    requires Prefixable(t) && Prefixable(u)
    requires TransitionDigestOf(o, t) == TransitionDigestOf(o, u)
    ensures var x, y := Preimage(TransitionDigest, [EncTransition(t)]), Preimage(TransitionDigest, [EncTransition(u)]);
            t == u || o.Collide(x, y)
  {
    var a, b := EncTransition(t), EncTransition(u);
    if Preimage(TransitionDigest, [a]) == Preimage(TransitionDigest, [b]) {
      var tag := Ascii(TransitionDigest.Tag());
      PreimageOfOne(TransitionDigest, a);
      PreimageOfOne(TransitionDigest, b);
      assert (tag + a)[|tag|..] == a && (tag + b)[|tag|..] == b;
      TransitionPrefixFree(t, u);
    }
  }

  /** The public-key handle pins the public key. */
  lemma PkHashBinds(o: Hashes, a: Bytes, b: Bytes)
    requires PkHashOf(o, a) == PkHashOf(o, b)
    ensures a == b || o.Collide(Preimage(PkHash, [a]), Preimage(PkHash, [b]))
  {
    if Preimage(PkHash, [a]) == Preimage(PkHash, [b]) {
      var tag := Ascii(PkHash.Tag());
      PreimageOfOne(PkHash, a);
      PreimageOfOne(PkHash, b);
      assert (tag + a)[|tag|..] == a && (tag + b)[|tag|..] == b;
    }
  }

  /** One derivation of a witness key: the chip's answer `w` for a transition and
      a challenge on a given appliance. */
  datatype Derivation = Derivation(w: Digest, t: Transition, anchorId: Digest, slot: u16, challenge: Digest)
  {
    function X(o: Hashes): Digest {
      WitnessInputOf(o, t, TransitionDigestOf(o, t), anchorId, slot, challenge)
    }

    function K(o: Hashes): Digest { WitnessKeyMaterial(o, w, X(o), t, anchorId, slot) }

    function KPreimage(o: Hashes): Bytes { Preimage(WitnessKey, WitnessKeyFields(X(o), t, anchorId, slot)) }

    function XPreimage(o: Hashes): Bytes {
      Preimage(RootAdvanceInput, WitnessInputFields(t, TransitionDigestOf(o, t), anchorId, slot, challenge))
    }

    /** The message signed under this key, given the public key it yields. */
    function M(o: Hashes, pkHw: Bytes): Digest { Binding(t, anchorId, slot, challenge, pkHw).M(o) }
  }

  /** What the witness input covers, field by field. */
  lemma InputCovers(o: Hashes, a: Derivation, b: Derivation)
    requires a.X(o) == b.X(o)
    ensures || o.Collide(a.XPreimage(o), b.XPreimage(o))
            || (&& a.t.prevRoot == b.t.prevRoot && a.t.nextRoot == b.t.nextRoot
                && a.t.anchorCounter == b.t.anchorCounter && a.t.nextAnchorCounter == b.t.nextAnchorCounter
                && TransitionDigestOf(o, a.t) == TransitionDigestOf(o, b.t)
                && a.t.recipientDeviceId == b.t.recipientDeviceId && a.t.objectId == b.t.objectId
                && a.t.authorityPolicyHash == b.t.authorityPolicyHash
                && a.anchorId == b.anchorId && a.slot == b.slot && a.challenge == b.challenge)
  {
    hide TransitionDigestOf;
    if a.XPreimage(o) == b.XPreimage(o) {
      var fa := WitnessInputFields(a.t, TransitionDigestOf(o, a.t), a.anchorId, a.slot, a.challenge);
      var fb := WitnessInputFields(b.t, TransitionDigestOf(o, b.t), b.anchorId, b.slot, b.challenge);
      PreimageInjective(RootAdvanceInput, fa, fb);
      forall i | 0 <= i < 11 ensures fa[i] == fb[i] {}
      IntegersBind(a.t, a.slot, b.t, b.slot);
    }
  }

  /** What the key seed covers, field by field and by itself: no collision of the
      witness input is among the alternatives. */
  lemma SeedCovers(o: Hashes, a: Derivation, b: Derivation)
    requires a.K(o) == b.K(o)
    ensures || o.KdfCollide(a.w, a.KPreimage(o), b.w, b.KPreimage(o))
            || (&& a.w == b.w && a.X(o) == b.X(o)
                && a.t.prevRoot == b.t.prevRoot && a.t.nextRoot == b.t.nextRoot
                && a.t.anchorCounter == b.t.anchorCounter && a.t.nextAnchorCounter == b.t.nextAnchorCounter
                && a.anchorId == b.anchorId && a.slot == b.slot
                && a.t.authorityPolicyHash == b.t.authorityPolicyHash)
  {
    hide Derivation.X;
    if a.KPreimage(o) == b.KPreimage(o) {
      var fa := WitnessKeyFields(a.X(o), a.t, a.anchorId, a.slot);
      var fb := WitnessKeyFields(b.X(o), b.t, b.anchorId, b.slot);
      PreimageInjective(WitnessKey, fa, fb);
      forall i | 0 <= i < 8 ensures fa[i] == fb[i] {}
      IntegersBind(a.t, a.slot, b.t, b.slot);
    }
  }

  /** The witness input covers everything the message does, but for the key. */
  lemma InputFixesMessage(o: Hashes, a: Derivation, b: Derivation, pkHw: Bytes)
    requires a.XPreimage(o) == b.XPreimage(o)
    ensures a.X(o) == b.X(o) && a.M(o, pkHw) == b.M(o, pkHw)
  {
    var da, db := TransitionDigestOf(o, a.t), TransitionDigestOf(o, b.t);
    var xa := WitnessInputFields(a.t, da, a.anchorId, a.slot, a.challenge);
    var xb := WitnessInputFields(b.t, db, b.anchorId, b.slot, b.challenge);
    hide TransitionDigestOf, PkHashOf;
    PreimageInjective(RootAdvanceInput, xa, xb);
    forall i | 0 <= i < 11 ensures xa[i] == xb[i] {}
    assert CertMessageFields(a.t, da, a.X(o), PkHashOf(o, pkHw), a.anchorId, a.slot, a.challenge) ==
           [xa[0], xa[1], xa[2], xa[3], xa[4], a.X(o), PkHashOf(o, pkHw), xa[5], xa[6], xa[7], xa[8], xa[9], xa[10]];
    assert CertMessageFields(b.t, db, b.X(o), PkHashOf(o, pkHw), b.anchorId, b.slot, b.challenge) ==
           [xb[0], xb[1], xb[2], xb[3], xb[4], b.X(o), PkHashOf(o, pkHw), xb[5], xb[6], xb[7], xb[8], xb[9], xb[10]];
  }

  lemma KeyInputFixesInput(o: Hashes, a: Derivation, b: Derivation)
    requires a.KPreimage(o) == b.KPreimage(o)
    ensures a.X(o) == b.X(o)
  {
    hide Derivation.X;
    var ka := WitnessKeyFields(a.X(o), a.t, a.anchorId, a.slot);
    var kb := WitnessKeyFields(b.X(o), b.t, b.anchorId, b.slot);
    PreimageInjective(WitnessKey, ka, kb);
    assert ka[0] == kb[0];
  }

  /** One-time use, per pair: whatever the chip answered, two derivations of the
      same seed lead to the same message, or their own preimages collide. */
  lemma SeedFixesMessage(o: Hashes, a: Derivation, b: Derivation, pkHw: Bytes)
    requires a.K(o) == b.K(o)
    ensures || a.M(o, pkHw) == b.M(o, pkHw)
            || o.KdfCollide(a.w, a.KPreimage(o), b.w, b.KPreimage(o))
            || o.Collide(a.XPreimage(o), b.XPreimage(o))
  {
    hide WitnessKeyFields, WitnessInputFields, TransitionDigestOf, Derivation.M, Preimage;
    if a.KPreimage(o) == b.KPreimage(o) {
      KeyInputFixesInput(o, a, b);
      if a.XPreimage(o) == b.XPreimage(o) { InputFixesMessage(o, a, b, pkHw); }
    }
  }
}
