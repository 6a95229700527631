/** The one-time witness signature (`sig.rs`): 67 hash chains, 64 for the message
    digits and 3 for the checksum of RFC 8391, sections 3.1.1 and 3.1.5. */
module Wots {
  import opened Util
  import opened Hashing

  const W := 16
  const LEN1 := 64
  const LEN2 := 3
  const LEN := LEN1 + LEN2
  const N := 32
  const SIG_LEN := 2144

  type Digits = s: seq<nat> | |s| == LEN && forall i :: 0 <= i < LEN ==> s[i] < W witness seq(LEN, _ => 0)

  // ----- chains -----

  function F(o: Hashes, x: Digest): Digest {
    o.H(WotsChain, [x])
  }

  function Chain(o: Hashes, x: Digest, steps: nat): Digest
    decreases steps
  {
    if steps == 0 then x else Chain(o, F(o, x), steps - 1)
  }

  method ChainLoop(o: Hashes, start: Digest, steps: nat) returns (x: Digest)
    ensures x == Chain(o, start, steps)
  {
    x := start;
    for i := 0 to steps
      invariant Chain(o, x, steps - i) == Chain(o, start, steps)
    {
      x := F(o, x);
    }
  }

  lemma {:induction false} ChainAdd(o: Hashes, x: Digest, a: nat, b: nat)
    ensures Chain(o, Chain(o, x, a), b) == Chain(o, x, a + b)
    decreases a
  {
    if a > 0 { ChainAdd(o, F(o, x), a - 1, b); }
  }

  /** Two different chain elements whose chains have met after `k` steps: the
      step at which they meet. */
  function MeetingStep(o: Hashes, x: Digest, y: Digest, k: nat): (j: nat)
    requires x != y && Chain(o, x, k) == Chain(o, y, k)
    ensures j < k && Chain(o, x, j) != Chain(o, y, j)
    ensures F(o, Chain(o, x, j)) == F(o, Chain(o, y, j))
    decreases k
  {
    if F(o, x) == F(o, y) then 0 else
      var j := MeetingStep(o, F(o, x), F(o, y), k - 1);
      j + 1
  }

  /** `x` and `y` are different inputs of one chain step with the same output:
      two named preimages that collide. */
  ghost predicate StepCollision(o: Hashes, x: Digest, y: Digest) {
    o.Collide(Preimage(WotsChain, [x]), Preimage(WotsChain, [y]))
  }

  /** The chains from `y` and `z` run into a collision at step `j`. */
  ghost predicate MeetAt(o: Hashes, y: Digest, z: Digest, j: nat) {
    StepCollision(o, Chain(o, y, j), Chain(o, z, j))
  }

  lemma StepCollides(o: Hashes, x: Digest, y: Digest)
    requires x != y && F(o, x) == F(o, y)
    ensures StepCollision(o, x, y)
  {
    var t := Ascii(WotsChain.Tag());
    PreimageOfOne(WotsChain, x);
    PreimageOfOne(WotsChain, y);
    assert (t + x)[|t|..] == x && (t + y)[|t|..] == y;
  }

  // ----- digits -----

  function Sum(s: seq<nat>): nat {
    if |s| == 0 then 0 else s[0] + Sum(s[1..])
  }

  function Nibble(d: Digest, i: nat): nat
    requires i < LEN1
  {
    if i % 2 == 0 then d[i / 2] / 16 else d[i / 2] % 16
  }

  function Nibbles(d: Digest): (s: seq<nat>)
    ensures |s| == LEN1 && forall i :: 0 <= i < LEN1 ==> s[i] < W
  {
    seq(LEN1, i requires 0 <= i < LEN1 => Nibble(d, i))
  }

  /** The message digits spell the digest: two per byte, the high one first. */
  lemma DigitsSpell(d: Digest, i: nat)
    requires i < 32
    ensures 16 * DigitsOf(d)[2 * i] + DigitsOf(d)[2 * i + 1] == d[i]
  {
    assert DigitsOf(d)[2 * i] == Nibble(d, 2 * i) && DigitsOf(d)[2 * i + 1] == Nibble(d, 2 * i + 1);
  }

  /** The checksum: what the message digits lack to the largest digit sum. */
  function Checksum(s: seq<nat>): int { 15 * |s| - Sum(s) }

  lemma {:induction false} ChecksumRange(s: seq<nat>)
    requires forall i :: 0 <= i < |s| ==> s[i] < W
    ensures 0 <= Checksum(s) <= 15 * |s|
  {
    if |s| > 0 { ChecksumRange(s[1..]); }
  }

  function DigitsOf(d: Digest): Digits {
    ChecksumRange(Nibbles(d));
    var c: nat := Checksum(Nibbles(d));
    Nibbles(d) + [c / 256 % 16, c / 16 % 16, c % 16]
  }

  lemma {:induction false} SumAppend(s: seq<nat>, x: nat)
    ensures Sum(s + [x]) == Sum(s) + x
  {
    if |s| == 0 {
      assert (s + [x])[1..] == [];
    } else {
      assert (s + [x])[1..] == s[1..] + [x];
      SumAppend(s[1..], x);
    }
  }

  /** The digit loop of the source: nibbles by shift and mask, then the checksum
      accumulated over the message digits. */
  method DigitsLoop(d: Digest) returns (out: array<nat>)
    ensures fresh(out) && out[..] == DigitsOf(d)
  {
    out := new nat[LEN](_ => 0);
    for i := 0 to |d|
      invariant forall k :: 0 <= k < 2 * i ==> out[k] == Nibble(d, k)
    {
      out[2 * i] := d[i] / 16;
      out[2 * i + 1] := d[i] % 16;
    }
    assert out[..LEN1] == Nibbles(d);
    var csum: u32 := 0;
    for i := 0 to LEN1
      invariant out[..LEN1] == Nibbles(d)
      invariant csum == 15 * i - Sum(out[..i])
      invariant csum <= 15 * i
    {
      assert out[i] == out[..LEN1][i] < W;
      SumAppend(out[..i], out[i]);
      assert out[..i + 1] == out[..i] + [out[i]];
      csum := csum + ((W - 1) - out[i]);
    }
    out[LEN1] := csum / 256 % 16;
    out[LEN1 + 1] := csum / 16 % 16;
    out[LEN1 + 2] := csum % 16;
    assert out[..LEN1] == Nibbles(d);
    assert out[..] == DigitsOf(d);
  }

  /** The value of the three checksum digits, most significant first. */
  function ChecksumValue(s: Digits): nat { 256 * s[LEN1] + 16 * s[LEN1 + 1] + s[LEN1 + 2] }

  /** Checksum theorem: shifts and masks lose nothing, so message digits and
      checksum always add up to 960. */
  lemma DigitSum(d: Digest)
    ensures Sum(DigitsOf(d)[..LEN1]) + ChecksumValue(DigitsOf(d)) == 960
  {
    var s := DigitsOf(d);
    assert s[..LEN1] == Nibbles(d);
    ChecksumRange(Nibbles(d));
    Base16(960 - Sum(Nibbles(d)));
  }

  lemma Base16(c: nat)
    requires c < 4096
    ensures 256 * (c / 256 % 16) + 16 * (c / 16 % 16) + c % 16 == c
  {
  }

  lemma {:induction false} SumMonotone(s: seq<nat>, t: seq<nat>)
    requires |s| == |t| && forall i :: 0 <= i < |s| ==> s[i] <= t[i]
    ensures Sum(s) <= Sum(t)
    ensures Sum(s) == Sum(t) ==> s == t
  {
    if |s| > 0 {
      SumMonotone(s[1..], t[1..]);
      assert s == [s[0]] + s[1..] && t == [t[0]] + t[1..];
    }
  }

  lemma NibblesDetermine(d: Digest, e: Digest)
    requires Nibbles(d) == Nibbles(e)
    ensures d == e
  {
    forall i | 0 <= i < 32
      ensures d[i] == e[i]
    {
      assert Nibbles(d)[2 * i] == Nibble(d, 2 * i) && Nibbles(d)[2 * i + 1] == Nibble(d, 2 * i + 1);
      assert Nibbles(e)[2 * i] == Nibble(e, 2 * i) && Nibbles(e)[2 * i + 1] == Nibble(e, 2 * i + 1);
    }
  }

  /** Hence digit vectors form an antichain: of two different digests, each has a
      digit strictly below the other's. */
  lemma DigitsAntichain(d: Digest, e: Digest) returns (i: nat)
    requires d != e
    ensures i < LEN && DigitsOf(e)[i] < DigitsOf(d)[i]
  {
    var s, t := DigitsOf(d), DigitsOf(e);
    if i' :| 0 <= i' < LEN && t[i'] < s[i'] {
      i := i';
    } else {
      assert forall k :: 0 <= k < LEN ==> s[k] <= t[k];
      SumMonotone(s[..LEN1], t[..LEN1]);
      DigitSum(d);
      DigitSum(e);
      assert s[..LEN1] == Nibbles(d) && t[..LEN1] == Nibbles(e);
      NibblesDetermine(d, e);
      assert false;
    }
  }

  // ----- key generation, signing, verification -----

  function ChainSecret(o: Hashes, seed: Digest, i: nat): Digest {
    o.Kdf(seed, WotsSk, [Le(i, 2)])
  }

  /** The chains start from secrets of their own: two of them are equal only if the
      two named derivations collide. */
  lemma ChainSecretsDiffer(o: Hashes, seed: Digest, i: nat, j: nat)
    requires i < j < LEN && ChainSecret(o, seed, i) == ChainSecret(o, seed, j)
    ensures o.KdfCollide(seed, Preimage(WotsSk, [Le(i, 2)]), seed, Preimage(WotsSk, [Le(j, 2)]))
  {
    LePow();
    LeKeepsLowBytes(i, 2);
    LeKeepsLowBytes(j, 2);
    var x, y := [Le(i, 2)], [Le(j, 2)];
    assert x[0] != y[0];
    if Preimage(WotsSk, x) == Preimage(WotsSk, y) { PreimageInjective(WotsSk, x, y); }
  }

  function Tops(o: Hashes, seed: Digest): (tops: seq<Digest>)
    ensures |tops| == LEN
  {
    seq(LEN, i requires 0 <= i < LEN => Chain(o, ChainSecret(o, seed, i), W - 1))
  }

  function PkPreimage(tops: seq<Digest>): Bytes { Preimage(WotsPk, [Flatten(tops)]) }

  function Compress(o: Hashes, tops: seq<Digest>): Digest { o.H(WotsPk, [Flatten(tops)]) }

  function PublicKey(o: Hashes, seed: Digest): Digest { Compress(o, Tops(o, seed)) }

  function Blocks(o: Hashes, seed: Digest, d: Digest): (bs: seq<Digest>)
    ensures |bs| == LEN
  {
    seq(LEN, i requires 0 <= i < LEN => Chain(o, ChainSecret(o, seed, i), DigitsOf(d)[i]))
  }

  function Sign(o: Hashes, seed: Digest, d: Digest): (sig: Bytes)
    ensures |sig| == SIG_LEN
  {
    FlattenDigests(Blocks(o, seed, d));
    Flatten(Blocks(o, seed, d))
  }

  /** The `i`-th 32-byte block of a signature. */
  function Block(sig: Bytes, i: nat): Digest
    requires |sig| == SIG_LEN && i < LEN
  {
    sig[i * N..(i + 1) * N]
  }

  /** The chain tops a verifier recomputes. */
  function Reached(o: Hashes, d: Digest, sig: Bytes): (tops: seq<Digest>)
    requires |sig| == SIG_LEN
    ensures |tops| == LEN
  {
    seq(LEN, i requires 0 <= i < LEN => Chain(o, Block(sig, i), W - 1 - DigitsOf(d)[i]))
  }

  predicate Verify(o: Hashes, pk: Bytes, d: Digest, sig: Bytes) {
    |pk| == 32 && |sig| == SIG_LEN && Compress(o, Reached(o, d, sig)) == pk
  }

  lemma {:induction false} FlattenDigests(ds: seq<Digest>)
    ensures |Flatten(ds)| == N * |ds|
    ensures forall i :: 0 <= i < |ds| ==> Flatten(ds)[i * N..(i + 1) * N] == ds[i]
  {
    if |ds| > 0 {
      FlattenDigests(ds[1..]);
      var f, g := Flatten(ds), Flatten(ds[1..]);
      forall i | 0 <= i < |ds|
        ensures f[i * N..(i + 1) * N] == ds[i]
      {
        if i > 0 {
          assert f[i * N..(i + 1) * N] == g[(i - 1) * N..i * N] == ds[1..][i - 1];
        }
      }
    }
  }

  method CompressLoop(o: Hashes, tops: array<Digest>) returns (pk: Digest)
    requires tops.Length == LEN
    ensures pk == Compress(o, tops[..])
  {
    var buf := new ByteBuf();
    for i := 0 to LEN
      invariant buf.data == Flatten(tops[..i])
    {
      buf.Extend(tops[i]);
      FlattenAppend(tops[..i], tops[i]);
      assert tops[..i + 1] == tops[..i] + [tops[i]];
    }
    assert tops[..LEN] == tops[..];
    pk := o.H(WotsPk, [buf.data]);
  }

  method Keygen(o: Hashes, seed: Digest) returns (sk: Bytes, pk: Bytes)
    ensures sk == seed && pk == PublicKey(o, seed)
  {
    var zero: Digest := seq(N, _ => 0);
    var tops := new Digest[LEN](_ => zero);
    for i := 0 to LEN
      invariant forall k :: 0 <= k < i ==> tops[k] == Tops(o, seed)[k]
    {
      tops[i] := ChainLoop(o, ChainSecret(o, seed, i), W - 1);
    }
    assert tops[..] == Tops(o, seed);
    pk := CompressLoop(o, tops);
    sk := seed;
  }

  method SignLoop(o: Hashes, sk: Bytes, digest: Digest) returns (sig: Bytes)
    requires |sk| >= 32
    ensures sig == Sign(o, sk[..32], digest)
  {
    var seed: Digest := sk[..32];
    var dg := DigitsLoop(digest);
    var buf := new ByteBuf();
    ghost var bs := Blocks(o, seed, digest);
    for i := 0 to LEN
      invariant dg[..] == DigitsOf(digest)
      invariant buf.data == Flatten(bs[..i])
    {
      assert dg[i] == dg[..][i];
      var v := ChainLoop(o, ChainSecret(o, seed, i), dg[i]);
      buf.Extend(v);
      FlattenAppend(bs[..i], bs[i]);
      assert bs[..i + 1] == bs[..i] + [bs[i]];
    }
    assert bs[..LEN] == bs;
    sig := buf.data;
  }

  method VerifyLoop(o: Hashes, pk: Bytes, digest: Digest, sig: Bytes) returns (ok: bool)
    ensures ok == Verify(o, pk, digest, sig)
  {
    if |pk| != 32 || |sig| != SIG_LEN {
      return false;
    }
    var dg := DigitsLoop(digest);
    var zero: Digest := seq(N, _ => 0);
    var tops := new Digest[LEN](_ => zero);
    for i := 0 to LEN
      invariant dg[..] == DigitsOf(digest)
      invariant forall k :: 0 <= k < i ==> tops[k] == Reached(o, digest, sig)[k]
    {
      assert dg[i] == dg[..][i];
      var v: Digest := sig[i * N..(i + 1) * N];
      tops[i] := ChainLoop(o, v, W - 1 - dg[i]);
    }
    assert tops[..] == Reached(o, digest, sig);
    var recomputed := CompressLoop(o, tops);
    ok := CtEq32(recomputed, pk);
  }

  // ----- correctness and the forgery reduction -----

  lemma BlocksOfSign(o: Hashes, seed: Digest, d: Digest, i: nat)
    requires i < LEN
    ensures Block(Sign(o, seed, d), i) == Chain(o, ChainSecret(o, seed, i), DigitsOf(d)[i])
  {
    var bs := Blocks(o, seed, d);
    FlattenDigests(bs);
    assert Flatten(bs)[i * N..(i + 1) * N] == bs[i];
  }

  /** An honest block, carried on to the top of its chain, is the honest top. */
  lemma HonestTop(o: Hashes, seed: Digest, d: Digest, i: nat)
    requires i < LEN
    ensures Chain(o, Block(Sign(o, seed, d), i), W - 1 - DigitsOf(d)[i]) == Tops(o, seed)[i]
  {
    BlocksOfSign(o, seed, d, i);
    ChainAdd(o, ChainSecret(o, seed, i), DigitsOf(d)[i], W - 1 - DigitsOf(d)[i]);
  }

  /** Every honest signature verifies. */
  lemma SignVerifies(o: Hashes, seed: Digest, d: Digest)
    ensures Verify(o, PublicKey(o, seed), d, Sign(o, seed, d))
  {
    forall i | 0 <= i < LEN
      ensures Reached(o, d, Sign(o, seed, d))[i] == Tops(o, seed)[i]
    {
      HonestTop(o, seed, d, i);
    }
    assert Reached(o, d, Sign(o, seed, d)) == Tops(o, seed);
  }

  /** How a verifying signature `sig` on `e` relates to the honest signature on
      `d`: at chain `i` it needs fewer steps, and its block chains forward by the
      difference onto the honest block (a preimage of a revealed chain element),
      or the two chains meet in a named collision. */
  ghost predicate ChainBroken(o: Hashes, seed: Digest, d: Digest, e: Digest, sig: Bytes, i: nat)
    requires |sig| == SIG_LEN && i < LEN
  {
    && DigitsOf(e)[i] < DigitsOf(d)[i]
    && var y := Chain(o, Block(sig, i), DigitsOf(d)[i] - DigitsOf(e)[i]);
       var z := Block(Sign(o, seed, d), i);
       || y == z
       || exists j: nat :: j < W - 1 - DigitsOf(d)[i] && MeetAt(o, y, z, j)
  }

  ghost predicate PkCollision(o: Hashes, seed: Digest, e: Digest, sig: Bytes)
    requires |sig| == SIG_LEN
  {
    o.Collide(PkPreimage(Reached(o, e, sig)), PkPreimage(Tops(o, seed)))
  }

  lemma TopsAgreeOrCollide(o: Hashes, seed: Digest, e: Digest, sig: Bytes)
    requires Verify(o, PublicKey(o, seed), e, sig)
    ensures Reached(o, e, sig) == Tops(o, seed) || PkCollision(o, seed, e, sig)
  {
    var r, t := Reached(o, e, sig), Tops(o, seed);
    if PkPreimage(r) == PkPreimage(t) {
      PreimageOfOne(WotsPk, Flatten(r));
      PreimageOfOne(WotsPk, Flatten(t));
      var tag := Ascii(WotsPk.Tag());
      assert (tag + Flatten(r))[|tag|..] == Flatten(r) && (tag + Flatten(t))[|tag|..] == Flatten(t);
      FlattenInjective(r, t);
    }
  }

  /** Forgery reduction: a signature that verifies on another digest breaks a
      chain or collides in the key compression. */
  lemma ForgeryReduction(o: Hashes, seed: Digest, d: Digest, e: Digest, sig: Bytes)
    requires Verify(o, PublicKey(o, seed), e, sig) && e != d
    ensures PkCollision(o, seed, e, sig) || exists i: nat :: i < LEN && ChainBroken(o, seed, d, e, sig, i)
  {
    TopsAgreeOrCollide(o, seed, e, sig);
    if Reached(o, e, sig) == Tops(o, seed) {
      var i := DigitsAntichain(d, e);
      BreaksAt(o, seed, d, e, sig, i);
    }
  }

  lemma BreaksAt(o: Hashes, seed: Digest, d: Digest, e: Digest, sig: Bytes, i: nat)
    requires |sig| == SIG_LEN && Reached(o, e, sig) == Tops(o, seed)
    requires i < LEN && DigitsOf(e)[i] < DigitsOf(d)[i]
    ensures ChainBroken(o, seed, d, e, sig, i)
  {
    hide Chain, DigitsOf, Sign, Tops, Block;
    HonestTop(o, seed, d, i);
    assert Reached(o, e, sig)[i] == Tops(o, seed)[i];
    ForwardMeets(o, Block(sig, i), DigitsOf(e)[i], Block(Sign(o, seed, d), i), DigitsOf(d)[i]);
  }

  lemma ForwardMeets(o: Hashes, x: Digest, b: nat, z: Digest, a: nat)
    requires b < a < W
    requires Chain(o, x, W - 1 - b) == Chain(o, z, W - 1 - a)
    ensures var y := Chain(o, x, a - b);
            y == z || exists j: nat :: j < W - 1 - a && MeetAt(o, y, z, j)
  {
    ChainAdd(o, x, a - b, W - 1 - a);
    ChainsMeet(o, Chain(o, x, a - b), z, W - 1 - a);
  }

  lemma ChainsMeet(o: Hashes, y: Digest, z: Digest, k: nat)
    requires Chain(o, y, k) == Chain(o, z, k)
    ensures y == z || exists j: nat :: j < k && MeetAt(o, y, z, j)
  {
    if y != z {
      var j := MeetingStep(o, y, z, k);
      StepCollides(o, Chain(o, y, j), Chain(o, z, j));
      assert MeetAt(o, y, z, j);
    }
  }

  /** On the same digest the honest signature is the only one that verifies, up to
      a named collision. */
  lemma SignatureUnique(o: Hashes, seed: Digest, d: Digest, sig: Bytes)
    requires Verify(o, PublicKey(o, seed), d, sig) && sig != Sign(o, seed, d)
    ensures || PkCollision(o, seed, d, sig)
            || exists i: nat, j: nat :: i < LEN && j < W - 1 - DigitsOf(d)[i]
                 && MeetAt(o, Block(sig, i), Block(Sign(o, seed, d), i), j)
  {
    hide Chain, DigitsOf, Sign, Tops, Block, PkCollision;
    TopsAgreeOrCollide(o, seed, d, sig);
    if Reached(o, d, sig) == Tops(o, seed) {
      var honest := Sign(o, seed, d);
      var i := DifferingBlock(sig, honest);
      HonestTop(o, seed, d, i);
      assert Reached(o, d, sig)[i] == Tops(o, seed)[i];
      ChainsMeet(o, Block(sig, i), Block(honest, i), W - 1 - DigitsOf(d)[i]);
    }
  }

  lemma DifferingBlock(a: Bytes, b: Bytes) returns (i: nat)
    requires |a| == |b| == SIG_LEN && a != b
    ensures i < LEN && Block(a, i) != Block(b, i)
  {
    var k :| 0 <= k < SIG_LEN && a[k] != b[k];
    i := k / N;
    assert Block(a, i)[k - i * N] == a[k] && Block(b, i)[k - i * N] == b[k];
  }
}
