/** Fixed-width integers, byte strings, and the small helpers of `util.rs`. */
module Util {
  import opened Bits

  type u16 = x: int | 0 <= x < 0x1_0000
  type u32 = x: int | 0 <= x < 0x1_0000_0000
  type u64 = x: int | 0 <= x < 0x1_0000_0000_0000_0000

  type Bytes = seq<byte>

  /** A `[u8; 32]`: root, identifier, hash or challenge. */
  type Digest = b: Bytes | |b| == 32 witness seq(32, _ => 0)

  datatype Option<+T> = None | Some(value: T)

  datatype Result<+T, +E> = Ok(value: T) | Err(error: E)
  {
    predicate IsFailure() { Err? }

    function PropagateFailure<U>(): Result<U, E>
      requires Err?
    {
      Err(error)
    }

    function Extract(): T
      requires Ok?
    {
      value
    }
  }

  // ----- little-endian integers -----

  function Pow256(width: nat): (p: nat)
    ensures p > 0
  {
    if width == 0 then 1 else 256 * Pow256(width - 1)
  }

  /** The low `width` bytes of `n`, least significant first. A value that does
      not fit is truncated, as an `as u32` cast truncates. */
  function Le(n: nat, width: nat): (b: Bytes)
    ensures |b| == width
  {
    if width == 0 then [] else [n % 256] + Le(n / 256, width - 1)
  }

  function FromLe(b: Bytes): nat {
    if |b| == 0 then 0 else b[0] + 256 * FromLe(b[1..])
  }

  /** Encoding keeps exactly the value modulo 256^width. */
  lemma {:induction false} LeKeepsLowBytes(n: nat, width: nat)
    ensures FromLe(Le(n, width)) == n % Pow256(width)
  {
    if width > 0 {
      LeKeepsLowBytes(n / 256, width - 1);
      var p := Pow256(width - 1);
      assert Le(n, width)[1..] == Le(n / 256, width - 1);
      ModSplit(n, p);
    }
  }

  /** Least significant byte first: byte `i` has weight 256 to the `i`. */
  lemma {:induction false} LeByte(n: nat, width: nat, i: nat)
    requires i < width
    ensures Le(n, width)[i] == n / Pow256(i) % 256
    decreases i
  {
    if i > 0 {
      LeByte(n / 256, width - 1, i - 1);
      DivDiv(n, Pow256(i - 1));
    }
  }

  lemma DivDiv(n: nat, p: nat)
    requires p > 0
    ensures n / 256 / p == n / (256 * p)
  {
    var q, r := n / (256 * p), n % (256 * p);
    assert r < 256 * p && n == q * (256 * p) + r;
    assert n == 256 * (q * p) + r;
    assert n / 256 == q * p + r / 256;
    assert r / 256 < p;
    DivUnique(n / 256, p, q, r / 256);
  }

  lemma DivUnique(n: nat, m: nat, a: int, r: int)
    requires m > 0 && n == a * m + r && 0 <= r < m
    ensures n / m == a
  {
    var q, s := n / m, n % m;
    assert (q - a) * m == r - s;
    assert q - a >= 1 ==> (q - a) * m >= m;
    assert q - a <= -1 ==> (q - a) * m <= 0 - m;
  }

  lemma ModSplit(n: nat, p: nat)
    requires p > 0
    ensures n % (256 * p) == n % 256 + 256 * ((n / 256) % p)
  {
    var q, r := n / 256, n % 256;
    var a, b := q / p, q % p;
    assert q == a * p + b;
    assert n == 256 * (a * p + b) + r == a * (256 * p) + (256 * b + r);
    assert 0 <= 256 * b + r < 256 * p;
    ModUnique(n, 256 * p, a, 256 * b + r);
  }

  lemma ModUnique(n: nat, m: nat, a: int, r: int)
    requires m > 0 && n == a * m + r && 0 <= r < m
    ensures n % m == r
  {
    var q, s := n / m, n % m;
    assert (q - a) * m == r - s;
    assert q - a >= 1 ==> (q - a) * m >= m;
    assert q - a <= -1 ==> (q - a) * m <= 0 - m;
  }

  /** Every byte string is the encoding of the value read from it. */
  lemma {:induction false} LeOfFromLe(b: Bytes)
    ensures Le(FromLe(b), |b|) == b
  {
    if |b| > 0 {
      LeOfFromLe(b[1..]);
      var n, v := FromLe(b), FromLe(b[1..]);
      assert n % 256 == b[0] && n / 256 == v;
      assert Le(n, |b|) == [b[0]] + b[1..] == b;
    }
  }

  lemma FromLeBound(b: Bytes)
    ensures FromLe(b) < Pow256(|b|)
  {
  }

  lemma LePow()
    ensures Pow256(2) == 0x1_0000 && Pow256(4) == 0x1_0000_0000 && Pow256(8) == 0x1_0000_0000_0000_0000
  {
    assert Pow256(1) == 256 && Pow256(2) == 0x1_0000 && Pow256(3) == 0x100_0000 && Pow256(4) == 0x1_0000_0000;
    assert Pow256(5) == 0x100_0000_0000 && Pow256(6) == 0x1_0000_0000_0000 && Pow256(7) == 0x100_0000_0000_0000;
  }

  function U16Le(v: u16): (b: Bytes) ensures |b| == 2 { Le(v, 2) }

  function U32Le(v: u32): (b: Bytes) ensures |b| == 4 { Le(v, 4) }

  function U64Le(v: u64): (b: Bytes) ensures |b| == 8 { Le(v, 8) }

  /** The integer encoders lose nothing. */
  lemma IntegersRoundTrip(a: u16, b: u32, c: u64)
    ensures FromLe(U16Le(a)) == a && FromLe(U32Le(b)) == b && FromLe(U64Le(c)) == c
  {
    LePow();
    LeKeepsLowBytes(a, 2);
    LeKeepsLowBytes(b, 4);
    LeKeepsLowBytes(c, 8);
  }

  // ----- concatenation of fields -----

  function Flatten(fields: seq<Bytes>): Bytes {
    if |fields| == 0 then [] else fields[0] + Flatten(fields[1..])
  }

  /** Fields of equal widths are determined by their concatenation: why the hash
      inputs made of fixed-width fields need no length prefixes. */
  lemma {:induction false} FlattenInjective(a: seq<Bytes>, b: seq<Bytes>)
    requires |a| == |b|
    requires forall i :: 0 <= i < |a| ==> |a[i]| == |b[i]|
    requires Flatten(a) == Flatten(b)
    ensures a == b
  {
    if |a| > 0 {
      var fa, fb := Flatten(a), Flatten(b);
      assert fa[..|a[0]|] == a[0] && fb[..|b[0]|] == b[0];
      assert fa[|a[0]|..] == Flatten(a[1..]) && fb[|b[0]|..] == Flatten(b[1..]);
      FlattenInjective(a[1..], b[1..]);
      assert a == [a[0]] + a[1..] && b == [b[0]] + b[1..];
    }
  }

  lemma {:induction false} FlattenAppend(a: seq<Bytes>, x: Bytes)
    ensures Flatten(a + [x]) == Flatten(a) + x
  {
    if |a| == 0 {
      assert (a + [x])[1..] == [] && Flatten([x]) == x;
    } else {
      assert (a + [x])[1..] == a[1..] + [x];
      FlattenAppend(a[1..], x);
    }
  }

  // ----- the imperative helpers -----

  /** Constant-time equality: the accumulated difference is zero exactly when the
      two arrays are equal. */
  method CtEq32(a: Digest, b: Digest) returns (equal: bool)
    ensures equal <==> a == b
  {
    var diff: byte := 0;
    var i := 0;
    while i < 32
      invariant 0 <= i <= 32
      invariant diff == 0 <==> forall k :: 0 <= k < i ==> a[k] == b[k]
    {
      DifferenceOfBytes(diff, a[i], b[i]);
      diff := OrByte(diff, XorByte(a[i], b[i]));
      i := i + 1;
    }
    equal := diff == 0;
  }

  /** A growable byte vector, as the encoders use one. */
  class ByteBuf {
    var data: Bytes

    constructor ()
      ensures data == []
    {
      data := [];
    }

    method Extend(field: Bytes)
      modifies this
      ensures data == old(data) + field
    {
      data := data + field;
    }

    /** A length-prefixed field; the prefix is the length cast to 32 bits. */
    method PushVar(field: Bytes)
      modifies this
      ensures data == old(data) + VarField(field)
    {
      Extend(Le(|field|, 4));
      Extend(field);
    }
  }

  function VarField(field: Bytes): Bytes { Le(|field|, 4) + field }
}
