/** Domain tags and the two hash functions, kept uninterpreted.

    `Hashes` is a pair of arbitrary functions; every result holds for all of
    them. Binding results never say that a collision exists somewhere (one
    always does): they name the two strings that collide. */
module Hashing {
  import opened Util

  const TRANSITION_DIGEST_V1 := "DSM/root-advance/transition-digest/v1"
  const ROOT_ADVANCE_INPUT_V1 := "DSM/tropic/root-advance-input/v1"
  const ROOT_ADVANCE_WITNESS_KEY_V1 := "DSM/tropic/root-advance-witness-key/v1"
  const PK_HASH_V1 := "DSM/tropic/pk-hash/v1"
  const CERT_MESSAGE_V1 := "DSM/root-advance/cert-message/v1"
  const WOTS_CHAIN_V1 := "DSM/anchor/wots-chain/v1"
  const WOTS_SK_V1 := "DSM/anchor/wots-sk/v1"
  const WOTS_PK_V1 := "DSM/anchor/wots-pk/v1"

  /** The uses of `h` (the first six) and of the keyed `kdf` (the last two). */
  datatype Domain =
    | TransitionDigest
    | RootAdvanceInput
    | PkHash
    | CertMessage
    | WotsChain
    | WotsPk
    | WitnessKey
    | WotsSk
  {
    function Tag(): string {
      match this
      case TransitionDigest => TRANSITION_DIGEST_V1
      case RootAdvanceInput => ROOT_ADVANCE_INPUT_V1
      case PkHash => PK_HASH_V1
      case CertMessage => CERT_MESSAGE_V1
      case WotsChain => WOTS_CHAIN_V1
      case WotsPk => WOTS_PK_V1
      case WitnessKey => ROOT_ADVANCE_WITNESS_KEY_V1
      case WotsSk => WOTS_SK_V1
    }
  }

  function Ascii(s: string): (b: Bytes)
    ensures |b| == |s|
  {
    seq(|s|, i requires 0 <= i < |s| => s[i] as int % 0x100)
  }

  /** The byte string hashed for a domain and its fields. */
  function Preimage(domain: Domain, fields: seq<Bytes>): Bytes {
    Ascii(domain.Tag()) + Flatten(fields)
  }

  datatype Hashes = Hashes(hash: Bytes -> Digest, keyed: (Digest, Bytes) -> Digest)
  {
    function H(domain: Domain, fields: seq<Bytes>): Digest {
      hash(Preimage(domain, fields))
    }

    function Kdf(secret: Digest, domain: Domain, fields: seq<Bytes>): Digest {
      keyed(secret, Preimage(domain, fields))
    }

    /** Two named strings with one hash. */
    ghost predicate Collide(x: Bytes, y: Bytes) {
      x != y && hash(x) == hash(y)
    }

    ghost predicate KdfCollide(s: Digest, x: Bytes, t: Digest, y: Bytes) {
      (s, x) != (t, y) && keyed(s, x) == keyed(t, y)
    }
  }

  /** The characters of a tag at five positions; no two tags agree on all. The
      shorter tags differ before position 24. */
  datatype Marks = Marks(c4: char, c11: char, c16: char, c17: char, c24: char)

  function MarksOf(d: Domain): Marks {
    match d
    case TransitionDigest => Marks('r', 'v', '/', 't', 'i')
    case RootAdvanceInput => Marks('t', 'r', 'a', 'd', 'i')
    case PkHash => Marks('t', 'p', 's', 'h', '-')
    case CertMessage => Marks('r', 'v', '/', 'c', 's')
    case WotsChain => Marks('a', 'w', 'c', 'h', '-')
    case WotsPk => Marks('a', 'w', 'p', 'k', '-')
    case WitnessKey => Marks('t', 'r', 'a', 'd', 'w')
    case WotsSk => Marks('a', 'w', 's', 'k', '-')
  }

  predicate Carries(t: string, m: Marks) {
    && |t| > 20 && t[4] == m.c4 && t[11] == m.c11 && t[16] == m.c16 && t[17] == m.c17
    && (m.c24 != '-' ==> |t| > 24 && t[24] == m.c24)
  }

  lemma TagCarriesMarks(d: Domain)
    ensures Carries(d.Tag(), MarksOf(d))
  {
    match d case _ =>
  }

  lemma AsciiDiffers(s: string, t: string, k: nat)
    requires k < |s| && k < |t| && s[k] != t[k] && s[k] < '~' && t[k] < '~'
    ensures Ascii(s)[k] != Ascii(t)[k]
  {
  }

  /** A position at which the tags of two domains differ. */
  lemma TagsDiffer(d: Domain, e: Domain) returns (k: nat)
    requires d != e
    ensures k < |d.Tag()| && k < |e.Tag()| && Ascii(d.Tag())[k] != Ascii(e.Tag())[k]
  {
    TagCarriesMarks(d);
    TagCarriesMarks(e);
    var m, n := MarksOf(d), MarksOf(e);
    k := SeparatorOf(d.Tag(), m, e.Tag(), n);
  }

  lemma SeparatorOf(s: string, m: Marks, t: string, n: Marks) returns (k: nat)
    requires Carries(s, m) && Carries(t, n)
    requires m.c4 < '~' && m.c11 < '~' && m.c16 < '~' && m.c17 < '~' && m.c24 < '~'
    requires n.c4 < '~' && n.c11 < '~' && n.c16 < '~' && n.c17 < '~' && n.c24 < '~'
    requires || (m.c4, m.c11, m.c16, m.c17) != (n.c4, n.c11, n.c16, n.c17)
             || (m.c24 != '-' && n.c24 != '-' && m.c24 != n.c24)
    ensures k < |s| && k < |t| && Ascii(s)[k] != Ascii(t)[k]
  {
    k := if m.c4 != n.c4 then 4 else if m.c11 != n.c11 then 11 else if m.c16 != n.c16 then 16 else
         if m.c17 != n.c17 then 17 else 24;
    AsciiDiffers(s, t, k);
  }

  /** No preimage of one domain is a preimage of another, whatever the fields. */
  lemma DomainsSeparate(d: Domain, x: seq<Bytes>, e: Domain, y: seq<Bytes>)
    ensures d != e ==> Preimage(d, x) != Preimage(e, y)
  {
    if d != e {
      var k := TagsDiffer(d, e);
      assert Preimage(d, x)[k] == Ascii(d.Tag())[k];
      assert Preimage(e, y)[k] == Ascii(e.Tag())[k];
    }
  }

  /** Within a domain, fields of fixed widths are determined by their preimage. */
  lemma PreimageInjective(d: Domain, x: seq<Bytes>, y: seq<Bytes>)
    requires |x| == |y| && forall i :: 0 <= i < |x| ==> |x[i]| == |y[i]|
    requires Preimage(d, x) == Preimage(d, y)
    ensures x == y
  {
    var t := Ascii(d.Tag());
    assert Preimage(d, x)[|t|..] == Flatten(x) && Preimage(d, y)[|t|..] == Flatten(y);
    FlattenInjective(x, y);
  }

  lemma PreimageOfOne(d: Domain, x: Bytes)
    ensures Preimage(d, [x]) == Ascii(d.Tag()) + x
  {
    assert Flatten([x][1..]) == [] && Flatten([x]) == x + [] == x;
  }
}
