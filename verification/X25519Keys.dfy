/** Validation of X25519 public keys: the byte blocklist against the field arithmetic it stands for. */
module X25519Keys {
  import opened Common

  const PUBLIC_KEY_LEN: nat := 32

  /** The field prime 2^255 - 19. */
  const P: nat := 0x7fffffffffffffffffffffffffffffffffffffffffffffffffffffffffffffed

  const TWO_255: nat := 0x8000000000000000000000000000000000000000000000000000000000000000

  const ORDER_EIGHT_A: nat := 325606250916557431795983626356110631294008115727848805560023387167927233504

  const ORDER_EIGHT_B: nat := 39382357235489614581723060781553021112529911719440698176882885853963445705823

  /** 32 bytes: `first`, thirty copies of `fill`, `last`. */
  function Padded(first: Byte, fill: Byte, last: Byte): Bytes {
    seq(32, i => if i == 0 then first else if i == 31 then last else fill)
  }

  const KEY_A: Bytes :=
    [0xe0, 0xeb, 0x7a, 0x7c, 0x3b, 0x41, 0xb8, 0xae]
    + [0x16, 0x56, 0xe3, 0xfa, 0xf1, 0x9f, 0xc4, 0x6a]
    + [0xda, 0x09, 0x8d, 0xeb, 0x9c, 0x32, 0xb1, 0xfd]
    + [0x86, 0x62, 0x05, 0x16, 0x5f, 0x49, 0xb8, 0x00]

  const KEY_B: Bytes :=
    [0x5f, 0x9c, 0x95, 0xbc, 0xa3, 0x50, 0x8c, 0x24]
    + [0xb1, 0xd0, 0xb1, 0x55, 0x9c, 0x83, 0xef, 0x5b]
    + [0x04, 0x44, 0x5c, 0xc4, 0x58, 0x1c, 0x8e, 0x86]
    + [0xd8, 0x22, 0x4e, 0xdd, 0xd0, 0x9f, 0x11, 0x57]

  /** The blocklist: 0, 1, the two residues of order eight, p - 1, p and p + 1. */
  const SMALL_ORDER: seq<Bytes> :=
    [Padded(0, 0, 0), Padded(1, 0, 0), KEY_A, KEY_B,
     Padded(0xec, 0xff, 0x7f), Padded(0xed, 0xff, 0x7f), Padded(0xee, 0xff, 0x7f)]

  /** The little-endian value of the bytes from index `i` on. */
  function LittleEndian(b: Bytes, i: nat := 0): nat
    requires i <= |b|
    decreases |b| - i
  {
    if i == |b| then 0 else b[i] + 256 * LittleEndian(b, i + 1)
  }

  /** The key with the top bit of its last byte cleared. */
  function Masked(key: Bytes): Bytes
    requires |key| == PUBLIC_KEY_LEN
  {
    key[31 := key[31] % 128]
  }

  // ---- Bytes and their value ----

  function Digit(n: nat, k: nat): nat {
    if k == 0 then n % 256 else Digit(n / 256, k - 1)
  }

  function Power256(k: nat): nat {
    if k == 0 then 1 else 256 * Power256(k - 1)
  }

  /** Bytes that are the base-256 digits of `w` contribute `w` to the value. */
  lemma {:induction false} DigitsValue(b: Bytes, i: nat, k: nat, w: nat)
    requires i + k <= |b| && w < Power256(k)
    requires forall j :: i <= j < i + k ==> b[j] == Digit(w, j - i)
    ensures LittleEndian(b, i) == w + Power256(k) * LittleEndian(b, i + k)
    decreases k
  {
    if k > 0 {
      DigitsValue(b, i + 1, k - 1, w / 256);
      var rest := LittleEndian(b, i + k);
      assert 256 * (Power256(k - 1) * rest) == Power256(k) * rest;
    }
  }

  predicate DigitsOf(octet: Bytes, w: nat) {
    && |octet| == 8 && w < 0x1_0000_0000_0000_0000
    && octet[0] == Digit(w, 0) && octet[1] == Digit(w, 1) && octet[2] == Digit(w, 2) && octet[3] == Digit(w, 3)
    && octet[4] == Digit(w, 4) && octet[5] == Digit(w, 5) && octet[6] == Digit(w, 6) && octet[7] == Digit(w, 7)
  }

  lemma OctetValue(b: Bytes, i: nat, octet: Bytes, w: nat)
    requires i + 8 <= |b| && DigitsOf(octet, w) && b[i..i + 8] == octet
    ensures LittleEndian(b, i) == w + 0x1_0000_0000_0000_0000 * LittleEndian(b, i + 8)
  {
    assert Power256(4) == 0x1_0000_0000 && Power256(8) == 0x1_0000_0000_0000_0000;
    forall j | i <= j < i + 8 ensures b[j] == Digit(w, j - i) {
      assert b[j] == octet[j - i];
    }
    DigitsValue(b, i, 8, w);
  }

  lemma FourOctets(o0: Bytes, w0: nat, o1: Bytes, w1: nat, o2: Bytes, w2: nat, o3: Bytes, w3: nat)
    requires DigitsOf(o0, w0) && DigitsOf(o1, w1) && DigitsOf(o2, w2) && DigitsOf(o3, w3)
    ensures LittleEndian(o0 + o1 + o2 + o3) ==
            w0 + 0x1_0000_0000_0000_0000 * (w1 + 0x1_0000_0000_0000_0000 * (w2 + 0x1_0000_0000_0000_0000 * w3))
  {
    var b := o0 + o1 + o2 + o3;
    assert b[0..8] == o0 && b[8..16] == o1 && b[16..24] == o2 && b[24..32] == o3;
    OctetValue(b, 0, o0, w0);
    OctetValue(b, 8, o1, w1);
    OctetValue(b, 16, o2, w2);
    OctetValue(b, 24, o3, w3);
    assert LittleEndian(b, 32) == 0;
  }

  lemma OctetsOfA()
    ensures DigitsOf([0xe0, 0xeb, 0x7a, 0x7c, 0x3b, 0x41, 0xb8, 0xae], 0xaeb8413b7c7aebe0)
    ensures DigitsOf([0x16, 0x56, 0xe3, 0xfa, 0xf1, 0x9f, 0xc4, 0x6a], 0x6ac49ff1fae35616)
    ensures DigitsOf([0xda, 0x09, 0x8d, 0xeb, 0x9c, 0x32, 0xb1, 0xfd], 0xfdb1329ceb8d09da)
    ensures DigitsOf([0x86, 0x62, 0x05, 0x16, 0x5f, 0x49, 0xb8, 0x00], 0x00b8495f16056286)
  {
  }

  lemma ValueOfA(b: Bytes)
    requires b == KEY_A
    ensures LittleEndian(b) == ORDER_EIGHT_A
  {
    OctetsOfA();
    FourOctets([0xe0, 0xeb, 0x7a, 0x7c, 0x3b, 0x41, 0xb8, 0xae], 0xaeb8413b7c7aebe0,
               [0x16, 0x56, 0xe3, 0xfa, 0xf1, 0x9f, 0xc4, 0x6a], 0x6ac49ff1fae35616,
               [0xda, 0x09, 0x8d, 0xeb, 0x9c, 0x32, 0xb1, 0xfd], 0xfdb1329ceb8d09da,
               [0x86, 0x62, 0x05, 0x16, 0x5f, 0x49, 0xb8, 0x00], 0x00b8495f16056286);
  }

  lemma OctetsOfB()
    ensures DigitsOf([0x5f, 0x9c, 0x95, 0xbc, 0xa3, 0x50, 0x8c, 0x24], 0x248c50a3bc959c5f)
    ensures DigitsOf([0xb1, 0xd0, 0xb1, 0x55, 0x9c, 0x83, 0xef, 0x5b], 0x5bef839c55b1d0b1)
    ensures DigitsOf([0x04, 0x44, 0x5c, 0xc4, 0x58, 0x1c, 0x8e, 0x86], 0x868e1c58c45c4404)
    ensures DigitsOf([0xd8, 0x22, 0x4e, 0xdd, 0xd0, 0x9f, 0x11, 0x57], 0x57119fd0dd4e22d8)
  {
  }

  lemma ValueOfB(b: Bytes)
    requires b == KEY_B
    ensures LittleEndian(b) == ORDER_EIGHT_B
  {
    OctetsOfB();
    FourOctets([0x5f, 0x9c, 0x95, 0xbc, 0xa3, 0x50, 0x8c, 0x24], 0x248c50a3bc959c5f,
               [0xb1, 0xd0, 0xb1, 0x55, 0x9c, 0x83, 0xef, 0x5b], 0x5bef839c55b1d0b1,
               [0x04, 0x44, 0x5c, 0xc4, 0x58, 0x1c, 0x8e, 0x86], 0x868e1c58c45c4404,
               [0xd8, 0x22, 0x4e, 0xdd, 0xd0, 0x9f, 0x11, 0x57], 0x57119fd0dd4e22d8);
  }

  lemma {:induction false} ZeroTail(b: Bytes, i: nat)
    requires |b| == 32 && i <= 32 && forall j :: i <= j < 32 ==> b[j] == 0
    ensures LittleEndian(b, i) == 0
    decreases 32 - i
  {
    if i < 32 { ZeroTail(b, i + 1); }
  }

  lemma {:induction false} OnesTail(b: Bytes, i: nat)
    requires |b| == 32 && i <= 31 && b[31] == 0x7f && forall j :: i <= j < 31 ==> b[j] == 0xff
    ensures LittleEndian(b, i) == 128 * Power256(31 - i) - 1
    decreases 31 - i
  {
    if i < 31 { OnesTail(b, i + 1); } else { assert LittleEndian(b, 32) == 0; }
  }

  lemma BigPowers()
    ensures Power256(30) == 0x1000000000000000000000000000000000000000000000000000000000000
    ensures Power256(31) == 0x100000000000000000000000000000000000000000000000000000000000000
  {
    assert Power256(6) == 0x1_0000_0000_0000;
    assert Power256(12) == 0x1_0000_0000_0000_0000_0000_0000;
    assert Power256(18) == 0x1_0000_0000_0000_0000_0000_0000_0000_0000_0000;
    assert Power256(24) == 0x1_0000_0000_0000_0000_0000_0000_0000_0000_0000_0000_0000_0000;
  }

  lemma OnesValue(b: Bytes, first: Byte)
    requires b == Padded(first, 0xff, 0x7f)
    ensures LittleEndian(b) == first as int + TWO_255 - 256
  {
    OnesTail(b, 1);
    BigPowers();
  }

  lemma {:induction false} TopBound(b: Bytes, i: nat)
    requires |b| == 32 && i <= 31 && b[31] < 128
    ensures LittleEndian(b, i) < 128 * Power256(31 - i)
    decreases 31 - i
  {
    if i < 31 { TopBound(b, i + 1); } else { assert LittleEndian(b, 32) == 0; }
  }

  const LISTED_VALUES: seq<nat> := [0, 1, ORDER_EIGHT_A, ORDER_EIGHT_B, P - 1, P, P + 1]

  lemma ListedValues(k: nat)
    requires k < |SMALL_ORDER|
    ensures |SMALL_ORDER| == |LISTED_VALUES| && |SMALL_ORDER[k]| == 32
    ensures LittleEndian(SMALL_ORDER[k]) == LISTED_VALUES[k]
  {
    var b := SMALL_ORDER[k];
    match k
    case 0 => ZeroTail(b, 0);
    case 1 => ZeroTail(b, 1);
    case 2 => ValueOfA(b);
    case 3 => ValueOfB(b);
    case 4 => OnesValue(b, 0xec);
    case 5 => OnesValue(b, 0xed);
    case _ => OnesValue(b, 0xee);
  }

  /** Bytes of one length are determined by their value. */
  lemma {:induction false} LittleEndianInjective(a: Bytes, b: Bytes, i: nat)
    requires |a| == |b| && i <= |a| && LittleEndian(a, i) == LittleEndian(b, i)
    ensures a[i..] == b[i..]
    decreases |a| - i
  {
    if i < |a| {
      LittleEndianInjective(a, b, i + 1);
      assert a[i..] == [a[i]] + a[i + 1..] && b[i..] == [b[i]] + b[i + 1..];
    }
  }

  lemma MaskedBound(key: Bytes)
    requires |key| == 32
    ensures LittleEndian(Masked(key)) < TWO_255
  {
    TopBound(Masked(key), 0);
    BigPowers();
  }

  /** Changing the last byte changes the value by that many times 256^31. */
  lemma {:induction false} LastByteWeighs(b: Bytes, x: Byte, i: nat)
    requires |b| == 32 && i <= 31
    ensures LittleEndian(b[31 := x], i) + Power256(31 - i) * b[31] == LittleEndian(b, i) + Power256(31 - i) * x
    decreases 31 - i
  {
    if i < 31 {
      LastByteWeighs(b, x, i + 1);
      var p := Power256(30 - i);
      assert Power256(31 - i) == 256 * p;
      assert 256 * p * b[31] == 256 * (p * b[31]) && 256 * p * x == 256 * (p * x);
    } else {
      assert LittleEndian(b[31 := x], 32) == 0 == LittleEndian(b, 32);
    }
  }

  lemma TopBitWeighs(whole: nat, masked: nat, weight: nat, top: nat)
    requires top >= 128 && masked + weight * top == whole + weight * (top - 128)
    requires 128 * weight == TWO_255 && masked < TWO_255
    ensures masked == whole % TWO_255
  {
    assert weight * top == weight * (top - 128) + weight * 128;
  }

  lemma MaskedFrom(key: Bytes, i: nat, weight: nat)
    requires |key| == PUBLIC_KEY_LEN && i <= 31 && weight == Power256(31 - i) && 128 * weight == TWO_255
    ensures LittleEndian(Masked(key), i) == LittleEndian(key, i) % TWO_255
  {
    TopBound(Masked(key), i);
    if key[31] < 128 {
      assert Masked(key) == key;
    } else {
      LastByteWeighs(key, key[31] - 128, i);
      TopBitWeighs(LittleEndian(key, i), LittleEndian(Masked(key), i), weight, key[31]);
    }
  }

  /** Masking the top bit is reduction modulo 2^255. */
  lemma MaskedValue(key: Bytes)
    requires |key| == PUBLIC_KEY_LEN
    ensures LittleEndian(Masked(key)) == LittleEndian(key) % TWO_255
  {
    BigPowers();
    MaskedFrom(key, 0, Power256(31));
  }

  // ---- The blocklist decides exactly five residues ----

  /** Decoding of a u-coordinate by section 5 of RFC 7748: mask the top bit, read little-endian, reduce. */
  function UCoordinate(key: Bytes): nat
    requires |key| == 32
  {
    LittleEndian(Masked(key)) % P
  }

  predicate SmallOrderResidue(u: nat) {
    u == 0 || u == 1 || u == P - 1 || u == ORDER_EIGHT_A || u == ORDER_EIGHT_B
  }

  /** Below 2^255 only 0 and 1 among the five residues have a second, non-canonical representative. */
  lemma ResiduesBelow255(v: nat)
    requires v < TWO_255
    ensures SmallOrderResidue(v % P) <==> v in LISTED_VALUES
  {
    if v < P {
      assert v % P == v;
    } else {
      assert v % P == v - P;
    }
    assert LISTED_VALUES[0] == 0 && LISTED_VALUES[1] == 1 && LISTED_VALUES[2] == ORDER_EIGHT_A;
    assert LISTED_VALUES[3] == ORDER_EIGHT_B && LISTED_VALUES[4] == P - 1;
    assert LISTED_VALUES[5] == P && LISTED_VALUES[6] == P + 1;
  }

  lemma SameValueSameKey(a: Bytes, b: Bytes)
    requires |a| == |b| && LittleEndian(a) == LittleEndian(b)
    ensures a == b
  {
    LittleEndianInjective(a, b, 0);
    assert a[0..] == a && b[0..] == b;
  }

  lemma ListedIffValue(b: Bytes)
    requires |b| == 32
    ensures b in SMALL_ORDER <==> LittleEndian(b) in LISTED_VALUES
  {
    if b in SMALL_ORDER {
      var k :| 0 <= k < |SMALL_ORDER| && SMALL_ORDER[k] == b;
      ListedValues(k);
    }
    if LittleEndian(b) in LISTED_VALUES {
      var k :| 0 <= k < |LISTED_VALUES| && LISTED_VALUES[k] == LittleEndian(b);
      ListedValues(k);
      SameValueSameKey(SMALL_ORDER[k], b);
    }
  }

  /** `is_small_order_x25519`: true exactly of the encodings of the five residues, canonical or not. */
  method IsSmallOrder(key: Bytes) returns (small: bool)
    requires |key| == PUBLIC_KEY_LEN
    ensures small <==> SmallOrderResidue(UCoordinate(key))
  {
    var masked := key[31 := key[31] % 128];
    small := false;
    for i := 0 to |SMALL_ORDER|
      invariant small <==> masked in SMALL_ORDER[..i]
    {
      var p := SMALL_ORDER[i];
      var pMasked := p[31 := p[31] % 128];
      assert pMasked == p;
      if pMasked == masked {
        small := true;
      }
    }
    MaskedBound(key);
    ResiduesBelow255(LittleEndian(masked));
    ListedIffValue(masked);
  }

  /** Thirty-two bytes that encode none of the five residues. */
  predicate ValidKey(bytes: Bytes) {
    |bytes| == PUBLIC_KEY_LEN && !SmallOrderResidue(UCoordinate(bytes))
  }

  /** `validate_x25519_public_key`: exactly 32 bytes, and none of the five residues. */
  method Validate(bytes: Bytes) returns (key: Option<Bytes>)
    ensures key == if ValidKey(bytes) then Some(bytes) else None
  {
    if |bytes| != PUBLIC_KEY_LEN {
      return None;
    }
    var small := IsSmallOrder(bytes);
    key := if small then None else Some(bytes);
  }

  // ---- What the five residues are ----

  /** Numerator and denominator of the u-coordinate of the doubled point, on the curve of RFC 7748 with A = 486662. */
  function DoubleOver(u: nat): int {
    (u * u - 1) * (u * u - 1)
  }

  function DoubleUnder(u: nat): nat {
    4 * u * (u * u + 486662 * u + 1)
  }

  /** The double of the point at `u` is the point at infinity. */
  predicate DoublesToInfinity(u: nat) {
    DoubleUnder(u) % P == 0
  }

  /** The double of the point at `u` is a finite point, at `v`. */
  predicate DoublesTo(u: nat, v: nat) {
    !DoublesToInfinity(u) && DoubleOver(u) % P == v * DoubleUnder(u) % P
  }

  lemma SameRemainder(a: int, b: int, k: int)
    requires a == b + P * k
    ensures a % P == b % P
  {
    var q, r := b / P, b % P;
    assert a == P * (q + k) + r;
  }

  lemma FirstConstantDoublesToOne()
    ensures DoublesTo(ORDER_EIGHT_A, 1)
  {
    var over, under := DoubleOver(ORDER_EIGHT_A), DoubleUnder(ORDER_EIGHT_A);
    SameRemainder(over, 1 * under, (over - under) / P);
  }

  lemma SecondConstantDoublesToOne()
    ensures DoublesTo(ORDER_EIGHT_B, 1)
  {
    var over, under := DoubleOver(ORDER_EIGHT_B), DoubleUnder(ORDER_EIGHT_B);
    SameRemainder(over, 1 * under, (over - under) / P);
  }

  lemma OrderFourDoubles()
    ensures DoublesTo(1, 0)
    ensures DoublesTo(P - 1, 0)
  {
    assert DoubleUnder(1) == 1946656;
    assert (P - 1) * (P - 1) - 1 == P * (P - 2);
    SameRemainder(DoubleOver(P - 1), 0, (P - 2) * (P * (P - 2)));
    SameRemainder(DoubleUnder(P - 1), 1946640, (DoubleUnder(P - 1) - 1946640) / P);
  }

  /** 0 doubles to the point at infinity, 1 and p - 1 double to 0, and the two constants double to 1. */
  lemma ListedResiduesHaveSmallOrder()
    ensures DoublesToInfinity(0)
    ensures DoublesTo(1, 0) && DoublesTo(P - 1, 0)
    ensures DoublesTo(ORDER_EIGHT_A, 1) && DoublesTo(ORDER_EIGHT_B, 1)
  {
    OrderFourDoubles();
    FirstConstantDoublesToOne();
    SecondConstantDoublesToOne();
  }
}
