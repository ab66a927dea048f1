/** The FNV-1a fingerprint that seals a settings transaction
    (section 2 of draft-eastlake-fnv, 32-bit parameters). */
module Fingerprint {

  const FNV_OFFSET_BASIS: uint32 := 2166136261
  const FNV_PRIME: uint32 := 16777619
  /** 16777619 * 899433627 == 1 modulo 2^32. */
  const FNV_PRIME_INVERSE: uint32 := 899433627
  const TXN_VERSION: uint32 := 4

  type octet = x: int | 0 <= x < 256
  type uint32 = x: int | 0 <= x < 0x1_0000_0000

  function Power2(n: nat): (p: nat)
    ensures p > 0
  {
    if n == 0 then 1 else 2 * Power2(n - 1)
  }

  /** Exclusive or of the low `n` bits. */
  function XorBits(a: nat, b: nat, n: nat): (x: nat)
    ensures x < Power2(n)
  {
    if n == 0 then 0
    else (if a % 2 == b % 2 then 0 else 1) + 2 * XorBits(a / 2, b / 2, n - 1)
  }

  lemma {:induction false} XorUndoes(a: nat, b: nat, n: nat)
    requires a < Power2(n)
    ensures XorBits(XorBits(a, b, n), b, n) == a
    decreases n
  {
    if n > 0 {
      XorUndoes(a / 2, b / 2, n - 1);
      var low := if a % 2 == b % 2 then 0 else 1;
      assert XorBits(a, b, n) / 2 == XorBits(a / 2, b / 2, n - 1) && XorBits(a, b, n) % 2 == low;
    }
  }

  lemma {:induction false} XorCommutes(a: nat, b: nat, n: nat)
    ensures XorBits(a, b, n) == XorBits(b, a, n)
    decreases n
  {
    if n > 0 {
      XorCommutes(a / 2, b / 2, n - 1);
    }
  }

  lemma Power2Of32()
    ensures Power2(32) == 0x1_0000_0000
  {
    assert Power2(8) == 256;
    assert Power2(16) == 256 * 256;
    assert Power2(24) == 256 * 256 * 256;
  }

  /** `^` on uint32_t. */
  function Xor(a: uint32, b: uint32): uint32 {
    Power2Of32();
    XorBits(a, b, 32)
  }

  /** Multiplication by the FNV prime, wrapping at 2^32. */
  function Times(h: uint32): uint32 {
    h * FNV_PRIME % 0x1_0000_0000
  }

  /** One FNV-1a step: xor the octet in, then multiply. */
  function Absorb(h: uint32, octet: uint32): uint32 {
    Times(Xor(h, octet))
  }

  /** Octet `j` of the little-endian two's-complement image of an int32_t. */
  function Octet(value: int, j: nat): octet
    requires j < 4
  {
    var shifted := if j == 0 then value else if j == 1 then value / 0x100
                   else if j == 2 then value / 0x1_0000 else value / 0x100_0000;
    shifted % 256
  }

  function Octets(value: int): (o: seq<octet>)
    ensures |o| == 4
  {
    [Octet(value, 0), Octet(value, 1), Octet(value, 2), Octet(value, 3)]
  }

  function AbsorbOctets(h: uint32, octets: seq<octet>): uint32
    decreases |octets|
  {
    if |octets| == 0 then h
    else Absorb(AbsorbOctets(h, octets[..|octets| - 1]), octets[|octets| - 1])
  }

  /** The octets of one setting, then its table index. */
  function AbsorbSetting(h: uint32, octets: seq<octet>, index: nat): uint32 {
    Absorb(AbsorbOctets(h, octets), index % 0x1_0000_0000)
  }

  /** The running hash after the first `n` settings. */
  function Running(table: seq<int>, n: nat): uint32
    requires n <= |table|
  {
    if n == 0 then FNV_OFFSET_BASIS
    else AbsorbSetting(Running(table, n - 1), Octets(table[n - 1]), n - 1)
  }

  function Of(table: seq<int>): uint32 {
    Xor(Running(table, |table|), TXN_VERSION)
  }

  /** The nested loops of settings_fingerprint_from_snapshot. */
  method FromSnapshot(snapshot: array<int>) returns (hash: uint32)
    ensures hash == Of(snapshot[..])
  {
    hash := FNV_OFFSET_BASIS;
    ghost var table := snapshot[..];
    var i := 0;
    while i < snapshot.Length
      invariant 0 <= i <= snapshot.Length
      invariant hash == Running(table, i)
    {
      var bytes := Octets(snapshot[i]);
      ghost var start := hash;
      var j := 0;
      while j < 4
        invariant 0 <= j <= 4
        invariant hash == AbsorbOctets(start, bytes[..j])
      {
        assert bytes[..j + 1][..j] == bytes[..j];
        hash := Absorb(hash, bytes[j]);
        j := j + 1;
      }
      assert bytes[..4] == bytes;
      hash := Absorb(hash, i % 0x1_0000_0000);
      i := i + 1;
    }
    hash := Xor(hash, TXN_VERSION);
  }

  // ---------------------------------------------------------------- injectivity

  /** The prime is odd, so multiplying by its inverse undoes it. */
  lemma TimesUndone(h: uint32)
    ensures Times(h) * FNV_PRIME_INVERSE % 0x1_0000_0000 == h
  {
    var m := 0x1_0000_0000;
    var wraps := h * FNV_PRIME / m;
    assert Times(h) * FNV_PRIME_INVERSE == h + m * (3513497 * h - FNV_PRIME_INVERSE * wraps);
  }

  lemma XorInjective(h: uint32, k: uint32, octet: uint32)
    requires h != k
    ensures Xor(h, octet) != Xor(k, octet) && Xor(octet, h) != Xor(octet, k)
  {
    Power2Of32();
    XorUndoes(h, octet, 32);
    XorUndoes(k, octet, 32);
    XorCommutes(h, octet, 32);
    XorCommutes(k, octet, 32);
  }

  /** A step is injective in the running hash and in the octet. */
  lemma AbsorbInjective(h: uint32, k: uint32, octet: uint32)
    requires h != k
    ensures Absorb(h, octet) != Absorb(k, octet) && Absorb(octet, h) != Absorb(octet, k)
  {
    XorInjective(h, k, octet);
    TimesUndone(Xor(h, octet));
    TimesUndone(Xor(k, octet));
    TimesUndone(Xor(octet, h));
    TimesUndone(Xor(octet, k));
  }

  lemma {:induction false} OctetsInjective(h: uint32, k: uint32, octets: seq<octet>)
    requires h != k
    ensures AbsorbOctets(h, octets) != AbsorbOctets(k, octets)
    decreases |octets|
  {
    if |octets| > 0 {
      var front, last := octets[..|octets| - 1], octets[|octets| - 1];
      OctetsInjective(h, k, front);
      AbsorbInjective(AbsorbOctets(h, front), AbsorbOctets(k, front), last);
    }
  }

  predicate DifferOnlyAt<T(==)>(a: seq<T>, b: seq<T>, j: nat) {
    |a| == |b| && j < |a| && a[j] != b[j] && forall i :: 0 <= i < |a| && i != j ==> a[i] == b[i]
  }

  /** Changing one octet of a setting changes the running hash. */
  lemma {:induction false} OneOctetChangesHash(h: uint32, a: seq<octet>, b: seq<octet>, j: nat)
    requires DifferOnlyAt(a, b, j)
    ensures AbsorbOctets(h, a) != AbsorbOctets(h, b)
    decreases |a|
  {
    var n := |a| - 1;
    if j == n {
      assert a[..n] == b[..n];
      AbsorbInjective(a[n], b[n], AbsorbOctets(h, a[..n]));
    } else {
      OneOctetChangesHash(h, a[..n], b[..n], j);
      AbsorbInjective(AbsorbOctets(h, a[..n]), AbsorbOctets(h, b[..n]), a[n]);
    }
  }

  /** Once two runs over tables equal from `m` on have split, they never meet again. */
  lemma {:induction false} SplitPersists(a: seq<int>, b: seq<int>, m: nat, n: nat)
    requires |a| == |b| && m <= n <= |a|
    requires forall i :: m <= i < n ==> a[i] == b[i]
    requires Running(a, m) != Running(b, m)
    ensures Running(a, n) != Running(b, n)
    decreases n
  {
    if n > m {
      SplitPersists(a, b, m, n - 1);
      var index := (n - 1) % 0x1_0000_0000;
      var octets := Octets(a[n - 1]);
      var ha, hb := AbsorbOctets(Running(a, n - 1), octets), AbsorbOctets(Running(b, n - 1), octets);
      OctetsInjective(Running(a, n - 1), Running(b, n - 1), octets);
      AbsorbInjective(ha, hb, index);
    }
  }

  lemma {:induction false} RunningPrefix(a: seq<int>, b: seq<int>, n: nat)
    requires n <= |a| && n <= |b| && a[..n] == b[..n]
    ensures Running(a, n) == Running(b, n)
    decreases n
  {
    if n > 0 {
      assert a[..n - 1] == a[..n][..n - 1] && b[..n - 1] == b[..n][..n - 1];
      assert a[n - 1] == a[..n][n - 1] && b[n - 1] == b[..n][n - 1];
      RunningPrefix(a, b, n - 1);
    }
  }

  /** Two tables whose encoded images differ in exactly one octet never share a fingerprint. */
  lemma OneOctetDetected(a: seq<int>, b: seq<int>, i: nat, j: nat)
    requires DifferOnlyAt(a, b, i) && DifferOnlyAt(Octets(a[i]), Octets(b[i]), j)
    ensures Of(a) != Of(b)
  {
    RunningPrefix(a, b, i);
    var index := i % 0x1_0000_0000;
    OneOctetChangesHash(Running(a, i), Octets(a[i]), Octets(b[i]), j);
    AbsorbInjective(AbsorbOctets(Running(a, i), Octets(a[i])),
                    AbsorbOctets(Running(a, i), Octets(b[i])), index);
    SplitPersists(a, b, i + 1, |a|);
    XorInjective(Running(a, |a|), Running(b, |b|), TXN_VERSION);
  }

  /** For a bool or unsigned 8-bit setting the encoded value is one octet, so any
      change of that one setting is detected. */
  lemma ByteSettingDetected(a: seq<int>, b: seq<int>, i: nat)
    requires DifferOnlyAt(a, b, i) && 0 <= a[i] < 256 && 0 <= b[i] < 256
    ensures Of(a) != Of(b)
  {
    assert Octet(a[i], 0) == a[i] && Octet(b[i], 0) == b[i];
    OneOctetDetected(a, b, i, 0);
  }

  // ---------------------------------------------------------------- a published value

  lemma {:induction false} XorWithZero(a: nat, n: nat)
    requires a < Power2(n)
    ensures XorBits(a, 0, n) == a
    decreases n
  {
    if n > 0 {
      XorWithZero(a / 2, n - 1);
    }
  }

  lemma XorOfBasis()
    ensures Xor(FNV_OFFSET_BASIS, 0x61) == 2166136228
  {
    Power2Of32();
    assert Power2(25) == 0x200_0000;
    XorWithZero(16922939, 25);
    assert XorBits(33845879, 1, 26) == 33845878;
    assert XorBits(67691758, 3, 27) == 67691757;
    assert XorBits(135383516, 6, 28) == 135383514;
    assert XorBits(270767032, 12, 29) == 270767028;
    assert XorBits(541534065, 24, 30) == 541534057;
    assert XorBits(1083068130, 48, 31) == 1083068114;
    assert XorBits(2166136261, 97, 32) == 2166136228;
  }

  lemma TimesOfXor()
    ensures Times(2166136228) == 0xE40C_292C
  {
  }

  lemma OneOctet(h: uint32, o: octet)
    ensures AbsorbOctets(h, [o]) == Absorb(h, o)
  {
  }

  /** The 32-bit FNV-1a hash of the one-character string "a". */
  lemma HashOfA()
    ensures AbsorbOctets(FNV_OFFSET_BASIS, [0x61]) == 0xE40C_292C
  {
    XorOfBasis();
    TimesOfXor();
    OneOctet(FNV_OFFSET_BASIS, 0x61);
  }

  lemma TimesIs(h: uint32, wraps: nat, product: uint32)
    requires h * FNV_PRIME == wraps * 0x1_0000_0000 + product
    ensures Times(h) == product
  {
  }

  lemma AbsorbZero(h: uint32)
    ensures Absorb(h, 0) == Times(h)
  {
    Power2Of32();
    XorWithZero(h, 32);
  }

  lemma AbsorbFourZeros(h: uint32)
    ensures AbsorbOctets(h, Octets(0)) == Times(Times(Times(Times(h))))
  {
    var z := Octets(0);
    assert z[..3][..2] == z[..2] && z[..2][..1] == z[..1];
    OneOctet(h, 0);
    assert z[..1] == [0];
    AbsorbZero(h);
    AbsorbZero(AbsorbOctets(h, z[..1]));
    AbsorbZero(AbsorbOctets(h, z[..2]));
    AbsorbZero(AbsorbOctets(h, z[..3]));
  }

  lemma FirstZero(table: seq<int>)
    requires table == [0, 0]
    ensures Running(table, 1) == 303091727
  {
    TimesIs(2166136261, 8461673, 84696351);
    TimesIs(84696351, 330853, 292984781);
    TimesIs(292984781, 1144499, 1253111735);
    TimesIs(1253111735, 4895085, 1268118805);
    TimesIs(1268118805, 4953708, 303091727);
    AbsorbFourZeros(FNV_OFFSET_BASIS);
    AbsorbZero(1268118805);
  }

  lemma SecondZero(table: seq<int>)
    requires table == [0, 0]
    ensures Running(table, 2) == 1061921498
  {
    FirstZero(table);
    TimesIs(303091727, 1183980, 2138539933);
    TimesIs(2138539933, 8353872, 1177189415);
    TimesIs(1177189415, 4598506, 2615243109);
    TimesIs(2615243109, 10216038, 3370484223);
    TimesIs(3370484222, 13166270, 1061921498);
    AbsorbFourZeros(303091727);
    XorOfIndex();
  }

  lemma XorOfIndex()
    ensures Xor(3370484223, 1) == 3370484222
  {
    Power2Of32();
    assert Power2(31) == 0x8000_0000;
    XorWithZero(1685242111, 31);
    assert XorBits(3370484223, 1, 32) == 3370484222;
  }

  lemma XorOfVersion()
    ensures Xor(1061921498, 4) == 1061921502
  {
    Power2Of32();
    assert Power2(29) == 0x2000_0000;
    XorWithZero(132740187, 29);
    assert XorBits(265480374, 1, 30) == 265480375;
    assert XorBits(530960749, 2, 31) == 530960751;
    assert XorBits(1061921498, 4, 32) == 1061921502;
  }

  /** Two settings that are 0: each is followed by its index, and the whole by the version. */
  lemma FingerprintOfTwoZeros(table: seq<int>)
    requires table == [0, 0]
    ensures Of(table) == 1061921502
  {
    SecondZero(table);
    XorOfVersion();
  }
}
