/**
 Which differences between two equally long messages the CRC notices, for messages of any length.

 `XorBits(MessageBits(d), MessageBits(d'))` is the difference pattern: true where the two differ.
 */
module CrcDetection {
  import opened Bytes
  import opened Crc

  ghost predicate Nonzero(x: Bits) {
    exists k :: 0 <= k < |x| && x[k]
  }

  /** All differences lie among the `width` bits from position `at` on. */
  ghost predicate Within(x: Bits, at: nat, width: nat) {
    forall k :: 0 <= k < |x| && x[k] ==> at <= k < at + width
  }

  ghost predicate ExactlyAt(x: Bits, i: nat, j: nat) {
    forall k :: 0 <= k < |x| ==> x[k] == (k == i || k == j)
  }

  function Ones(x: Bits): nat {
    if x == [] then 0 else Ones(x[..|x| - 1]) + if x[|x| - 1] then 1 else 0
  }

  // ---------------------------------------------------------------- linearity

  lemma {:induction false} MessageBitsInjective(d: Bytes, d': Bytes)
    requires |d| == |d'|
    ensures MessageBits(d) == MessageBits(d') <==> d == d'
  {
    if MessageBits(d) == MessageBits(d') && d != [] {
      var n := |d| - 1;
      var m := MessageBits(d);
      assert m[..8 * n] == MessageBits(d[..n]) && m[8 * n..] == BitsOf(d[n], BYTE_BITS);
      assert m[..8 * n] == MessageBits(d'[..n]) && m[8 * n..] == BitsOf(d'[n], BYTE_BITS);
      MessageBitsInjective(d[..n], d'[..n]);
      assert Pow2(8) == 0x100;
      FromBitsInverts(d[n], BYTE_BITS);
      FromBitsInverts(d'[n], BYTE_BITS);
      assert d == d[..n] + [d[n]];
      assert d' == d'[..n] + [d'[n]];
    }
  }

  lemma {:induction false} RemainderLinear(a: Bits, b: Bits)
    requires |a| == |b|
    ensures Remainder(XorBits(a, b)) == Add(Remainder(a), Remainder(b))
  {
    if a != [] {
      var a', b' := a[..|a| - 1], b[..|b| - 1];
      RemainderLinear(a', b');
      assert XorBits(a, b)[..|a| - 1] == XorBits(a', b');
      FeedLinear(Remainder(a'), a[|a| - 1], Remainder(b'), b[|b| - 1]);
    }
  }

  lemma FeedLinear(c: Register, x: bool, d: Register, y: bool)
    ensures Feed(Add(c, d), x != y) == Add(Feed(c, x), Feed(d, y))
  {}

  lemma SameCrc(d: Bytes, d': Bytes)
    requires |d| == |d'|
    ensures CrcOf(d) == CrcOf(d') <==> Remainder(XorBits(MessageBits(d), MessageBits(d'))) == ZERO
  {
    RemainderLinear(MessageBits(d), MessageBits(d'));
    RegisterOfByteOf(Remainder(MessageBits(d)));
    RegisterOfByteOf(Remainder(MessageBits(d')));
    AddIsZero(Remainder(MessageBits(d)), Remainder(MessageBits(d')));
  }

  /** Two equally long messages share their CRC exactly when the polynomial divides their difference times x^8, which
      for messages with any bytes is when it divides the difference. */
  lemma CrcCollision(d: Bytes, d': Bytes)
    requires |d| == |d'|
    ensures var x := XorBits(MessageBits(d), MessageBits(d'));
            && (CrcOf(d) == CrcOf(d') <==> Divides(x + Zeros(8)))
            && (d != [] ==> (Divides(x + Zeros(8)) <==> Divides(x)))
  {
    var x := XorBits(MessageBits(d), MessageBits(d'));
    SameCrc(d, d');
    DividesExactlyWhen(x, Zeros(8));
    AlignedIsRegister(Remainder(x), Zeros(8));
    if d != [] {
      ZeroRemainder(x);
    }
  }

  lemma AddIsZero(a: Register, b: Register)
    ensures Add(a, b) == ZERO <==> a == b
  {}

  // ---------------------------------------------------------------- trailing and leading agreement

  lemma TimesXInjective(c: Register, d: Register)
    requires TimesX(c) == TimesX(d)
    ensures c == d
  {}

  lemma {:induction false} TimesXPowerZero(c: Register, n: nat)
    ensures TimesXPower(c, n) == ZERO <==> c == ZERO
  {
    if n > 0 {
      TimesXPowerZero(c, n - 1);
      if TimesXPower(c, n) == ZERO {
        TimesXInjective(TimesXPower(c, n - 1), ZERO);
      }
    }
  }

  lemma {:induction false} PowerAdds(c: Register, m: nat, n: nat)
    ensures TimesXPower(c, m + n) == TimesXPower(TimesXPower(c, m), n)
  {
    if n > 0 {
      PowerAdds(c, m, n - 1);
    }
  }

  /** Where the messages agree, the difference of the registers is multiplied by x. */
  lemma {:induction false} AgreementShifts(x: Bits, m: nat)
    requires m <= |x| && forall k :: m <= k < |x| ==> !x[k]
    ensures Remainder(x) == TimesXPower(Remainder(x[..m]), |x| - m)
  {
    if m == |x| {
      assert x[..m] == x;
    } else {
      var front := x[..|x| - 1];
      AgreementShifts(front, m);
      assert front[..m] == x[..m];
    }
  }

  lemma AgreementFromStart(x: Bits)
    requires !Nonzero(x)
    ensures Remainder(x) == ZERO
  {
    AgreementShifts(x, 0);
    TimesXPowerZero(ZERO, |x|);
  }

  /** The remainder of x^8 times a polynomial is zero exactly when the polynomial itself is divisible. */
  lemma ZeroRemainder(x: Bits)
    requires |x| >= 8
    ensures Remainder(x) == ZERO <==> Divides(x)
  {
    var n := |x| - 8;
    var front, tail := x[..n], x[n..];
    var c := Remainder(front);
    assert x == front + tail;
    RemainderConcat(front, tail);
    FeedShort(c, tail);
    TimesXPowerZero(Add(c, Aligned(tail, 0)), 8);
    AddIsZero(c, Aligned(tail, 0));
    DividesExactlyWhen(front, tail);
    AlignedIsRegister(c, tail);
  }

  lemma AlignedIsRegister(c: Register, s: Bits)
    requires |s| == 8
    ensures c == Aligned(s, 0) <==> s == BitsOfRegister(c)
  {
    var r := Aligned(s, 0);
    forall k | 0 <= k < 8 ensures BitsOfRegister(r)[k] == s[k] {
      RegisterBit(r, k);
      AlignedBit(s, k);
    }
    assert BitsOfRegister(r) == s;
    RegisterOfByteOf(c);
    RegisterOfByteOf(r);
  }

  predicate AlignedAt(s: Bits, k: nat)
    requires |s| == 8 && k < 8
  {
    Coefficient(Aligned(s, 0), k) == s[k]
  }

  lemma AlignedBit(s: Bits, k: nat)
    requires |s| == 8 && k < 8
    ensures AlignedAt(s, k)
  {
    if k == 0 {
      assert AlignedAt(s, 0);
    } else if k == 1 {
      assert AlignedAt(s, 1);
    } else if k == 2 {
      assert AlignedAt(s, 2);
    } else if k == 3 {
      assert AlignedAt(s, 3);
    } else if k == 4 {
      assert AlignedAt(s, 4);
    } else if k == 5 {
      assert AlignedAt(s, 5);
    } else if k == 6 {
      assert AlignedAt(s, 6);
    } else {
      assert AlignedAt(s, 7);
    }
  }

  // ---------------------------------------------------------------- bursts

  /** A difference confined to 8 consecutive bits always changes the CRC. */
  lemma BurstDetected(x: Bits, at: nat)
    requires Nonzero(x) && Within(x, at, 8)
    ensures Remainder(x) != ZERO
  {
    var k :| 0 <= k < |x| && x[k];
    var m := if at + 8 <= |x| then at + 8 else |x|;
    AgreementShifts(x, m);
    BurstAtEnd(x[..m], at, k);
    TimesXPowerZero(Remainder(x[..m]), |x| - m);
  }

  /** Two messages that differ, and only within 8 consecutive bits, have different CRCs. */
  lemma BurstChangesCrc(d: Bytes, d': Bytes, at: nat)
    requires |d| == |d'| && d != d'
    requires Within(XorBits(MessageBits(d), MessageBits(d')), at, 8)
    ensures CrcOf(d) != CrcOf(d')
  {
    var x := XorBits(MessageBits(d), MessageBits(d'));
    SameCrc(d, d');
    MessageBitsInjective(d, d');
    XorNonzero(MessageBits(d), MessageBits(d'));
    BurstDetected(x, at);
  }

  lemma XorNonzero(a: Bits, b: Bits)
    requires |a| == |b| && a != b
    ensures Nonzero(XorBits(a, b))
  {
    var k :| 0 <= k < |a| && a[k] != b[k];
    assert XorBits(a, b)[k];
  }

  lemma BurstAtEnd(x: Bits, at: nat, k: nat)
    requires at <= k < |x| <= at + 8 && x[k] && !Nonzero(x[..at])
    ensures Remainder(x) != ZERO
  {
    assert x[at..][k - at];
    AgreementBefore(x, at);
    ShortDifference(x[at..]);
  }

  lemma AgreementBefore(x: Bits, at: nat)
    requires at <= |x| && !Nonzero(x[..at])
    ensures Remainder(x) == FeedAll(ZERO, x[at..])
  {
    assert x == x[..at] + x[at..];
    RemainderConcat(x[..at], x[at..]);
    AgreementFromStart(x[..at]);
  }

  lemma ShortDifference(tail: Bits)
    requires |tail| <= 8 && Nonzero(tail)
    ensures FeedAll(ZERO, tail) != ZERO
  {
    FeedShort(ZERO, tail);
    ZeroAdd(Aligned(tail, 0));
    AlignedNonzero(tail);
    TimesXPowerZero(Aligned(tail, 0), |tail|);
  }

  lemma ZeroAdd(c: Register)
    ensures Add(ZERO, c) == c
  {}

  lemma AlignedNonzero(tail: Bits)
    requires |tail| <= 8 && Nonzero(tail)
    ensures Aligned(tail, 0) != ZERO
  {
    var k :| 0 <= k < |tail| && tail[k];
    assert k == 0 || k == 1 || k == 2 || k == 3 || k == 4 || k == 5 || k == 6 || k == 7;
    assert At(tail, k);
  }

  // ---------------------------------------------------------------- two flipped bits

  /** Two flipped bits go unnoticed exactly when their distance is a multiple of 127. */
  lemma TwoBitsDetected(x: Bits, i: nat, j: nat)
    requires i < j < |x| && ExactlyAt(x, i, j)
    ensures Remainder(x) == ZERO <==> (j - i) % ORDER == 0
  {
    var upTo := x[..j];
    FirstFlip(upTo, i);
    assert x[..j + 1][..j] == upTo;
    SecondFlip(TimesXPower(TOP, j - i));
    AgreementShifts(x, j + 1);
    TimesXPowerZero(Remainder(x[..j + 1]), |x| - (j + 1));
    OrderOfX(j - i);
  }

  /** Two messages that differ in two bits have the same CRC exactly when those lie a multiple of 127 apart. */
  lemma TwoFlipsSameCrc(d: Bytes, d': Bytes, i: nat, j: nat)
    requires |d| == |d'| && i < j < 8 * |d|
    requires ExactlyAt(XorBits(MessageBits(d), MessageBits(d')), i, j)
    ensures CrcOf(d) == CrcOf(d') <==> (j - i) % ORDER == 0
  {
    SameCrc(d, d');
    TwoBitsDetected(XorBits(MessageBits(d), MessageBits(d')), i, j);
  }

  lemma FirstFlip(x: Bits, i: nat)
    requires i < |x| && forall k :: 0 <= k < |x| ==> x[k] == (k == i)
    ensures Remainder(x) == TimesXPower(TOP, |x| - i)
  {
    var one := x[..i + 1];
    assert one[..i] == x[..i];
    AgreementFromStart(x[..i]);
    assert Remainder(one) == TimesXPower(TOP, 1);
    AgreementShifts(x, i + 1);
    PowerAdds(TOP, 1, |x| - i - 1);
  }

  lemma SecondFlip(c: Register)
    ensures Feed(c, true) == ZERO <==> c == TOP
  {}

  const ORDER: nat := 127

  /** x has order 127 modulo the polynomial. */
  lemma OrderOfX(d: nat)
    ensures TimesXPower(TOP, d) == TOP <==> d % ORDER == 0
  {
    Cycle();
    RemainderReturns(ORDER, d);
    if d % ORDER != 0 {
      NoShorterCycle(d % ORDER);
    }
  }

  lemma {:induction false} CycleOfMultiples(d: nat, q: nat)
    requires TimesXPower(TOP, d) == TOP
    ensures TimesXPower(TOP, d * q) == TOP
  {
    if q > 0 {
      CycleOfMultiples(d, q - 1);
      PowerAdds(TOP, d * (q - 1), d);
      assert d * (q - 1) + d == d * q;
    }
  }

  function FourSteps(c: Register): Register {
    TimesX(TimesX(TimesX(TimesX(c))))
  }

  function SixteenSteps(c: Register): Register {
    FourSteps(FourSteps(FourSteps(FourSteps(c))))
  }

  lemma FourStepsPower(c: Register)
    ensures TimesXPower(c, 4) == FourSteps(c)
  {
    assert TimesXPower(c, 2) == TimesX(TimesX(c));
  }

  lemma SixteenStepsPower(c: Register, width: nat)
    requires width == 16
    ensures TimesXPower(c, width) == SixteenSteps(c)
  {
    FourStepsPower(c);
    FourStepsPower(FourSteps(c));
    FourStepsPower(FourSteps(FourSteps(c)));
    FourStepsPower(FourSteps(FourSteps(FourSteps(c))));
    PowerAdds(c, 4, 4);
    PowerAdds(c, 8, 4);
    PowerAdds(c, 12, 4);
  }

  /** x^(16*k) * x^7 modulo the polynomial. */
  function Row(k: nat): Register
    requires k <= 8
  {
    match k
    case 0 => TOP
    case 1 => Register(false, false, true, false, false, false, true, true)
    case 2 => Register(true, true, true, true, false, false, false, true)
    case 3 => Register(true, true, true, false, true, true, false, false)
    case 4 => Register(true, true, false, false, false, false, true, false)
    case 5 => Register(false, true, true, true, false, false, true, true)
    case 6 => Register(false, false, false, true, false, true, true, false)
    case 7 => Register(false, false, true, true, false, true, false, false)
    case _ => TimesX(TOP)
  }

  lemma RowStep(k: nat)
    requires 0 < k <= 8
    ensures SixteenSteps(Row(k - 1)) == Row(k)
  {
    if k <= 4 {
      RowStepLow(k);
    } else {
      RowStepHigh(k);
    }
  }

  lemma RowStepLow(k: nat)
    requires 0 < k <= 4
    ensures SixteenSteps(Row(k - 1)) == Row(k)
  {
    if k == 1 {} else if k == 2 {} else if k == 3 {} else {}
  }

  lemma RowStepHigh(k: nat)
    requires 4 < k <= 8
    ensures SixteenSteps(Row(k - 1)) == Row(k)
  {
    if k == 5 {} else if k == 6 {} else if k == 7 {} else {}
  }

  lemma NextRow(k: nat, n: nat, width: nat)
    requires 0 < k <= 8 && width == 16 && TimesXPower(TOP, n) == Row(k - 1)
    ensures TimesXPower(TOP, n + width) == Row(k)
  {
    RowStep(k);
    SixteenStepsPower(Row(k - 1), width);
    PowerAdds(TOP, n, width);
  }

  lemma {:induction false} PowerTable(k: nat)
    requires k <= 8
    ensures TimesXPower(TOP, 16 * k) == Row(k)
  {
    if k > 0 {
      PowerTable(k - 1);
      NextRow(k, 16 * (k - 1), 16);
    }
  }

  lemma Cycle()
    ensures TimesXPower(TOP, ORDER) == TOP
  {
    PowerTable(8);
    TimesXInjective(TimesXPower(TOP, ORDER), TOP);
  }

  /** The distances after which the register returns are closed under remainders, and 127 is prime. */
  lemma {:induction false} NoShorterCycle(d: nat)
    requires 0 < d < ORDER
    requires TimesXPower(TOP, ORDER) == TOP
    ensures TimesXPower(TOP, d) != TOP
    decreases d
  {
    Prime127(d);
    if ORDER % d == 0 {
      assert TimesXPower(TOP, d) == TimesX(TimesXPower(TOP, 0));
    } else {
      NoShorterCycle(ORDER % d);
      if TimesXPower(TOP, d) == TOP {
        RemainderReturns(d, ORDER);
      }
    }
  }

  lemma RemainderReturns(d: nat, n: nat)
    requires d > 0 && TimesXPower(TOP, d) == TOP
    ensures TimesXPower(TOP, n) == TimesXPower(TOP, n % d)
  {
    var whole, r := d * (n / d), n % d;
    CycleOfMultiples(d, n / d);
    PowerAdds(TOP, whole, r);
    assert whole + r == n;
  }

  lemma Prime127(d: nat)
    requires 0 < d < ORDER
    ensures ORDER % d == 0 ==> d == 1
  {
    var q := ORDER / d;
    if d <= 11 {
      NoSmallFactor(d);
    } else if ORDER % d == 0 {
      assert d * q == ORDER;
      assert 0 < q <= 11 by {
        assert q > 11 ==> d * q >= 12 * 12;
      }
      RemainderUnique(ORDER, q, d, 0);
      NoSmallFactor(q);
    }
  }

  lemma NoSmallFactor(d: nat)
    requires 0 < d <= 11
    ensures ORDER % d == 0 ==> d == 1
  {
    if d == 2 {
      assert 127 % d == 1;
    } else if d == 3 {
      assert 127 % d == 1;
    } else if d == 4 {
      assert 127 % d == 3;
    } else if d == 5 {
      assert 127 % d == 2;
    } else if d == 6 {
      assert 127 % d == 1;
    } else if d == 7 {
      assert 127 % d == 1;
    } else if d == 8 {
      assert 127 % d == 7;
    } else if d == 9 {
      assert 127 % d == 1;
    } else if d == 10 {
      assert 127 % d == 7;
    } else if d == 11 {
      assert 127 % d == 6;
    }
  }

  // ---------------------------------------------------------------- parity

  predicate OddWeight(c: Register) {
    c.b7 != (c.b6 != (c.b5 != (c.b4 != (c.b3 != (c.b2 != (c.b1 != c.b0))))))
  }

  /** The polynomial has even weight, so the CRC carries the parity of the message. */
  lemma {:induction false} CrcParity(x: Bits)
    ensures OddWeight(Remainder(x)) <==> Ones(x) % 2 == 1
  {
    if x != [] {
      CrcParity(x[..|x| - 1]);
      FeedParity(Remainder(x[..|x| - 1]), x[|x| - 1]);
    }
  }

  lemma FeedParity(c: Register, bit: bool)
    ensures OddWeight(Feed(c, bit)) <==> (OddWeight(c) != bit)
  {}

  lemma OddDamageDetected(x: Bits)
    requires Ones(x) % 2 == 1
    ensures Remainder(x) != ZERO
  {
    CrcParity(x);
  }

  /** Two messages that differ in an odd number of bits have different CRCs. */
  lemma OddFlipsChangeCrc(d: Bytes, d': Bytes)
    requires |d| == |d'| && Ones(XorBits(MessageBits(d), MessageBits(d'))) % 2 == 1
    ensures CrcOf(d) != CrcOf(d')
  {
    SameCrc(d, d');
    OddDamageDetected(XorBits(MessageBits(d), MessageBits(d')));
  }
}
