// Arithmetic in GF(2^8) as decompiler/src/aes.c performs it (section 4.2 of FIPS-197).

module GaloisField {

  // Addition.
  function Xor(a: bv8, b: bv8): bv8 {
    a ^ b
  }

  // Multiplication by the polynomial x.
  function XTime(x: bv8): bv8 {
    (x << 1) ^ (((x >> 7) & 1) * 0x1b)
  }

  // The product of `a` with the lowest coefficient of `b`.
  function Bit0(a: bv8, b: bv8): bv8 {
    if b & 1 == 1 then a else 0
  }

  // The product of `a` with the polynomial formed by the low `n` bits of `b`.
  function MulLow(a: bv8, b: bv8, n: nat): bv8
    decreases n
  {
    if n == 0 then 0 else Xor(Bit0(a, b), MulLow(XTime(a), b >> 1, n - 1))
  }

  // The field product.
  function Mul(a: bv8, b: bv8): bv8 {
    MulLow(a, b, 8)
  }

  method GMul(a: bv8, b: bv8) returns (p: bv8)
    ensures p == Mul(a, b)
  {
    p := 0;
    var a', b' := a, b;
    XorZero(Mul(a, b));
    for i := 0 to 8
      invariant Xor(p, MulLow(a', b', 8 - i)) == Mul(a, b)
    {
      hide Xor, XTime;
      XorAssociates(p, Bit0(a', b'), MulLow(XTime(a'), b' >> 1, 8 - i - 1));
      XorZero(p);
      if b' & 1 == 1 {
        p := Xor(p, a');
      }
      a' := XTime(a');
      b' := b' >> 1;
    }
    XorZero(p);
  }

  lemma XorZero(a: bv8)
    ensures Xor(a, 0) == Xor(0, a) == a
    ensures Xor(a, a) == 0
  {
  }

  lemma XorCommutes(a: bv8, b: bv8)
    ensures Xor(a, b) == Xor(b, a)
  {
  }

  lemma XorAssociates(a: bv8, b: bv8, c: bv8)
    ensures Xor(Xor(a, b), c) == Xor(a, Xor(b, c))
  {
  }

  lemma XorTwice(a: bv8, k: bv8)
    ensures Xor(Xor(a, k), k) == a
  {
  }

  lemma XorRegroups(a: bv8, b: bv8, c: bv8, d: bv8)
    ensures Xor(Xor(a, b), Xor(c, d)) == Xor(Xor(a, c), Xor(b, d))
  {
    hide Xor;
    XorAssociates(a, b, Xor(c, d));
    XorAssociates(b, c, d);
    XorCommutes(b, c);
    XorAssociates(c, b, d);
    XorAssociates(a, c, Xor(b, d));
  }

  lemma XTimeAdds(a: bv8, b: bv8)
    ensures XTime(Xor(a, b)) == Xor(XTime(a), XTime(b))
  {
  }

  lemma Bit0Adds(a: bv8, b: bv8, c: bv8)
    ensures Bit0(Xor(a, b), c) == Xor(Bit0(a, c), Bit0(b, c))
  {
  }

  lemma Bit0AddsRight(a: bv8, b: bv8, c: bv8)
    ensures Bit0(a, Xor(b, c)) == Xor(Bit0(a, b), Bit0(a, c))
  {
  }

  lemma ShiftAdds(b: bv8, c: bv8)
    ensures Xor(b, c) >> 1 == Xor(b >> 1, c >> 1)
  {
  }

  // The product distributes over addition in its first argument ...
  lemma {:induction false} MulLowAdds(a: bv8, c: bv8, b: bv8, n: nat)
    ensures MulLow(Xor(a, c), b, n) == Xor(MulLow(a, b, n), MulLow(c, b, n))
    decreases n
  {
    if n == 0 {
      XorZero(0);
    } else {
      hide Xor, XTime, Bit0;
      XTimeAdds(a, c);
      MulLowAdds(XTime(a), XTime(c), b >> 1, n - 1);
      Bit0Adds(a, c, b);
      XorRegroups(Bit0(a, b), Bit0(c, b), MulLow(XTime(a), b >> 1, n - 1), MulLow(XTime(c), b >> 1, n - 1));
    }
  }

  // ... and in its second.
  lemma {:induction false} MulLowAddsRight(a: bv8, b: bv8, c: bv8, n: nat)
    ensures MulLow(a, Xor(b, c), n) == Xor(MulLow(a, b, n), MulLow(a, c, n))
    decreases n
  {
    if n == 0 {
      XorZero(0);
    } else {
      hide Xor, XTime, Bit0;
      ShiftAdds(b, c);
      MulLowAddsRight(XTime(a), b >> 1, c >> 1, n - 1);
      Bit0AddsRight(a, b, c);
      XorRegroups(Bit0(a, b), Bit0(a, c), MulLow(XTime(a), b >> 1, n - 1), MulLow(XTime(a), c >> 1, n - 1));
    }
  }

  lemma {:induction false} MulLowByZero(a: bv8, n: nat)
    ensures MulLow(a, 0, n) == 0
    decreases n
  {
    if n > 0 {
      hide XTime;
      MulLowByZero(XTime(a), n - 1);
    }
  }

  // The constant factors that the cipher uses, in powers of x.
  lemma MulByConstants(a: bv8)
    ensures var x1 := XTime(a); var x2 := XTime(x1); var x3 := XTime(x2);
      && Mul(a, 1) == a
      && Mul(a, 2) == x1
      && Mul(a, 3) == Xor(a, x1)
      && Mul(a, 0x09) == Xor(a, x3)
      && Mul(a, 0x0b) == Xor(a, Xor(x1, x3))
      && Mul(a, 0x0d) == Xor(a, Xor(x2, x3))
      && Mul(a, 0x0e) == Xor(x1, Xor(x2, x3))
  {
    var x1 := XTime(a);
    var x2 := XTime(x1);
    var x3 := XTime(x2);
    MulLowByZero(x1, 7);
    MulLowByZero(x2, 6);
    MulLowByZero(XTime(x3), 4);
    hide XTime, Xor;
    XorZero(a);
    XorZero(x1);
    XorZero(x3);
    XorZero(Xor(x1, x3));
    XorZero(Xor(x2, x3));
    XorZero(Xor(x1, Xor(x2, x3)));
    assert MulLow(a, 1, 8) == a;
    assert MulLow(a, 2, 8) == x1;
    assert MulLow(a, 3, 8) == Xor(a, x1);
    assert MulLow(x3, 1, 5) == x3;
    assert MulLow(x2, 2, 6) == x3;
    assert MulLow(x2, 3, 6) == Xor(x2, x3);
  }

  // Multiplication commutes with multiplication by x ...
  lemma {:induction false} XTimeMulLow(a: bv8, b: bv8, n: nat)
    ensures MulLow(XTime(a), b, n) == XTime(MulLow(a, b, n))
    decreases n
  {
    if n == 0 {
      XTimeOfZero();
    } else {
      XTimeOfBit0(a, b);
      hide Xor, XTime, Bit0;
      XTimeMulLow(XTime(a), b >> 1, n - 1);
      XTimeAdds(Bit0(a, b), MulLow(XTime(a), b >> 1, n - 1));
    }
  }

  lemma XTimeOfZero()
    ensures XTime(0) == 0
  {
  }

  lemma XTimeOfBit0(a: bv8, b: bv8)
    ensures Bit0(XTime(a), b) == XTime(Bit0(a, b))
  {
    XTimeOfZero();
    hide XTime;
  }

  // ... and so with multiplication by each entry of the forward matrix.
  lemma MulCommutesWithSmall(a: bv8, k: bv8)
    ensures Mul(Mul(a, k), 1) == Mul(Mul(a, 1), k)
    ensures Mul(Mul(a, k), 2) == Mul(Mul(a, 2), k)
    ensures Mul(Mul(a, k), 3) == Mul(Mul(a, 3), k)
  {
    hide Xor, XTime;
    MulByConstants(a);
    MulByConstants(Mul(a, k));
    XTimeMulLow(a, k, 8);
    MulLowAdds(a, XTime(a), k, 8);
  }
}
