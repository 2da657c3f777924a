// What the S-box of decompiler/src/aes.c:6-23 is: the affine map of the inverse in GF(2^8)
// (section 5.1.1 of FIPS-197).

module AffineBox {
  import opened GaloisField
  import opened SubstitutionBox

  // Equation 5.2 of FIPS-197.
  function AffineMap(y: bv8): bv8 {
    y ^ y.RotateLeft(1) ^ y.RotateLeft(2) ^ y.RotateLeft(3) ^ y.RotateLeft(4) ^ 0x63
  }

  // The byte whose affine image the table holds for `x`.
  function Inverse(x: bv8): bv8 {
    var s := SBox(x);
    s.RotateLeft(1) ^ s.RotateLeft(3) ^ s.RotateLeft(6) ^ 0x05
  }

  // Four steps of the field product, and then `rest`.
  function FourSteps(a: bv8, b: bv8, rest: bv8): bv8 {
    var a1 := XTime(a);
    var a2 := XTime(a1);
    var a3 := XTime(a2);
    Xor(Bit0(a, b), Xor(Bit0(a1, b >> 1), Xor(Bit0(a2, b >> 2), Xor(Bit0(a3, b >> 3), rest))))
  }

  function Product(a: bv8, b: bv8): bv8 {
    FourSteps(a, b, FourSteps(XTime(XTime(XTime(XTime(a)))), b >> 4, 0))
  }

  lemma FourStepsOfMul(a: bv8, b: bv8, n: nat)
    ensures MulLow(a, b, n + 4) == FourSteps(a, b, MulLow(XTime(XTime(XTime(XTime(a)))), b >> 4, n))
  {
    hide XTime, Bit0, Xor;
    Shifts(b);
    var a1 := XTime(a);
    var a2 := XTime(a1);
    var a3 := XTime(a2);
    assert MulLow(a3, b >> 3, n + 1) == Xor(Bit0(a3, b >> 3), MulLow(XTime(a3), b >> 4, n));
    assert MulLow(a2, b >> 2, n + 2) == Xor(Bit0(a2, b >> 2), MulLow(a3, b >> 3, n + 1));
    assert MulLow(a1, b >> 1, n + 3) == Xor(Bit0(a1, b >> 1), MulLow(a2, b >> 2, n + 2));
  }

  lemma Shifts(b: bv8)
    ensures (b >> 1) >> 1 == b >> 2 && (b >> 2) >> 1 == b >> 3 && (b >> 3) >> 1 == b >> 4
  {
  }

  lemma ProductIsMul(a: bv8, b: bv8)
    ensures Product(a, b) == Mul(a, b)
  {
    var a4 := XTime(XTime(XTime(XTime(a))));
    FourStepsOfMul(a, b, 4);
    FourStepsOfMul(a4, b >> 4, 0);
    assert MulLow(XTime(XTime(XTime(XTime(a4)))), (b >> 4) >> 4, 0) == 0;
    hide XTime, FourSteps;
  }

  lemma InverseQuarter0(x: bv8)
    requires x >> 6 == 0
    ensures x != 0 ==> Product(x, Inverse(x)) == 1
  {
    match x >> 4
    case 0 =>
    case 1 =>
    case 2 =>
    case _ =>
  }

  lemma InverseQuarter1(x: bv8)
    requires x >> 6 == 1
    ensures x != 0 ==> Product(x, Inverse(x)) == 1
  {
    match x >> 4
    case 4 =>
    case 5 =>
    case 6 =>
    case _ =>
  }

  lemma InverseQuarter2(x: bv8)
    requires x >> 6 == 2
    ensures x != 0 ==> Product(x, Inverse(x)) == 1
  {
    match x >> 4
    case 8 =>
    case 9 =>
    case 10 =>
    case _ =>
  }

  lemma InverseQuarter3(x: bv8)
    requires x >> 6 == 3
    ensures x != 0 ==> Product(x, Inverse(x)) == 1
  {
    match x >> 4
    case 12 =>
    case 13 =>
    case 14 =>
    case _ =>
  }

  // Every entry is the affine image of the byte's inverse in the field, where 0 stands for the
  // inverse of 0.
  lemma SBoxIsAffine(x: bv8)
    ensures SBox(x) == AffineMap(Inverse(x))
    ensures if x == 0 then Inverse(x) == 0 else Mul(x, Inverse(x)) == 1
  {
    ProductIsMul(x, Inverse(x));
    if x >> 6 == 0 {
      InverseQuarter0(x);
    } else if x >> 6 == 1 {
      InverseQuarter1(x);
    } else if x >> 6 == 2 {
      InverseQuarter2(x);
    } else {
      TopQuarter(x);
      InverseQuarter3(x);
    }
    AffineOfInverse(x);
    InverseOfZero();
    hide SBox, Inverse, AffineMap, Product, Mul;
  }

  lemma TopQuarter(x: bv8)
    ensures x >> 6 == 0 || x >> 6 == 1 || x >> 6 == 2 || x >> 6 == 3
  {
  }

  lemma AffineOfInverse(x: bv8)
    ensures AffineMap(Inverse(x)) == SBox(x)
  {
  }

  lemma InverseOfZero()
    ensures Inverse(0) == 0
  {
  }
}
