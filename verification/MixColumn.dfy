// The column transformations of the AES round (decompiler/src/aes.c:106-128): products of a column
// with a circulant matrix over GF(2^8) (sections 5.1.3 and 5.3.3 of FIPS-197).

module MixColumn {
  import opened GaloisField

  function Xor4(a: bv8, b: bv8, c: bv8, d: bv8): bv8 {
    Xor(Xor(a, b), Xor(c, d))
  }

  // The first row of a circulant matrix. Row k is the first row rotated right by k.
  datatype Circulant = Circulant(m0: bv8, m1: bv8, m2: bv8, m3: bv8)

  const FORWARD := Circulant(0x02, 0x03, 0x01, 0x01)
  const BACKWARD := Circulant(0x0e, 0x0b, 0x0d, 0x09)

  // The byte of row 0 of `m` times the column (a, b, c, d). The byte of row k is this for
  // the column rotated left by k.
  function RowTimes(m: Circulant, a: bv8, b: bv8, c: bv8, d: bv8): bv8 {
    Xor4(Mul(a, m.m0), Mul(b, m.m1), Mul(c, m.m2), Mul(d, m.m3))
  }

  // What the column entry `a`, at distance k from row 0, contributes to row 0 of n * m.
  function Entry(n: Circulant, m0: bv8, m1: bv8, m2: bv8, m3: bv8, a: bv8): bv8 {
    Xor4(Mul(Mul(a, m0), n.m0), Mul(Mul(a, m1), n.m1), Mul(Mul(a, m2), n.m2), Mul(Mul(a, m3), n.m3))
  }

  lemma Xor4Regroups(a: bv8, b: bv8, c: bv8, d: bv8, e: bv8, f: bv8, g: bv8, h: bv8)
    ensures Xor(Xor4(a, b, c, d), Xor4(e, f, g, h)) == Xor4(Xor(a, e), Xor(b, f), Xor(c, g), Xor(d, h))
  {
    hide Xor;
    XorRegroups(Xor(a, b), Xor(c, d), Xor(e, f), Xor(g, h));
    XorRegroups(a, b, e, f);
    XorRegroups(c, d, g, h);
  }

  // Adding up a 4 by 4 table by rows or by columns is the same.
  lemma Xor4Transposes(a: bv8, b: bv8, c: bv8, d: bv8, e: bv8, f: bv8, g: bv8, h: bv8,
                       i: bv8, j: bv8, k: bv8, l: bv8, m: bv8, n: bv8, o: bv8, p: bv8)
    ensures Xor4(Xor4(a, b, c, d), Xor4(e, f, g, h), Xor4(i, j, k, l), Xor4(m, n, o, p))
         == Xor4(Xor4(a, e, i, m), Xor4(b, f, j, n), Xor4(c, g, k, o), Xor4(d, h, l, p))
  {
    hide Xor;
    Xor4Regroups(a, b, c, d, e, f, g, h);
    Xor4Regroups(i, j, k, l, m, n, o, p);
    Xor4Regroups(Xor(a, e), Xor(b, f), Xor(c, g), Xor(d, h), Xor(i, m), Xor(j, n), Xor(k, o), Xor(l, p));
  }

  lemma Xor4Rotates(a: bv8, b: bv8, c: bv8, d: bv8)
    ensures Xor4(b, c, d, a) == Xor4(a, b, c, d)
  {
    hide Xor;
    XorCommutes(d, a);
    XorRegroups(b, c, a, d);
    XorCommutes(b, a);
    XorCommutes(c, d);
  }

  lemma MulAdds4(a: bv8, b: bv8, c: bv8, d: bv8, k: bv8)
    ensures Mul(Xor4(a, b, c, d), k) == Xor4(Mul(a, k), Mul(b, k), Mul(c, k), Mul(d, k))
  {
    hide Xor;
    MulLowAdds(Xor(a, b), Xor(c, d), k, 8);
    MulLowAdds(a, b, k, 8);
    MulLowAdds(c, d, k, 8);
  }

  // The matrix product: row 0 of n applied to m applied to a column, sorted by column entry.
  lemma RowTimesComposes(n: Circulant, m: Circulant, a: bv8, b: bv8, c: bv8, d: bv8)
    ensures RowTimes(n, RowTimes(m, a, b, c, d), RowTimes(m, b, c, d, a), RowTimes(m, c, d, a, b), RowTimes(m, d, a, b, c))
         == Xor4(Entry(n, m.m0, m.m3, m.m2, m.m1, a), Entry(n, m.m1, m.m0, m.m3, m.m2, b),
                 Entry(n, m.m2, m.m1, m.m0, m.m3, c), Entry(n, m.m3, m.m2, m.m1, m.m0, d))
  {
    hide Mul, Xor4;
    MulAdds4(Mul(a, m.m0), Mul(b, m.m1), Mul(c, m.m2), Mul(d, m.m3), n.m0);
    MulAdds4(Mul(b, m.m0), Mul(c, m.m1), Mul(d, m.m2), Mul(a, m.m3), n.m1);
    MulAdds4(Mul(c, m.m0), Mul(d, m.m1), Mul(a, m.m2), Mul(b, m.m3), n.m2);
    MulAdds4(Mul(d, m.m0), Mul(a, m.m1), Mul(b, m.m2), Mul(c, m.m3), n.m3);
    var a0, b0, c0, d0 := Mul(Mul(a, m.m0), n.m0), Mul(Mul(b, m.m1), n.m0), Mul(Mul(c, m.m2), n.m0), Mul(Mul(d, m.m3), n.m0);
    var b1, c1, d1, a1 := Mul(Mul(b, m.m0), n.m1), Mul(Mul(c, m.m1), n.m1), Mul(Mul(d, m.m2), n.m1), Mul(Mul(a, m.m3), n.m1);
    var c2, d2, a2, b2 := Mul(Mul(c, m.m0), n.m2), Mul(Mul(d, m.m1), n.m2), Mul(Mul(a, m.m2), n.m2), Mul(Mul(b, m.m3), n.m2);
    var d3, a3, b3, c3 := Mul(Mul(d, m.m0), n.m3), Mul(Mul(a, m.m1), n.m3), Mul(Mul(b, m.m2), n.m3), Mul(Mul(c, m.m3), n.m3);
    Xor4Rotates(a1, b1, c1, d1);
    Xor4Rotates(b2, c2, d2, a2);
    Xor4Rotates(a2, b2, c2, d2);
    Xor4Rotates(a3, b3, c3, d3);
    Xor4Rotates(b3, c3, d3, a3);
    Xor4Rotates(c3, d3, a3, b3);
    Xor4Transposes(a0, b0, c0, d0, a1, b1, c1, d1, a2, b2, c2, d2, a3, b3, c3, d3);
  }

  // Every entry of BACKWARD * FORWARD, worked out in powers of x.

  lemma BackwardForward0(a: bv8)
    ensures Entry(BACKWARD, 2, 1, 1, 3, a) == a
  {
    var x1 := XTime(a);
    var x2 := XTime(x1);
    MulByConstants(a);
    MulByConstants(x1);
    MulByConstants(Xor(a, x1));
    XTimeAdds(a, x1);
    XTimeAdds(x1, x2);
    XTimeAdds(x2, XTime(x2));
    hide Mul, XTime;
  }

  lemma BackwardForward1(a: bv8)
    ensures Entry(BACKWARD, 3, 2, 1, 1, a) == 0
  {
    var x1 := XTime(a);
    var x2 := XTime(x1);
    MulByConstants(a);
    MulByConstants(x1);
    MulByConstants(Xor(a, x1));
    XTimeAdds(a, x1);
    XTimeAdds(x1, x2);
    XTimeAdds(x2, XTime(x2));
    hide Mul, XTime;
  }

  lemma BackwardForward2(a: bv8)
    ensures Entry(BACKWARD, 1, 3, 2, 1, a) == 0
  {
    var x1 := XTime(a);
    var x2 := XTime(x1);
    MulByConstants(a);
    MulByConstants(x1);
    MulByConstants(Xor(a, x1));
    XTimeAdds(a, x1);
    XTimeAdds(x1, x2);
    XTimeAdds(x2, XTime(x2));
    hide Mul, XTime;
  }

  lemma BackwardForward3(a: bv8)
    ensures Entry(BACKWARD, 1, 1, 3, 2, a) == 0
  {
    var x1 := XTime(a);
    var x2 := XTime(x1);
    MulByConstants(a);
    MulByConstants(x1);
    MulByConstants(Xor(a, x1));
    XTimeAdds(a, x1);
    XTimeAdds(x1, x2);
    XTimeAdds(x2, XTime(x2));
    hide Mul, XTime;
  }

  // The same products in another order.
  lemma Xor4Mirrors(a: bv8, b: bv8, c: bv8, d: bv8)
    ensures Xor4(a, d, c, b) == Xor4(a, b, c, d)
    ensures Xor4(b, a, d, c) == Xor4(a, b, c, d)
    ensures Xor4(c, b, a, d) == Xor4(a, b, c, d)
    ensures Xor4(d, c, b, a) == Xor4(a, b, c, d)
  {
    hide Xor;
    XorRegroups(a, b, c, d);
    XorRegroups(a, d, c, b);
    XorCommutes(b, d);
    XorCommutes(a, b);
    XorCommutes(c, d);
    XorCommutes(a, c);
    XorRegroups(c, b, a, d);
    XorCommutes(Xor(a, b), Xor(c, d));
  }

  // Every entry of FORWARD * BACKWARD.
  lemma ForwardBackwardEntries(a: bv8)
    ensures Entry(FORWARD, 0x0e, 0x09, 0x0d, 0x0b, a) == a
    ensures Entry(FORWARD, 0x0b, 0x0e, 0x09, 0x0d, a) == 0
    ensures Entry(FORWARD, 0x0d, 0x0b, 0x0e, 0x09, a) == 0
    ensures Entry(FORWARD, 0x09, 0x0d, 0x0b, 0x0e, a) == 0
  {
    BackwardForward0(a);
    BackwardForward1(a);
    BackwardForward2(a);
    BackwardForward3(a);
    MulCommutesWithSmall(a, 0x0e);
    MulCommutesWithSmall(a, 0x0b);
    MulCommutesWithSmall(a, 0x0d);
    MulCommutesWithSmall(a, 0x09);
    hide Xor4, Mul;
    var a1, a2, a3 := Mul(a, 1), Mul(a, 2), Mul(a, 3);
    Xor4Mirrors(Mul(a2, 0x0e), Mul(a1, 0x0b), Mul(a1, 0x0d), Mul(a3, 0x09));
    Xor4Mirrors(Mul(a3, 0x0e), Mul(a2, 0x0b), Mul(a1, 0x0d), Mul(a1, 0x09));
    Xor4Mirrors(Mul(a1, 0x0e), Mul(a3, 0x0b), Mul(a2, 0x0d), Mul(a1, 0x09));
    Xor4Mirrors(Mul(a1, 0x0e), Mul(a1, 0x0b), Mul(a3, 0x0d), Mul(a2, 0x09));
  }

  // InvMixColumns undoes MixColumns on each byte ...
  lemma BackwardUndoesForward(a: bv8, b: bv8, c: bv8, d: bv8)
    ensures RowTimes(BACKWARD, RowTimes(FORWARD, a, b, c, d), RowTimes(FORWARD, b, c, d, a),
                     RowTimes(FORWARD, c, d, a, b), RowTimes(FORWARD, d, a, b, c)) == a
  {
    hide Xor, Entry, RowTimes;
    RowTimesComposes(BACKWARD, FORWARD, a, b, c, d);
    BackwardForward0(a);
    BackwardForward1(b);
    BackwardForward2(c);
    BackwardForward3(d);
    XorZero(a);
    XorZero(0);
  }

  // ... and MixColumns undoes InvMixColumns.
  lemma ForwardUndoesBackward(a: bv8, b: bv8, c: bv8, d: bv8)
    ensures RowTimes(FORWARD, RowTimes(BACKWARD, a, b, c, d), RowTimes(BACKWARD, b, c, d, a),
                     RowTimes(BACKWARD, c, d, a, b), RowTimes(BACKWARD, d, a, b, c)) == a
  {
    hide Xor, Entry, RowTimes;
    RowTimesComposes(FORWARD, BACKWARD, a, b, c, d);
    ForwardBackwardEntries(a);
    ForwardBackwardEntries(b);
    ForwardBackwardEntries(c);
    ForwardBackwardEntries(d);
    XorZero(a);
    XorZero(0);
  }

  // The xtime form in which the code computes a forward row; `t` is the sum of the column.
  lemma ForwardByXTime(t: bv8, a: bv8, b: bv8, c: bv8, d: bv8)
    requires t == Xor4(a, b, c, d)
    ensures Xor(a, Xor(t, XTime(Xor(a, b)))) == RowTimes(FORWARD, a, b, c, d)
  {
    MulByConstants(a);
    MulByConstants(b);
    MulByConstants(c);
    MulByConstants(d);
    XTimeAdds(a, b);
    hide Xor, XTime, Mul;
    var xa, xb := XTime(a), XTime(b);
    var rest := Xor(b, Xor(c, d));
    assert t == Xor(a, rest) by {
      XorAssociates(a, b, Xor(c, d));
    }
    assert Xor(a, Xor(t, Xor(xa, xb))) == Xor(rest, Xor(xa, xb)) by {
      XorAssociates(a, t, Xor(xa, xb));
      XorAssociates(a, a, rest);
      XorZero(a);
      XorZero(rest);
    }
    calc {
      Xor(rest, Xor(xa, xb));
      { XorCommutes(rest, Xor(xa, xb)); }
      Xor(Xor(xa, xb), Xor(b, Xor(c, d)));
      { XorAssociates(Xor(xa, xb), b, Xor(c, d)); }
      Xor(Xor(Xor(xa, xb), b), Xor(c, d));
      { XorAssociates(xa, xb, b); XorCommutes(xb, b); }
      Xor(Xor(xa, Xor(b, xb)), Xor(c, d));
      Xor4(xa, Xor(b, xb), c, d);
    }
  }

  lemma SumOfColumn(a: bv8, b: bv8, c: bv8, d: bv8)
    ensures Xor(Xor(Xor(a, b), c), d) == Xor4(a, b, c, d)
  {
    hide Xor;
    XorAssociates(Xor(a, b), c, d);
  }
}
