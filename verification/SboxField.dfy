/** The S-box of TinyAES as section 5.1.1 of FIPS 197 defines it: the inverse in GF(2^8),
    then an affine map of its bits. */
module SboxField {
  import opened AesTables
  import opened AesColumns

  /** The product of the polynomials: one summand for each bit of b. */
  function RawProduct(a: bv16, b: bv16): bv16 {
    (if b & 1 == 0 then 0 else a)
    ^ (if b & 2 == 0 then 0 else a << 1)
    ^ (if b & 4 == 0 then 0 else a << 2)
    ^ (if b & 8 == 0 then 0 else a << 3)
    ^ (if b & 0x10 == 0 then 0 else a << 4)
    ^ (if b & 0x20 == 0 then 0 else a << 5)
    ^ (if b & 0x40 == 0 then 0 else a << 6)
    ^ (if b & 0x80 == 0 then 0 else a << 7)
  }

  /** What is left of it on division by x^8 + x^4 + x^3 + x + 1. */
  function Reduced(p: bv16): bv8 {
    var q := if p & 0x4000 == 0 then p else p ^ 0x46c0;
    var r := if q & 0x2000 == 0 then q else q ^ 0x2360;
    var s := if r & 0x1000 == 0 then r else r ^ 0x11b0;
    var t := if s & 0x800 == 0 then s else s ^ 0x8d8;
    var u := if t & 0x400 == 0 then t else t ^ 0x46c;
    var v := if u & 0x200 == 0 then u else u ^ 0x236;
    var w := if v & 0x100 == 0 then v else v ^ 0x11b;
    (w & 0xff) as bv8
  }

  /** The product in GF(2^8). */
  function Product(a: bv8, b: bv8): bv8 { Reduced(RawProduct(a as bv16, b as bv16)) }

  /** TinyAES's xtime is the product with x. */
  lemma XtimeIsTimesX(a: bv8)
    ensures Xtime(a) == Product(a, 2)
  {
  }

  /** Bit i becomes the sum of the bits i, i + 4, i + 5, i + 6 and i + 7 and of bit i of 0x63. */
  function Affine(b: bv8): bv8 {
    b ^ ((b << 1) | (b >> 7)) ^ ((b << 2) | (b >> 6)) ^ ((b << 3) | (b >> 5)) ^ ((b << 4) | (b >> 4)) ^ 0x63
  }

  /** The octet that the affine map takes to s. */
  function Unaffine(s: bv8): bv8 {
    ((s << 1) | (s >> 7)) ^ ((s << 3) | (s >> 5)) ^ ((s << 6) | (s >> 2)) ^ 0x05
  }

  lemma AffineUndone(s: bv8)
    ensures Affine(Unaffine(s)) == s
  {
  }

  /** Zero counts as its own inverse. */
  ghost predicate Inverse(a: bv8, b: bv8) { if a == 0 then b == 0 else Product(a, b) == 1 }

  lemma Row0(a: bv8)
    requires a >> 4 == 0
    ensures Inverse(a, Unaffine(SboxRow0(a)))
  {
  }

  lemma Row1(a: bv8)
    requires a >> 4 == 1
    ensures Inverse(a, Unaffine(SboxRow1(a)))
  {
  }

  lemma Row2(a: bv8)
    requires a >> 4 == 2
    ensures Inverse(a, Unaffine(SboxRow2(a)))
  {
  }

  lemma Row3(a: bv8)
    requires a >> 4 == 3
    ensures Inverse(a, Unaffine(SboxRow3(a)))
  {
  }

  lemma Row4(a: bv8)
    requires a >> 4 == 4
    ensures Inverse(a, Unaffine(SboxRow4(a)))
  {
  }

  lemma Row5(a: bv8)
    requires a >> 4 == 5
    ensures Inverse(a, Unaffine(SboxRow5(a)))
  {
  }

  lemma Row6(a: bv8)
    requires a >> 4 == 6
    ensures Inverse(a, Unaffine(SboxRow6(a)))
  {
  }

  lemma Row7(a: bv8)
    requires a >> 4 == 7
    ensures Inverse(a, Unaffine(SboxRow7(a)))
  {
  }

  lemma Row8(a: bv8)
    requires a >> 4 == 8
    ensures Inverse(a, Unaffine(SboxRow8(a)))
  {
  }

  lemma Row9(a: bv8)
    requires a >> 4 == 9
    ensures Inverse(a, Unaffine(SboxRow9(a)))
  {
  }

  lemma Row10(a: bv8)
    requires a >> 4 == 10
    ensures Inverse(a, Unaffine(SboxRow10(a)))
  {
  }

  lemma Row11(a: bv8)
    requires a >> 4 == 11
    ensures Inverse(a, Unaffine(SboxRow11(a)))
  {
  }

  lemma Row12(a: bv8)
    requires a >> 4 == 12
    ensures Inverse(a, Unaffine(SboxRow12(a)))
  {
  }

  lemma Row13(a: bv8)
    requires a >> 4 == 13
    ensures Inverse(a, Unaffine(SboxRow13(a)))
  {
  }

  lemma Row14(a: bv8)
    requires a >> 4 == 14
    ensures Inverse(a, Unaffine(SboxRow14(a)))
  {
  }

  lemma Row15(a: bv8)
    requires a >> 4 == 15
    ensures Inverse(a, Unaffine(SboxRow15(a)))
  {
  }

  /** Every entry of the table is the affine map of the inverse of its octet. */
  lemma SboxIsAffineOfInverse(a: bv8) returns (b: bv8)
    ensures Inverse(a, b) && Sbox(a) == Affine(b)
  {
    hide Affine, Unaffine, Inverse;
    hide SboxRow0, SboxRow1, SboxRow2, SboxRow3, SboxRow4, SboxRow5, SboxRow6, SboxRow7,
        SboxRow8, SboxRow9, SboxRow10, SboxRow11, SboxRow12, SboxRow13, SboxRow14, SboxRow15;
    b := Unaffine(Sbox(a));
    AffineUndone(Sbox(a));
    var row := a >> 4;
    if row == 0 {
      Row0(a);
    } else if row == 1 {
      Row1(a);
    } else if row == 2 {
      Row2(a);
    } else if row == 3 {
      Row3(a);
    } else if row == 4 {
      Row4(a);
    } else if row == 5 {
      Row5(a);
    } else if row == 6 {
      Row6(a);
    } else if row == 7 {
      Row7(a);
    } else if row == 8 {
      Row8(a);
    } else if row == 9 {
      Row9(a);
    } else if row == 10 {
      Row10(a);
    } else if row == 11 {
      Row11(a);
    } else if row == 12 {
      Row12(a);
    } else if row == 13 {
      Row13(a);
    } else if row == 14 {
      Row14(a);
    } else {
      Row15(a);
    }
  }
}
