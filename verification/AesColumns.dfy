/** Arithmetic on the columns of the AES state in GF(2^8), as TinyAES does it
    (sections 5.1.3 and 5.3.3 of FIPS 197). */
module AesColumns {
  import L = LinearMaps

  function Xtime(x: bv8): bv8 {
    (x << 1) ^ (((x >> 7) & 1) * 0x1b)
  }

  function Multiply(x: bv8, y: bv8): bv8 {
    ((y & 1) * x)
    ^ (((y >> 1) & 1) * Xtime(x))
    ^ (((y >> 2) & 1) * Xtime(Xtime(x)))
    ^ (((y >> 3) & 1) * Xtime(Xtime(Xtime(x))))
    ^ (((y >> 4) & 1) * Xtime(Xtime(Xtime(Xtime(x)))))
  }

  datatype Column = Column(a: bv8, b: bv8, c: bv8, d: bv8)

  function Plus(x: bv8, y: bv8): bv8 { x ^ y }

  /** The body of the loop of MixColumns. */
  function MixColumn(s: Column): Column {
    var tmp := Plus(Plus(Plus(s.a, s.b), s.c), s.d);
    Column(Plus(s.a, Plus(Xtime(Plus(s.a, s.b)), tmp)),
           Plus(s.b, Plus(Xtime(Plus(s.b, s.c)), tmp)),
           Plus(s.c, Plus(Xtime(Plus(s.c, s.d)), tmp)),
           Plus(s.d, Plus(Xtime(Plus(s.d, s.a)), tmp)))
  }

  /** The body of the loop of InvMixColumns. */
  function InvMixColumn(s: Column): Column {
    Column(Plus(Plus(Plus(Multiply(s.a, 0x0e), Multiply(s.b, 0x0b)), Multiply(s.c, 0x0d)), Multiply(s.d, 0x09)),
           Plus(Plus(Plus(Multiply(s.a, 0x09), Multiply(s.b, 0x0e)), Multiply(s.c, 0x0b)), Multiply(s.d, 0x0d)),
           Plus(Plus(Plus(Multiply(s.a, 0x0d), Multiply(s.b, 0x09)), Multiply(s.c, 0x0e)), Multiply(s.d, 0x0b)),
           Plus(Plus(Plus(Multiply(s.a, 0x0b), Multiply(s.b, 0x0d)), Multiply(s.c, 0x09)), Multiply(s.d, 0x0e)))
  }

  // ----- Sums -----

  function Plus4(p: bv8, q: bv8, r: bv8, s: bv8): bv8 { L.Sum4(Plus, p, q, r, s) }

  lemma PlusInterchanges()
    ensures L.Interchanges(Plus)
  {
    forall a, b, c, d ensures Plus(Plus(a, b), Plus(c, d)) == Plus(Plus(a, c), Plus(b, d)) {
      PlusInterchangesAt(a, b, c, d);
    }
  }

  lemma PlusInterchangesAt(a: bv8, b: bv8, c: bv8, d: bv8)
    ensures (a ^ b) ^ (c ^ d) == (a ^ c) ^ (b ^ d)
  {
  }

  // ----- The maps are linear -----

  function Id(x: bv8): bv8 { x }
  function Times2(x: bv8): bv8 { Xtime(x) }
  function Times4(x: bv8): bv8 { Times2(Times2(x)) }
  function Times8(x: bv8): bv8 { Times2(Times4(x)) }
  function Times3(x: bv8): bv8 { Plus(Times2(x), x) }
  function Times5(x: bv8): bv8 { Plus(Times4(x), x) }
  function Times6(x: bv8): bv8 { Plus(Times4(x), Times2(x)) }
  function Times9(x: bv8): bv8 { Plus(Times8(x), x) }
  function Times11(x: bv8): bv8 { Plus(Times8(x), Times3(x)) }
  function Times13(x: bv8): bv8 { Plus(Times8(x), Times5(x)) }
  function Times14(x: bv8): bv8 { Plus(Times8(x), Times6(x)) }

  lemma Times2Linear()
    ensures L.Linear(Times2, Plus)
  {
    forall x, y ensures Times2(Plus(x, y)) == Plus(Times2(x), Times2(y)) {
      XtimeLinearAt(x, y);
    }
  }

  lemma XtimeLinearAt(x: bv8, y: bv8)
    ensures Xtime(x ^ y) == Xtime(x) ^ Xtime(y)
  {
  }

  lemma IdLinear()
    ensures L.Linear(Id, Plus)
  {
  }

  lemma PowersLinear()
    ensures L.Linear(Times2, Plus) && L.Linear(Times4, Plus) && L.Linear(Times8, Plus)
  {
    Times2Linear();
    assert L.IsComposition(Times4, Times2, Times2);
    L.CompositionLinear(Times4, Times2, Times2, Plus);
    assert L.IsComposition(Times8, Times2, Times4);
    L.CompositionLinear(Times8, Times2, Times4, Plus);
  }

  lemma SmallLinear()
    ensures L.Linear(Times3, Plus) && L.Linear(Times5, Plus) && L.Linear(Times6, Plus)
  {
    PowersLinear();
    IdLinear();
    PlusInterchanges();
    assert L.IsSum(Times3, Times2, Id, Plus);
    L.SumLinear(Times3, Times2, Id, Plus);
    assert L.IsSum(Times5, Times4, Id, Plus);
    L.SumLinear(Times5, Times4, Id, Plus);
    assert L.IsSum(Times6, Times4, Times2, Plus);
    L.SumLinear(Times6, Times4, Times2, Plus);
  }

  lemma LargeLinear()
    ensures L.Linear(Times9, Plus) && L.Linear(Times11, Plus)
    ensures L.Linear(Times13, Plus) && L.Linear(Times14, Plus)
  {
    PowersLinear();
    IdLinear();
    SmallLinear();
    PlusInterchanges();
    assert L.IsSum(Times9, Times8, Id, Plus);
    L.SumLinear(Times9, Times8, Id, Plus);
    assert L.IsSum(Times11, Times8, Times3, Plus);
    L.SumLinear(Times11, Times8, Times3, Plus);
    assert L.IsSum(Times13, Times8, Times5, Plus);
    L.SumLinear(Times13, Times8, Times5, Plus);
    assert L.IsSum(Times14, Times8, Times6, Plus);
    L.SumLinear(Times14, Times8, Times6, Plus);
  }

  lemma MultiplyIsTimes9(x: bv8)
    ensures Multiply(x, 0x09) == Times9(x)
  {
    hide Xtime;
  }

  lemma MultiplyIsTimes11(x: bv8)
    ensures Multiply(x, 0x0b) == Times11(x)
  {
    hide Xtime;
  }

  lemma MultiplyIsTimes13(x: bv8)
    ensures Multiply(x, 0x0d) == Times13(x)
  {
    hide Xtime;
  }

  lemma MultiplyIsTimes14(x: bv8)
    ensures Multiply(x, 0x0e) == Times14(x)
  {
    hide Xtime;
  }

  // ----- The column maps as matrices (sections 5.1.3 and 5.3.3 of FIPS 197) -----

  function MixMatrix(s: Column): Column {
    Column(Plus4(Times2(s.a), Times3(s.b), Id(s.c), Id(s.d)),
           Plus4(Id(s.a), Times2(s.b), Times3(s.c), Id(s.d)),
           Plus4(Id(s.a), Id(s.b), Times2(s.c), Times3(s.d)),
           Plus4(Times3(s.a), Id(s.b), Id(s.c), Times2(s.d)))
  }

  function InvMixMatrix(s: Column): Column {
    Column(Plus4(Times14(s.a), Times11(s.b), Times13(s.c), Times9(s.d)),
           Plus4(Times9(s.a), Times14(s.b), Times11(s.c), Times13(s.d)),
           Plus4(Times13(s.a), Times9(s.b), Times14(s.c), Times11(s.d)),
           Plus4(Times11(s.a), Times13(s.b), Times9(s.c), Times14(s.d)))
  }

  lemma MixRow(p: bv8, q: bv8, r: bv8, s: bv8)
    ensures Plus(p, Plus(Xtime(Plus(p, q)), Plus(Plus(Plus(p, q), r), s)))
         == Plus4(Times2(p), Times3(q), r, s)
  {
    Times2Linear();
    PlusIsAssociative();
    PlusInterchanges();
    PlusCommutes(Times2(p), p);
    PlusCancels(p);
    L.MixShortcut(Plus, p, q, r, s, Times2(p), Times2(q));
  }

  lemma PlusIsAssociative()
    ensures L.Associative(Plus)
  {
    forall a, b, c ensures Plus(Plus(a, b), c) == Plus(a, Plus(b, c)) {
      PlusAssociativeAt(a, b, c);
    }
  }

  lemma PlusAssociativeAt(a: bv8, b: bv8, c: bv8)
    ensures (a ^ b) ^ c == a ^ (b ^ c)
  {
  }

  lemma PlusCommutes(a: bv8, b: bv8)
    ensures Plus(a, b) == Plus(b, a)
  {
  }

  lemma PlusCancels(p: bv8)
    ensures forall x {:trigger Plus(p, Plus(p, x))} :: Plus(p, Plus(p, x)) == x
  {
    forall x ensures Plus(p, Plus(p, x)) == x {
      PlusCancelsAt(p, x);
    }
  }

  lemma PlusCancelsAt(p: bv8, x: bv8)
    ensures p ^ (p ^ x) == x
  {
  }

  lemma Rotate(p: bv8, q: bv8, r: bv8, s: bv8)
    ensures Plus(Plus(Plus(s, p), q), r) == Plus(Plus(Plus(p, q), r), s)
  {
  }

  lemma RotateSum(p: bv8, q: bv8, r: bv8, s: bv8)
    ensures Plus4(p, q, r, s) == Plus4(s, p, q, r)
  {
    PlusInterchanges();
    PlusCommutes(r, s);
    PlusCommutes(p, s);
    L.RotateSum4(Plus, p, q, r, s);
  }

  /** MixColumns as the source computes it is multiplication by the matrix. */
  lemma MixColumnIsMatrix(s: Column)
    ensures MixColumn(s) == MixMatrix(s)
  {
    var a, b, c, d := s.a, s.b, s.c, s.d;
    MixFirst(a, b, c, d);
    MixSecond(a, b, c, d);
    MixThird(a, b, c, d);
    MixFourth(a, b, c, d);
  }

  function Tmp(a: bv8, b: bv8, c: bv8, d: bv8): bv8 { Plus(Plus(Plus(a, b), c), d) }

  lemma MixFirst(a: bv8, b: bv8, c: bv8, d: bv8)
    ensures Plus(a, Plus(Xtime(Plus(a, b)), Tmp(a, b, c, d))) == Plus4(Times2(a), Times3(b), Id(c), Id(d))
  {
    MixRow(a, b, c, d);
  }

  lemma MixSecond(a: bv8, b: bv8, c: bv8, d: bv8)
    ensures Plus(b, Plus(Xtime(Plus(b, c)), Tmp(a, b, c, d))) == Plus4(Id(a), Times2(b), Times3(c), Id(d))
  {
    Rotate(b, c, d, a);
    MixRow(b, c, d, a);
    RotateSum(Times2(b), Times3(c), d, a);
  }

  lemma MixThird(a: bv8, b: bv8, c: bv8, d: bv8)
    ensures Plus(c, Plus(Xtime(Plus(c, d)), Tmp(a, b, c, d))) == Plus4(Id(a), Id(b), Times2(c), Times3(d))
  {
    Rotate(b, c, d, a);
    Rotate(c, d, a, b);
    MixRow(c, d, a, b);
    RotateSum(Times2(c), Times3(d), a, b);
    RotateSum(b, Times2(c), Times3(d), a);
  }

  lemma MixFourth(a: bv8, b: bv8, c: bv8, d: bv8)
    ensures Plus(d, Plus(Xtime(Plus(d, a)), Tmp(a, b, c, d))) == Plus4(Times3(a), Id(b), Id(c), Times2(d))
  {
    Rotate(a, b, c, d);
    MixRow(d, a, b, c);
    RotateSum(Times3(a), b, c, Times2(d));
  }

  lemma InvMixColumnIsMatrix(s: Column)
    ensures InvMixColumn(s) == InvMixMatrix(s)
  {
    Products(s.a);
    Products(s.b);
    Products(s.c);
    Products(s.d);
    Left(Times14(s.a), Times11(s.b), Times13(s.c), Times9(s.d));
    Left(Times9(s.a), Times14(s.b), Times11(s.c), Times13(s.d));
    Left(Times13(s.a), Times9(s.b), Times14(s.c), Times11(s.d));
    Left(Times11(s.a), Times13(s.b), Times9(s.c), Times14(s.d));
  }

  lemma Products(x: bv8)
    ensures Multiply(x, 0x09) == Times9(x) && Multiply(x, 0x0b) == Times11(x)
    ensures Multiply(x, 0x0d) == Times13(x) && Multiply(x, 0x0e) == Times14(x)
  {
    MultiplyIsTimes9(x);
    MultiplyIsTimes11(x);
    MultiplyIsTimes13(x);
    MultiplyIsTimes14(x);
  }

  lemma Left(p: bv8, q: bv8, r: bv8, s: bv8)
    ensures Plus(Plus(Plus(p, q), r), s) == Plus4(p, q, r, s)
  {
  }

  // ----- InvMixColumn undoes MixColumn -----

  /** The product of the first row of one matrix and the columns of the other. */
  lemma ProductDiagonal(x: bv8)
    ensures Plus4(Times14(Times2(x)), Times11(x), Times13(x), Times9(Times3(x))) == x
  {
    SumIsPlus(Times14(Times2(x)), Times11(x), Times13(x), Times9(Times3(x)));
    Diagonal(x);
  }

  lemma ProductOff1(x: bv8)
    ensures Plus4(Times14(Times3(x)), Times11(Times2(x)), Times13(x), Times9(x)) == 0
  {
    SumIsPlus(Times14(Times3(x)), Times11(Times2(x)), Times13(x), Times9(x));
    Off1(x);
  }

  lemma ProductOff2(x: bv8)
    ensures Plus4(Times14(x), Times11(Times3(x)), Times13(Times2(x)), Times9(x)) == 0
  {
    SumIsPlus(Times14(x), Times11(Times3(x)), Times13(Times2(x)), Times9(x));
    Off2(x);
  }

  lemma ProductOff3(x: bv8)
    ensures Plus4(Times14(x), Times11(x), Times13(Times3(x)), Times9(Times2(x))) == 0
  {
    SumIsPlus(Times14(x), Times11(x), Times13(Times3(x)), Times9(Times2(x)));
    Off3(x);
  }

  lemma SumIsPlus(p: bv8, q: bv8, r: bv8, s: bv8)
    ensures Plus4(p, q, r, s) == Plus(Plus(p, q), Plus(r, s))
  {
  }

  type Doubles = L.Doubles<bv8>

  type Choice = L.Choice

  function Either(j: Choice, k: Choice): Choice { L.Either(j, k) }

  /** The sum of those doubles of an octet that are chosen. */
  function Chosen(k: Choice, d: Doubles): bv8 { L.Chosen(Plus, 0, k, d) }

  lemma PlusSelfInverse()
    ensures L.SelfInverse(Plus, 0)
  {
    forall v: bv8 ensures Plus(v, v) == 0 && Plus(v, 0) == v && Plus(0, v) == v {
      CancelsAt(v);
    }
  }

  lemma CancelsAt(v: bv8)
    ensures v ^ v == 0 && v ^ 0 == v && 0 ^ v == v
  {
  }

  lemma ChosenAdds(j: Choice, k: Choice, d: Doubles)
    ensures Plus(Chosen(j, d), Chosen(k, d)) == Chosen(Either(j, k), d)
  {
    PlusInterchanges();
    PlusSelfInverse();
    L.ChosenAdds(Plus, 0, j, k, d);
  }

  const NONE := Choice.Choice(false, false, false, false, false)
  const ONE := Choice.Choice(true, false, false, false, false)
  const TWO := Choice.Choice(false, true, false, false, false)
  const FOUR := Choice.Choice(false, false, true, false, false)
  const EIGHT := Choice.Choice(false, false, false, true, false)
  const SIXTEEN := Choice.Choice(false, false, false, false, true)

  lemma SingleChoices(d: Doubles)
    ensures Chosen(NONE, d) == 0 && Chosen(ONE, d) == d.x1 && Chosen(TWO, d) == d.x2
    ensures Chosen(FOUR, d) == d.x4 && Chosen(EIGHT, d) == d.x8 && Chosen(SIXTEEN, d) == d.x16
  {
    hide Plus;
    PlusSelfInverse();
  }

  lemma DoubleOfSum(a: bv8, b: bv8)
    ensures Times2(Plus(a, b)) == Plus(Times2(a), Times2(b))
  {
    hide Xtime;
    XtimeLinearAt(a, b);
  }

  /** The products of y, whose doubles are chosen by c1, c2, c4 and c8. */
  lemma ProductsChosen(y: bv8, d: Doubles, c1: Choice, c2: Choice, c4: Choice, c8: Choice)
    requires y == Chosen(c1, d) && Times2(y) == Chosen(c2, d)
    requires Times4(y) == Chosen(c4, d) && Times8(y) == Chosen(c8, d)
    ensures Times3(y) == Chosen(Either(c2, c1), d) && Times9(y) == Chosen(Either(c8, c1), d)
    ensures Times11(y) == Chosen(Either(c8, Either(c2, c1)), d)
    ensures Times13(y) == Chosen(Either(c8, Either(c4, c1)), d)
    ensures Times14(y) == Chosen(Either(c8, Either(c4, c2)), d)
  {
    hide Plus, Chosen, Times2, Times4, Times8, Either;
    ChosenAdds(c2, c1, d);
    ChosenAdds(c4, c1, d);
    ChosenAdds(c4, c2, d);
    ChosenAdds(c8, c1, d);
    ChosenAdds(c8, Either(c2, c1), d);
    ChosenAdds(c8, Either(c4, c1), d);
    ChosenAdds(c8, Either(c4, c2), d);
  }

  /** The products of x, of its double and of its triple by the doubles of x. */
  lemma ProductsOf(x: bv8) returns (d: Doubles)
    ensures d.x1 == x
    ensures Times9(x) == Chosen(Either(EIGHT, ONE), d)
    ensures Times11(x) == Chosen(Either(EIGHT, Either(TWO, ONE)), d)
    ensures Times13(x) == Chosen(Either(EIGHT, Either(FOUR, ONE)), d)
    ensures Times14(x) == Chosen(Either(EIGHT, Either(FOUR, TWO)), d)
    ensures var y := Times2(x);
      && Times9(y) == Chosen(Either(SIXTEEN, TWO), d)
      && Times11(y) == Chosen(Either(SIXTEEN, Either(FOUR, TWO)), d)
      && Times13(y) == Chosen(Either(SIXTEEN, Either(EIGHT, TWO)), d)
      && Times14(y) == Chosen(Either(SIXTEEN, Either(EIGHT, FOUR)), d)
    ensures var z, z1, z2, z4, z8 := Times3(x), Either(TWO, ONE), Either(FOUR, TWO), Either(EIGHT, FOUR),
                                     Either(SIXTEEN, EIGHT);
      && Times9(z) == Chosen(Either(z8, z1), d)
      && Times11(z) == Chosen(Either(z8, Either(z2, z1)), d)
      && Times13(z) == Chosen(Either(z8, Either(z4, z1)), d)
      && Times14(z) == Chosen(Either(z8, Either(z4, z2)), d)
  {
    hide Plus, Chosen, Times2, Times3, Times9, Times11, Times13, Times14, Either;
    var x2 := Times2(x);
    var x4 := Times2(x2);
    var x8 := Times2(x4);
    d := L.Doubles(x, x2, x4, x8, Times2(x8));
    SingleChoices(d);
    ProductsChosen(x, d, ONE, TWO, FOUR, EIGHT);
    ProductsChosen(x2, d, TWO, FOUR, EIGHT, SIXTEEN);
    TripleDoubled(x, d);
    ProductsChosen(Times3(x), d, Either(TWO, ONE), Either(FOUR, TWO), Either(EIGHT, FOUR), Either(SIXTEEN, EIGHT));
  }

  lemma TripleDoubled(x: bv8, d: Doubles)
    requires d.x1 == x && d.x2 == Times2(x) && d.x4 == Times2(d.x2) && d.x8 == Times2(d.x4) && d.x16 == Times2(d.x8)
    ensures var z := Times3(x);
      && z == Chosen(Either(TWO, ONE), d) && Times2(z) == Chosen(Either(FOUR, TWO), d)
      && Times4(z) == Chosen(Either(EIGHT, FOUR), d) && Times8(z) == Chosen(Either(SIXTEEN, EIGHT), d)
  {
    hide Plus, Chosen, Times2, Either;
    SingleChoices(d);
    DoubleOfSum(d.x2, d.x1);
    DoubleOfSum(d.x4, d.x2);
    DoubleOfSum(d.x8, d.x4);
    ChosenAdds(TWO, ONE, d);
    ChosenAdds(FOUR, TWO, d);
    ChosenAdds(EIGHT, FOUR, d);
    ChosenAdds(SIXTEEN, EIGHT, d);
  }

  lemma FourChosen(p: Choice, q: Choice, r: Choice, s: Choice, d: Doubles)
    ensures Plus(Plus(Chosen(p, d), Chosen(q, d)), Plus(Chosen(r, d), Chosen(s, d))) ==
            Chosen(Either(Either(p, q), Either(r, s)), d)
  {
    hide Plus, Chosen, Either;
    ChosenAdds(p, q, d);
    ChosenAdds(r, s, d);
    ChosenAdds(Either(p, q), Either(r, s), d);
  }

  lemma Diagonal(x: bv8)
    ensures Plus(Plus(Times14(Times2(x)), Times11(x)), Plus(Times13(x), Times9(Times3(x)))) == x
  {
    hide Plus, Chosen, Times2, Times3, Times9, Times11, Times13, Times14;
    var d := ProductsOf(x);
    var p, q := Either(SIXTEEN, Either(EIGHT, FOUR)), Either(EIGHT, Either(TWO, ONE));
    var r, s := Either(EIGHT, Either(FOUR, ONE)), Either(Either(SIXTEEN, EIGHT), Either(TWO, ONE));
    FourChosen(p, q, r, s, d);
    SingleChoices(d);
    assert Either(Either(p, q), Either(r, s)) == ONE;
  }

  lemma Off1(x: bv8)
    ensures Plus(Plus(Times14(Times3(x)), Times11(Times2(x))), Plus(Times13(x), Times9(x))) == 0
  {
    hide Plus, Chosen, Times2, Times3, Times9, Times11, Times13, Times14;
    var d := ProductsOf(x);
    var p := Either(Either(SIXTEEN, EIGHT), Either(Either(EIGHT, FOUR), Either(FOUR, TWO)));
    var q := Either(SIXTEEN, Either(FOUR, TWO));
    var r, s := Either(EIGHT, Either(FOUR, ONE)), Either(EIGHT, ONE);
    FourChosen(p, q, r, s, d);
    SingleChoices(d);
    assert Either(Either(p, q), Either(r, s)) == NONE;
  }

  lemma Off2(x: bv8)
    ensures Plus(Plus(Times14(x), Times11(Times3(x))), Plus(Times13(Times2(x)), Times9(x))) == 0
  {
    hide Plus, Chosen, Times2, Times3, Times9, Times11, Times13, Times14;
    var d := ProductsOf(x);
    var p := Either(EIGHT, Either(FOUR, TWO));
    var q := Either(Either(SIXTEEN, EIGHT), Either(Either(FOUR, TWO), Either(TWO, ONE)));
    var r, s := Either(SIXTEEN, Either(EIGHT, TWO)), Either(EIGHT, ONE);
    FourChosen(p, q, r, s, d);
    SingleChoices(d);
    assert Either(Either(p, q), Either(r, s)) == NONE;
  }

  lemma Off3(x: bv8)
    ensures Plus(Plus(Times14(x), Times11(x)), Plus(Times13(Times3(x)), Times9(Times2(x)))) == 0
  {
    hide Plus, Chosen, Times2, Times3, Times9, Times11, Times13, Times14;
    var d := ProductsOf(x);
    var p, q := Either(EIGHT, Either(FOUR, TWO)), Either(EIGHT, Either(TWO, ONE));
    var r := Either(Either(SIXTEEN, EIGHT), Either(Either(EIGHT, FOUR), Either(TWO, ONE)));
    var s := Either(SIXTEEN, TWO);
    FourChosen(p, q, r, s, d);
    SingleChoices(d);
    assert Either(Either(p, q), Either(r, s)) == NONE;
  }

  lemma SumOfOne(x: bv8)
    ensures Plus4(x, 0, 0, 0) == x && Plus4(0, x, 0, 0) == x && Plus4(0, 0, x, 0) == x && Plus4(0, 0, 0, x) == x
  {
  }

  lemma FirstRow(a: bv8, b: bv8, c: bv8, d: bv8)
    ensures Plus4(Times14(Plus4(Times2(a), Times3(b), c, d)), Times11(Plus4(a, Times2(b), Times3(c), d)),
                  Times13(Plus4(a, b, Times2(c), Times3(d))), Times9(Plus4(Times3(a), b, c, Times2(d)))) == a
  {
    LargeLinear();
    PlusInterchanges();
    L.ProductRow(Plus, Times14, Times11, Times13, Times9,
      Times2(a), Times3(b), c, d, a, Times2(b), Times3(c), d,
      a, b, Times2(c), Times3(d), Times3(a), b, c, Times2(d));
    ProductDiagonal(a);
    ProductOff1(b);
    ProductOff2(c);
    ProductOff3(d);
    SumOfOne(a);
  }

  function Rotated(s: Column): Column { Column(s.b, s.c, s.d, s.a) }

  lemma MixRotates(s: Column)
    ensures MixMatrix(Rotated(s)) == Rotated(MixMatrix(s))
  {
    RotateSum(Times2(s.b), Times3(s.c), Id(s.d), Id(s.a));
    RotateSum(Id(s.b), Times2(s.c), Times3(s.d), Id(s.a));
    RotateSum(Id(s.b), Id(s.c), Times2(s.d), Times3(s.a));
    RotateSum(Times3(s.b), Id(s.c), Id(s.d), Times2(s.a));
  }

  lemma InvMixRotates(s: Column)
    ensures InvMixMatrix(Rotated(s)) == Rotated(InvMixMatrix(s))
  {
    RotateSum(Times14(s.b), Times11(s.c), Times13(s.d), Times9(s.a));
    RotateSum(Times9(s.b), Times14(s.c), Times11(s.d), Times13(s.a));
    RotateSum(Times13(s.b), Times9(s.c), Times14(s.d), Times11(s.a));
    RotateSum(Times11(s.b), Times13(s.c), Times9(s.d), Times14(s.a));
  }

  lemma ProductRotates(s: Column)
    ensures InvMixMatrix(MixMatrix(Rotated(s))) == Rotated(InvMixMatrix(MixMatrix(s)))
  {
    MixRotates(s);
    InvMixRotates(MixMatrix(s));
  }

  lemma ProductFirst(s: Column)
    ensures InvMixMatrix(MixMatrix(s)).a == s.a
  {
    FirstRow(s.a, s.b, s.c, s.d);
  }

  /** InvMixColumns undoes MixColumns. */
  lemma MixColumnInverse(s: Column)
    ensures InvMixColumn(MixColumn(s)) == s
  {
    MixColumnIsMatrix(s);
    InvMixColumnIsMatrix(MixMatrix(s));
    MatrixInverse(s);
  }

  lemma MatrixInverse(s: Column)
    ensures InvMixMatrix(MixMatrix(s)) == s
  {
    var s1 := Rotated(s);
    var s2 := Rotated(s1);
    var s3 := Rotated(s2);
    ProductFirst(s);
    ProductFirst(s1);
    ProductFirst(s2);
    ProductFirst(s3);
    ProductRotates(s);
    ProductRotates(s1);
    ProductRotates(s2);
  }
}
