/** Division with remainder over a register type that is only known to be an
    additive group with a linear "multiply by x". Message octets enter bit by bit. */
module LinearMaps {
  function Iterate<R>(f: R -> R, n: nat, r: R): R {
    if n == 0 then r else f(Iterate(f, n - 1, r))
  }

  /** A loop that absorbs one octet a turn. */
  function Fold<R>(step: (R, R) -> R, seed: R, msg: seq<R>): R
    decreases |msg|
  {
    if msg == [] then seed else Fold(step, step(seed, msg[0]), msg[1..])
  }

  /** Long division: multiply the register by x and bring down the next bit. */
  function Divide<R>(f: R -> R, add: (R, R) -> R, r: R, bits: seq<R>): R
    decreases |bits|
  {
    if bits == [] then r else Divide(f, add, add(f(r), bits[0]), bits[1..])
  }

  function AllBits<R>(bitsOf: R -> seq<R>, msg: seq<R>): seq<R> {
    if msg == [] then [] else bitsOf(msg[0]) + AllBits(bitsOf, msg[1..])
  }

  ghost predicate Linear<R(!new)>(f: R -> R, add: (R, R) -> R) {
    forall a, b {:trigger f(add(a, b))} :: f(add(a, b)) == add(f(a), f(b))
  }

  ghost predicate Associative<R(!new)>(add: (R, R) -> R) {
    forall a, b, c {:trigger add(add(a, b), c)} :: add(add(a, b), c) == add(a, add(b, c))
  }

  ghost predicate Zero<R(!new)>(f: R -> R, add: (R, R) -> R, zero: R) {
    && f(zero) == zero
    && (forall a {:trigger add(a, zero)} :: add(a, zero) == a)
    && (forall a {:trigger add(zero, a)} :: add(zero, a) == a)
  }

  ghost predicate Injective<R(!new)>(f: R -> R) {
    forall a, b :: f(a) == f(b) ==> a == b
  }

  lemma FoldFirst<R>(step: (R, R) -> R, r: R, msg: seq<R>, i: nat)
    requires i < |msg|
    ensures Fold(step, r, msg[i..]) == Fold(step, step(r, msg[i]), msg[i + 1..])
  {
    assert msg[i..][1..] == msg[i + 1..];
  }

  lemma {:induction false} IterateLinear<R(!new)>(f: R -> R, add: (R, R) -> R, n: nat, a: R, b: R)
    requires Linear(f, add)
    ensures Iterate(f, n, add(a, b)) == add(Iterate(f, n, a), Iterate(f, n, b))
  {
    if n > 0 {
      IterateLinear(f, add, n - 1, a, b);
    }
  }

  lemma {:induction false} IterateAdd<R>(f: R -> R, m: nat, n: nat, r: R)
    ensures Iterate(f, m + n, r) == Iterate(f, m, Iterate(f, n, r))
  {
    if m > 0 {
      IterateAdd(f, m - 1, n, r);
    }
  }

  lemma {:induction false} IterateBack<R(!new)>(f: R -> R, g: R -> R, n: nat, r: R)
    requires forall x :: f(g(x)) == x
    ensures Iterate(f, n, Iterate(g, n, r)) == r
  {
    if n > 0 {
      IterateAdd(f, n - 1, 1, Iterate(g, n, r));
      assert Iterate(f, 1, Iterate(g, n, r)) == f(Iterate(f, 0, Iterate(g, n, r)));
      IterateBack(f, g, n - 1, r);
    }
  }

  lemma IterateEight<R>(f: R -> R, r: R)
    ensures Iterate(f, 8, r) == f(f(f(f(f(f(f(f(r))))))))
  {
    assert Iterate(f, 4, r) == f(f(f(f(r))));
  }

  lemma {:induction false} IterateInjective<R(!new)>(f: R -> R, n: nat, a: R, b: R)
    requires Injective(f)
    requires Iterate(f, n, a) == Iterate(f, n, b)
    ensures a == b
  {
    if n > 0 {
      IterateInjective(f, n - 1, a, b);
    }
  }

  /** A register and a bit string are divided independently. */
  lemma {:induction false} DivideSplit<R(!new)>(f: R -> R, add: (R, R) -> R, zero: R, r: R, bits: seq<R>)
    requires Linear(f, add) && Associative(add) && Zero(f, add, zero)
    ensures Divide(f, add, r, bits) == add(Iterate(f, |bits|, r), Divide(f, add, zero, bits))
    decreases |bits|
  {
    if bits != [] {
      var n := |bits| - 1;
      var b, rest := bits[0], bits[1..];
      DivideSplit(f, add, zero, add(f(r), b), rest);
      DivideSplit(f, add, zero, b, rest);
      IterateLinear(f, add, n, f(r), b);
      IterateAdd(f, n, 1, r);
      assert Iterate(f, 1, r) == f(r);
      assert add(f(zero), b) == b;
    }
  }

  lemma {:induction false} DivideAppend<R>(f: R -> R, add: (R, R) -> R, r: R, a: seq<R>, b: seq<R>)
    ensures Divide(f, add, r, a + b) == Divide(f, add, Divide(f, add, r, a), b)
    decreases |a|
  {
    if a == [] {
      assert a + b == b;
    } else {
      assert (a + b)[1..] == a[1..] + b;
      DivideAppend(f, add, add(f(r), a[0]), a[1..], b);
    }
  }

  /** What the turn of a loop must satisfy for the loop to be the division:
      add the octet at the top of the register and multiply by x^8. */
  ghost predicate StepsByOctet<R(!new)>(f: R -> R, add: (R, R) -> R, zero: R, step: (R, R) -> R,
                                        bitsOf: R -> seq<R>, v: R) {
    && |bitsOf(v)| == 8
    && Divide(f, add, zero, bitsOf(v)) == v
    && forall c {:trigger step(c, v)} :: step(c, v) == Iterate(f, 8, add(c, Iterate(f, 8, v)))
  }

  /** Dividing by one more octet and then flushing sixteen zeros is the same as
      flushing first and taking one turn of the loop. */
  lemma FlushLater<R(!new)>(f: R -> R, add: (R, R) -> R, r: R, v: R)
    requires Linear(f, add)
    ensures Iterate(f, 16, add(Iterate(f, 8, r), v))
         == Iterate(f, 8, add(Iterate(f, 16, r), Iterate(f, 8, v)))
  {
    IterateLinear(f, add, 16, Iterate(f, 8, r), v);
    IterateLinear(f, add, 8, Iterate(f, 16, r), Iterate(f, 8, v));
    IterateAdd(f, 16, 8, r);
    IterateAdd(f, 8, 16, r);
    IterateAdd(f, 8, 8, v);
  }

  lemma {:induction false} FoldIsDivision<R(!new)>(
    f: R -> R, add: (R, R) -> R, zero: R, step: (R, R) -> R, bitsOf: R -> seq<R>, r: R, msg: seq<R>)
    requires Linear(f, add) && Associative(add) && Zero(f, add, zero)
    requires forall i :: 0 <= i < |msg| ==> StepsByOctet(f, add, zero, step, bitsOf, msg[i])
    ensures Fold(step, Iterate(f, 16, r), msg)
         == Iterate(f, 16, Divide(f, add, r, AllBits(bitsOf, msg)))
    decreases |msg|
  {
    if msg != [] {
      var v, rest := msg[0], msg[1..];
      assert StepsByOctet(f, add, zero, step, bitsOf, msg[0]);
      DivideSplit(f, add, zero, r, bitsOf(v));
      var r' := add(Iterate(f, 8, r), v);
      FlushLater(f, add, r, v);
      FoldIsDivision(f, add, zero, step, bitsOf, r', rest);
      DivideAppend(f, add, r, bitsOf(v), AllBits(bitsOf, rest));
    }
  }

  /** Bringing down zero bits only multiplies. */
  lemma {:induction false} DivideZeros<R(!new)>(f: R -> R, add: (R, R) -> R, zero: R, r: R, bits: seq<R>)
    requires Zero(f, add, zero)
    requires forall i :: 0 <= i < |bits| ==> bits[i] == zero
    ensures Divide(f, add, r, bits) == Iterate(f, |bits|, r)
    decreases |bits|
  {
    if bits != [] {
      DivideZeros(f, add, zero, f(r), bits[1..]);
      IterateAdd(f, |bits| - 1, 1, r);
      assert Iterate(f, 1, r) == f(r);
    }
  }

  ghost predicate Cancels<R(!new)>(add: (R, R) -> R) {
    && (forall a, b, c {:trigger add(a, c), add(b, c)} :: add(a, c) == add(b, c) ==> a == b)
    && (forall a, b, c {:trigger add(c, a), add(c, b)} :: add(c, a) == add(c, b) ==> a == b)
  }

  lemma DivideEight<R>(f: R -> R, add: (R, R) -> R, b: seq<R>,
                       r0: R, r1: R, r2: R, r3: R, r4: R, r5: R, r6: R, r7: R, r8: R)
    requires |b| == 8
    requires r1 == add(f(r0), b[0]) && r2 == add(f(r1), b[1])
    requires r3 == add(f(r2), b[2]) && r4 == add(f(r3), b[3])
    requires r5 == add(f(r4), b[4]) && r6 == add(f(r5), b[5])
    requires r7 == add(f(r6), b[6]) && r8 == add(f(r7), b[7])
    ensures Divide(f, add, r0, b) == r8
  {
    assert b == b[0..] && b[8..] == [];
    DivideFrom(f, add, r0, b, 0);
    DivideFrom(f, add, r1, b, 1);
    DivideFrom(f, add, r2, b, 2);
    DivideFrom(f, add, r3, b, 3);
    DivideFrom(f, add, r4, b, 4);
    DivideFrom(f, add, r5, b, 5);
    DivideFrom(f, add, r6, b, 6);
    DivideFrom(f, add, r7, b, 7);
  }

  lemma DivideFrom<R>(f: R -> R, add: (R, R) -> R, r: R, bits: seq<R>, i: nat)
    requires i < |bits|
    ensures Divide(f, add, r, bits[i..]) == Divide(f, add, add(f(r), bits[i]), bits[i + 1..])
  {
    assert bits[i..][1..] == bits[i + 1..];
  }

  ghost predicate Involutive<R(!new)>(add: (R, R) -> R, zero: R) {
    forall a, b {:trigger add(a, b)} :: add(a, b) == zero <==> a == b
  }

  lemma InjectiveByKernel<R(!new)>(f: R -> R, add: (R, R) -> R, zero: R)
    requires Linear(f, add) && Involutive(add, zero)
    requires forall r :: f(r) == zero ==> r == zero
    ensures Injective(f)
  {
    forall a, b | f(a) == f(b) ensures a == b {
      assert add(f(a), f(b)) == zero;
      assert f(add(a, b)) == zero;
    }
  }

  lemma {:induction false} FoldAppend<R>(step: (R, R) -> R, r: R, a: seq<R>, b: seq<R>)
    ensures Fold(step, r, a + b) == Fold(step, Fold(step, r, a), b)
    decreases |a|
  {
    if a == [] {
      assert a + b == b;
    } else {
      assert (a + b)[1..] == a[1..] + b;
      FoldAppend(step, step(r, a[0]), a[1..], b);
    }
  }

  /** However long the rest of a message is, it never hides a difference in the register. */
  lemma {:induction false} FoldInjective<R(!new)>(
    f: R -> R, add: (R, R) -> R, zero: R, step: (R, R) -> R, bitsOf: R -> seq<R>, r: R, r': R, msg: seq<R>)
    requires Injective(f) && Cancels(add)
    requires forall i :: 0 <= i < |msg| ==> StepsByOctet(f, add, zero, step, bitsOf, msg[i])
    requires Fold(step, r, msg) == Fold(step, r', msg)
    ensures r == r'
    decreases |msg|
  {
    if msg != [] {
      var v := msg[0];
      assert StepsByOctet(f, add, zero, step, bitsOf, msg[0]);
      FoldInjective(f, add, zero, step, bitsOf, step(r, v), step(r', v), msg[1..]);
      var top := Iterate(f, 8, v);
      IterateInjective(f, 8, add(r, top), add(r', top));
    }
  }

  /** Two turns absorb two octets into one register-wide sum. */
  lemma TwoSteps<R(!new)>(f: R -> R, add: (R, R) -> R, zero: R, step: (R, R) -> R, bitsOf: R -> seq<R>,
                          r: R, v: R, w: R)
    requires Linear(f, add) && Associative(add)
    requires StepsByOctet(f, add, zero, step, bitsOf, v) && StepsByOctet(f, add, zero, step, bitsOf, w)
    ensures step(step(r, v), w) == Iterate(f, 16, add(r, add(Iterate(f, 8, v), w)))
  {
    var x := add(r, Iterate(f, 8, v));
    assert step(r, v) == Iterate(f, 8, x);
    IterateLinear(f, add, 8, x, w);
    IterateAdd(f, 8, 8, add(x, w));
    assert add(x, w) == add(r, add(Iterate(f, 8, v), w));
  }

  lemma FoldIsLongDivision<R(!new)>(
    f: R -> R, add: (R, R) -> R, zero: R, step: (R, R) -> R, bitsOf: R -> seq<R>,
    preset: R, msg: seq<R>, zeros: seq<R>)
    requires Linear(f, add) && Associative(add) && Zero(f, add, zero)
    requires forall i :: 0 <= i < |msg| ==> StepsByOctet(f, add, zero, step, bitsOf, msg[i])
    requires |zeros| == 16 && forall i :: 0 <= i < 16 ==> zeros[i] == zero
    ensures Fold(step, Iterate(f, 16, preset), msg)
         == Divide(f, add, preset, AllBits(bitsOf, msg) + zeros)
  {
    var bits := AllBits(bitsOf, msg);
    FoldIsDivision(f, add, zero, step, bitsOf, preset, msg);
    DivideAppend(f, add, preset, bits, zeros);
    DivideZeros(f, add, zero, Divide(f, add, preset, bits), zeros);
  }

  /** Two octets are seen through everything that precedes and follows them. */
  lemma TwoOctetsSeen<R(!new)>(
    f: R -> R, add: (R, R) -> R, zero: R, step: (R, R) -> R, bitsOf: R -> seq<R>, r: R,
    prefix: seq<R>, v: R, w: R, v': R, w': R, suffix: seq<R>)
    requires Linear(f, add) && Associative(add) && Injective(f) && Cancels(add)
    requires StepsByOctet(f, add, zero, step, bitsOf, v) && StepsByOctet(f, add, zero, step, bitsOf, w)
    requires StepsByOctet(f, add, zero, step, bitsOf, v') && StepsByOctet(f, add, zero, step, bitsOf, w')
    requires forall i :: 0 <= i < |suffix| ==> StepsByOctet(f, add, zero, step, bitsOf, suffix[i])
    requires Fold(step, r, prefix + [v, w] + suffix) == Fold(step, r, prefix + [v', w'] + suffix)
    ensures add(Iterate(f, 8, v), w) == add(Iterate(f, 8, v'), w')
  {
    var s := Fold(step, r, prefix);
    FoldThrough(step, r, prefix, v, w, suffix);
    FoldThrough(step, r, prefix, v', w', suffix);
    FoldInjective(f, add, zero, step, bitsOf, step(step(s, v), w), step(step(s, v'), w'), suffix);
    TwoOctetsAbsorbed(f, add, zero, step, bitsOf, s, v, w, v', w');
  }

  lemma TwoOctetsAbsorbed<R(!new)>(
    f: R -> R, add: (R, R) -> R, zero: R, step: (R, R) -> R, bitsOf: R -> seq<R>, s: R, v: R, w: R, v': R, w': R)
    requires Linear(f, add) && Associative(add) && Injective(f) && Cancels(add)
    requires StepsByOctet(f, add, zero, step, bitsOf, v) && StepsByOctet(f, add, zero, step, bitsOf, w)
    requires StepsByOctet(f, add, zero, step, bitsOf, v') && StepsByOctet(f, add, zero, step, bitsOf, w')
    requires step(step(s, v), w) == step(step(s, v'), w')
    ensures add(Iterate(f, 8, v), w) == add(Iterate(f, 8, v'), w')
  {
    TwoSteps(f, add, zero, step, bitsOf, s, v, w);
    TwoSteps(f, add, zero, step, bitsOf, s, v', w');
    CancelTwoSteps(f, add, s, add(Iterate(f, 8, v), w), add(Iterate(f, 8, v'), w'));
  }

  lemma CancelTwoSteps<R(!new)>(f: R -> R, add: (R, R) -> R, s: R, x: R, x': R)
    requires Injective(f) && Cancels(add)
    requires Iterate(f, 16, add(s, x)) == Iterate(f, 16, add(s, x'))
    ensures x == x'
  {
    IterateInjective(f, 16, add(s, x), add(s, x'));
  }

  lemma FoldThrough<R>(step: (R, R) -> R, r: R, prefix: seq<R>, v: R, w: R, suffix: seq<R>)
    ensures Fold(step, r, prefix + [v, w] + suffix) ==
            Fold(step, step(step(Fold(step, r, prefix), v), w), suffix)
  {
    var s := Fold(step, r, prefix);
    assert prefix + [v, w] + suffix == prefix + ([v, w] + suffix);
    FoldAppend(step, r, prefix, [v, w] + suffix);
    FoldAppend(step, s, [v, w], suffix);
    FoldFirst(step, s, [v, w], 0);
    FoldFirst(step, step(s, v), [v, w], 1);
    assert [v, w][0..] == [v, w] && [v, w][1 + 1..] == [];
  }

  ghost predicate Passes<R(!new)>(f: R -> R, add: (R, R) -> R, l: R) {
    forall r {:trigger f(add(l, r))} :: f(add(l, r)) == add(l, f(r))
  }

  lemma PassesThrough<R(!new)>(f: R -> R, g: R -> R, k: R -> R, add: (R, R) -> R, l: R, h: R)
    requires Passes(f, add, l) && Passes(g, add, l) && Passes(k, add, l)
    ensures k(g(f(add(l, h)))) == add(l, k(g(f(h))))
  {
  }

  // ----- Sums of four linear terms -----

  function Sum4<R>(add: (R, R) -> R, p: R, q: R, r: R, s: R): R {
    add(add(p, q), add(r, s))
  }

  ghost predicate Interchanges<R(!new)>(add: (R, R) -> R) {
    forall a, b, c, d {:trigger add(add(a, b), add(c, d))} ::
      add(add(a, b), add(c, d)) == add(add(a, c), add(b, d))
  }

  lemma InterchangeAt<R(!new)>(add: (R, R) -> R, a: R, b: R, c: R, d: R)
    requires Interchanges(add)
    ensures add(add(a, b), add(c, d)) == add(add(a, c), add(b, d))
  {
  }

  /** A value and its doubles, up to the fourth. */
  datatype Doubles<R> = Doubles(x1: R, x2: R, x4: R, x8: R, x16: R)

  datatype Choice = Choice(k1: bool, k2: bool, k4: bool, k8: bool, k16: bool)

  function Either(j: Choice, k: Choice): Choice {
    Choice(j.k1 != k.k1, j.k2 != k.k2, j.k4 != k.k4, j.k8 != k.k8, j.k16 != k.k16)
  }

  function Part<R>(zero: R, k: bool, v: R): R { if k then v else zero }

  /** The sum of those that are chosen. */
  function Chosen<R>(add: (R, R) -> R, zero: R, k: Choice, d: Doubles<R>): R {
    add(add(Part(zero, k.k1, d.x1), Part(zero, k.k2, d.x2)),
        add(Part(zero, k.k4, d.x4), add(Part(zero, k.k8, d.x8), Part(zero, k.k16, d.x16))))
  }

  ghost predicate SelfInverse<R(!new)>(add: (R, R) -> R, zero: R) {
    && (forall v {:trigger add(v, v)} :: add(v, v) == zero)
    && (forall v {:trigger add(v, zero)} :: add(v, zero) == v)
    && (forall v {:trigger add(zero, v)} :: add(zero, v) == v)
  }

  lemma PartsAdd<R(!new)>(add: (R, R) -> R, zero: R, j: bool, k: bool, v: R)
    requires SelfInverse(add, zero)
    ensures add(Part(zero, j, v), Part(zero, k, v)) == Part(zero, j != k, v)
  {
  }

  /** What is chosen twice cancels. */
  lemma ChosenAdds<R(!new)>(add: (R, R) -> R, zero: R, j: Choice, k: Choice, d: Doubles<R>)
    requires Interchanges(add) && SelfInverse(add, zero)
    ensures add(Chosen(add, zero, j, d), Chosen(add, zero, k, d)) == Chosen(add, zero, Either(j, k), d)
  {
    hide Interchanges, SelfInverse, Part;
    var p, q, r, s, t := Part(zero, j.k1, d.x1), Part(zero, j.k2, d.x2), Part(zero, j.k4, d.x4),
      Part(zero, j.k8, d.x8), Part(zero, j.k16, d.x16);
    var p', q', r', s', t' := Part(zero, k.k1, d.x1), Part(zero, k.k2, d.x2), Part(zero, k.k4, d.x4),
      Part(zero, k.k8, d.x8), Part(zero, k.k16, d.x16);
    InterchangeAt(add, p, q, p', q');
    InterchangeAt(add, s, t, s', t');
    InterchangeAt(add, r, add(s, t), r', add(s', t'));
    InterchangeAt(add, add(p, q), add(r, add(s, t)), add(p', q'), add(r', add(s', t')));
    PartsAdd(add, zero, j.k1, k.k1, d.x1);
    PartsAdd(add, zero, j.k2, k.k2, d.x2);
    PartsAdd(add, zero, j.k4, k.k4, d.x4);
    PartsAdd(add, zero, j.k8, k.k8, d.x8);
    PartsAdd(add, zero, j.k16, k.k16, d.x16);
  }

  ghost predicate IsSum<R(!new)>(h: R -> R, f: R -> R, g: R -> R, add: (R, R) -> R) {
    forall x {:trigger h(x)} :: h(x) == add(f(x), g(x))
  }

  ghost predicate IsComposition<R(!new)>(h: R -> R, f: R -> R, g: R -> R) {
    forall x {:trigger h(x)} :: h(x) == f(g(x))
  }

  lemma SumLinear<R(!new)>(h: R -> R, f: R -> R, g: R -> R, add: (R, R) -> R)
    requires Linear(f, add) && Linear(g, add) && Interchanges(add) && IsSum(h, f, g, add)
    ensures Linear(h, add)
  {
    forall x, y ensures h(add(x, y)) == add(h(x), h(y)) {
      InterchangeAt(add, f(x), f(y), g(x), g(y));
    }
  }

  lemma CompositionLinear<R(!new)>(h: R -> R, f: R -> R, g: R -> R, add: (R, R) -> R)
    requires Linear(f, add) && Linear(g, add) && IsComposition(h, f, g)
    ensures Linear(h, add)
  {
    forall x, y ensures h(add(x, y)) == add(h(x), h(y)) {
      assert h(add(x, y)) == f(g(add(x, y)));
    }
  }

  lemma SumsInterchange<R(!new)>(add: (R, R) -> R, p: R, q: R, r: R, s: R, p': R, q': R, r': R, s': R)
    requires Interchanges(add)
    ensures Sum4(add, add(p, p'), add(q, q'), add(r, r'), add(s, s'))
         == add(Sum4(add, p, q, r, s), Sum4(add, p', q', r', s'))
  {
    InterchangeAt(add, p, p', q, q');
    InterchangeAt(add, r, r', s, s');
    InterchangeAt(add, add(p, q), add(p', q'), add(r, s), add(r', s'));
  }

  /** The shortcut of MixColumns: the two terms that the doubled sum and the sum
      of the whole column share cancel. */
  lemma MixShortcut<R(!new)>(add: (R, R) -> R, p: R, q: R, r: R, s: R, p2: R, q2: R)
    requires Associative(add) && Interchanges(add)
    requires add(p2, p) == add(p, p2)
    requires forall x {:trigger add(p, add(p, x))} :: add(p, add(p, x)) == x
    ensures add(p, add(add(p2, q2), add(add(add(p, q), r), s)))
         == add(add(p2, add(q2, q)), add(r, s))
  {
    var rs, q3 := add(r, s), add(q2, q);
    assert add(add(add(p, q), r), s) == add(add(p, q), rs);
    assert add(add(p2, q2), add(add(p, q), rs)) == add(add(add(p2, q2), add(p, q)), rs);
    InterchangeAt(add, p2, q2, p, q);
    assert add(add(p, p2), q3) == add(p, add(p2, q3));
    assert add(add(p, add(p2, q3)), rs) == add(p, add(add(p2, q3), rs));
  }

  lemma RotateSum4<R(!new)>(add: (R, R) -> R, p: R, q: R, r: R, s: R)
    requires Interchanges(add)
    requires add(r, s) == add(s, r) && add(p, s) == add(s, p)
    ensures Sum4(add, p, q, r, s) == Sum4(add, s, p, q, r)
  {
    InterchangeAt(add, p, q, s, r);
  }

  /** A linear map of a sum of four. */
  lemma LinearOfSum4<R(!new)>(g: R -> R, add: (R, R) -> R, p: R, q: R, r: R, s: R)
    requires Linear(g, add)
    ensures g(Sum4(add, p, q, r, s)) == Sum4(add, g(p), g(q), g(r), g(s))
  {
  }

  /** Summing a square of terms by rows or by columns is the same. */
  lemma Transpose<R(!new)>(add: (R, R) -> R,
                           a0: R, a1: R, a2: R, a3: R, b0: R, b1: R, b2: R, b3: R,
                           c0: R, c1: R, c2: R, c3: R, d0: R, d1: R, d2: R, d3: R)
    requires Interchanges(add)
    ensures Sum4(add, Sum4(add, a0, a1, a2, a3), Sum4(add, b0, b1, b2, b3),
                      Sum4(add, c0, c1, c2, c3), Sum4(add, d0, d1, d2, d3))
         == Sum4(add, Sum4(add, a0, b0, c0, d0), Sum4(add, a1, b1, c1, d1),
                      Sum4(add, a2, b2, c2, d2), Sum4(add, a3, b3, c3, d3))
  {
    SumsInterchange(add, a0, a1, a2, a3, b0, b1, b2, b3);
    SumsInterchange(add, c0, c1, c2, c3, d0, d1, d2, d3);
    SumsInterchange(add, add(a0, b0), add(a1, b1), add(a2, b2), add(a3, b3),
                         add(c0, d0), add(c1, d1), add(c2, d2), add(c3, d3));
  }

  /** One row of the product of two four-by-four matrices of linear maps,
      applied to a column (x0, x1, x2, x3). */
  lemma ProductRow<R(!new)>(add: (R, R) -> R, g0: R -> R, g1: R -> R, g2: R -> R, g3: R -> R,
                            a0: R, a1: R, a2: R, a3: R, b0: R, b1: R, b2: R, b3: R,
                            c0: R, c1: R, c2: R, c3: R, d0: R, d1: R, d2: R, d3: R)
    requires Interchanges(add)
    requires Linear(g0, add) && Linear(g1, add) && Linear(g2, add) && Linear(g3, add)
    ensures Sum4(add, g0(Sum4(add, a0, a1, a2, a3)), g1(Sum4(add, b0, b1, b2, b3)),
                      g2(Sum4(add, c0, c1, c2, c3)), g3(Sum4(add, d0, d1, d2, d3)))
         == Sum4(add, Sum4(add, g0(a0), g1(b0), g2(c0), g3(d0)), Sum4(add, g0(a1), g1(b1), g2(c1), g3(d1)),
                      Sum4(add, g0(a2), g1(b2), g2(c2), g3(d2)), Sum4(add, g0(a3), g1(b3), g2(c3), g3(d3)))
  {
    LinearOfSum4(g0, add, a0, a1, a2, a3);
    LinearOfSum4(g1, add, b0, b1, b2, b3);
    LinearOfSum4(g2, add, c0, c1, c2, c3);
    LinearOfSum4(g3, add, d0, d1, d2, d3);
    Transpose(add, g0(a0), g0(a1), g0(a2), g0(a3), g1(b0), g1(b1), g1(b2), g1(b3),
              g2(c0), g2(c1), g2(c2), g2(c3), g3(d0), g3(d1), g3(d2), g3(d3));
  }
}
