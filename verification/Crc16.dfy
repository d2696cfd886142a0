/** The packet check of osdp_common.c and utils/crc16.c. */
module Crc16 {
  import opened Bytes
  import L = LinearMaps

  function Wide(b: uint8): bv16 { Bits(b) as bv16 }

  // The five assignments in the body of crc16_itu_t's loop.
  function SwapOctets(x: bv16): bv16 { (x >> 8) | (x << 8) }
  function AddOctet(x: bv16, b: bv16): bv16 { x ^ b }
  function FoldNibble(x: bv16): bv16 { x ^ ((x & 0xFF) >> 4) }
  function SpreadHigh(x: bv16): bv16 { x ^ (x << 12) }
  function SpreadLow(x: bv16): bv16 { x ^ ((x & 0xFF) << 5) }

  function Rest(x: bv16): bv16 { SpreadLow(SpreadHigh(FoldNibble(x))) }

  /** One turn of the loop. */
  function Step(seed: bv16, b: bv16): bv16 {
    Rest(AddOctet(SwapOctets(seed), b))
  }

  function Widened(msg: seq<uint8>): seq<bv16> {
    seq(|msg|, i requires 0 <= i < |msg| => Wide(msg[i]))
  }

  const SEED: bv16 := 0x1D0F

  /** osdp_compute_crc16 */
  function Compute(msg: seq<uint8>): uint16 {
    RegisterValue(L.Fold(Step, SEED, Widened(msg)))
  }

  /** The 16-bit register as a number, octet by octet. */
  function RegisterValue(r: bv16): uint16 {
    Le16(FromBits(LowOctet(r)), FromBits(HighOctet(r)))
  }

  function LowOctet(r: bv16): bv8 { (r & 0xFF) as bv8 }
  function HighOctet(r: bv16): bv8 { (r >> 8) as bv8 }

  // ----- Long division by x^16 + x^12 + x^5 + 1 -----

  /** Multiply the register by x and subtract the divisor when the coefficient
      of x^16 becomes one. */
  function Double(r: bv16): bv16 {
    (r << 1) ^ ((r >> 15) * 0x1021)
  }

  function Plus(a: bv16, b: bv16): bv16 { a ^ b }

  /** The bits of an octet, most significant first. */
  function OctetBits(v: bv16): seq<bv16> {
    [(v >> 7) & 1, (v >> 6) & 1, (v >> 5) & 1, (v >> 4) & 1,
     (v >> 3) & 1, (v >> 2) & 1, (v >> 1) & 1, v & 1]
  }

  const SIXTEEN_ZEROS: seq<bv16> := [0, 0, 0, 0, 0, 0, 0, 0, 0, 0, 0, 0, 0, 0, 0, 0]

  lemma DoubleLinear()
    ensures L.Linear(Double, Plus)
  {
    forall a, b ensures Double(Plus(a, b)) == Plus(Double(a), Double(b)) {
      DoubleLinearAt(a, b);
    }
  }

  lemma DoubleLinearAt(a: bv16, b: bv16)
    ensures Double(a ^ b) == Double(a) ^ Double(b)
  {
  }

  lemma DoubleInjective()
    ensures L.Injective(Double)
  {
    DoubleLinear();
    PlusIsInvolutive();
    forall r | Double(r) == 0 ensures r == 0 {
      DoubleKernel(r);
    }
    L.InjectiveByKernel(Double, Plus, 0);
  }

  lemma PlusIsInvolutive()
    ensures L.Involutive(Plus, 0)
  {
    forall a, b ensures Plus(a, b) == 0 <==> a == b {
      SumZero(a, b);
    }
  }

  lemma SumZero(a: bv16, b: bv16)
    ensures a ^ b == 0 <==> a == b
  {
  }

  lemma DoubleKernel(r: bv16)
    requires Double(r) == 0
    ensures r == 0
  {
  }

  lemma PlusIsAssociative()
    ensures L.Associative(Plus)
  {
    forall a, b, c ensures Plus(Plus(a, b), c) == Plus(a, Plus(b, c)) {
      PlusAssociative(a, b, c);
    }
  }

  lemma PlusIsCancellative()
    ensures L.Cancels(Plus)
  {
    forall a, b, c | Plus(a, c) == Plus(b, c) ensures a == b {
      PlusCancels(a, b, c);
    }
    forall a, b, c | Plus(c, a) == Plus(c, b) ensures a == b {
      Commute(a, c);
      Commute(b, c);
      PlusCancels(a, b, c);
    }
  }

  lemma PlusHasZero()
    ensures L.Zero(Double, Plus, 0)
  {
    forall a ensures Plus(a, 0) == a && Plus(0, a) == a {
      PlusZero(a);
    }
  }

  lemma PlusAssociative(a: bv16, b: bv16, c: bv16)
    ensures (a ^ b) ^ c == a ^ (b ^ c)
  {
  }

  lemma PlusZero(a: bv16)
    ensures a ^ 0 == a && 0 ^ a == a
  {
  }

  lemma PlusCancels(a: bv16, b: bv16, c: bv16)
    requires a ^ c == b ^ c
    ensures a == b
  {
    assert (a ^ c) ^ c == a;
    assert (b ^ c) ^ c == b;
  }

  // ----- The loop's turn is eight doublings -----

  function TimesX8(r: bv16): bv16 {
    Double(Double(Double(Double(Double(Double(Double(Double(r))))))))
  }

  lemma IterateEight(r: bv16)
    ensures L.Iterate(Double, 8, r) == TimesX8(r)
  {
    L.IterateEight(Double, r);
  }

  lemma TimesX8OfOctet(v: bv16)
    requires v < 256
    ensures TimesX8(v) == v << 8
  {
  }

  lemma TimesX8OfHighOctet(h: bv16)
    requires h < 256
    ensures TimesX8(h << 8) == Rest(h)
  {
  }

  // The low octet of the register passes through each assignment unchanged,
  // one octet up. Registers are named so that each fact stays a small identity.

  lemma NibblePasses(h: bv16, l8: bv16)
    requires l8 & 0xFF == 0
    ensures FoldNibble(l8 ^ h) == l8 ^ FoldNibble(h)
  {
  }

  lemma HighPasses(h: bv16, l8: bv16)
    requires l8 & 0xFF == 0
    ensures SpreadHigh(l8 ^ h) == l8 ^ SpreadHigh(h)
  {
  }

  lemma LowPasses(h: bv16, l8: bv16)
    requires l8 & 0xFF == 0
    ensures SpreadLow(l8 ^ h) == l8 ^ SpreadLow(h)
  {
  }

  lemma RestPasses(x: bv16, h: bv16, l8: bv16)
    requires x == Plus(l8, h) && l8 & 0xFF == 0
    ensures Rest(x) == Plus(l8, Rest(h))
  {
    NibblePassesAll(l8);
    HighPassesAll(l8);
    LowPassesAll(l8);
    L.PassesThrough(FoldNibble, SpreadHigh, SpreadLow, Plus, l8, h);
  }

  lemma NibblePassesAll(l8: bv16)
    requires l8 & 0xFF == 0
    ensures L.Passes(FoldNibble, Plus, l8)
  {
    forall r ensures FoldNibble(Plus(l8, r)) == Plus(l8, FoldNibble(r)) {
      NibblePasses(r, l8);
    }
  }

  lemma HighPassesAll(l8: bv16)
    requires l8 & 0xFF == 0
    ensures L.Passes(SpreadHigh, Plus, l8)
  {
    forall r ensures SpreadHigh(Plus(l8, r)) == Plus(l8, SpreadHigh(r)) {
      HighPasses(r, l8);
    }
  }

  lemma LowPassesAll(l8: bv16)
    requires l8 & 0xFF == 0
    ensures L.Passes(SpreadLow, Plus, l8)
  {
    forall r ensures SpreadLow(Plus(l8, r)) == Plus(l8, SpreadLow(r)) {
      LowPasses(r, l8);
    }
  }

  lemma Swapped(c: bv16, v: bv16, x: bv16, h: bv16, l8: bv16)
    requires x == AddOctet(SwapOctets(c), v)
    requires h == (c >> 8) ^ v && l8 == (c & 0xFF) << 8
    ensures x == Plus(l8, h)
  {
  }

  lemma TurnSplit(c: bv16, v: bv16, h: bv16, l8: bv16)
    requires h == (c >> 8) ^ v && l8 == (c & 0xFF) << 8
    ensures Step(c, v) == Plus(l8, Rest(h))
  {
    var x := AddOctet(SwapOctets(c), v);
    Swapped(c, v, x, h, l8);
    RestPasses(x, h, l8);
  }

  lemma TimesX8OfHalves(h: bv16, l: bv16, u: bv16, h8: bv16, l8: bv16)
    requires u == Plus(h, l)
    requires h8 == TimesX8(h) && l8 == TimesX8(l)
    ensures L.Iterate(Double, 8, u) == Plus(h8, l8)
  {
    DoubleLinear();
    IterateEight(l);
    IterateEight(h);
    L.IterateLinear(Double, Plus, 8, h, l);
  }

  lemma TimesX8Split(c: bv16, v: bv16, h: bv16, l8: bv16)
    requires v < 256
    requires h == (c >> 8) ^ v && l8 == (c & 0xFF) << 8
    ensures L.Iterate(Double, 8, Plus(c, v << 8)) == Plus(Rest(h), l8)
  {
    SumOfHalves(c, v, h, l8);
    TimesX8Halves(h, c & 0xFF, l8);
    TimesX8OfHalves(h << 8, c & 0xFF, Plus(c, v << 8), Rest(h), l8);
  }

  lemma SumOfHalves(c: bv16, v: bv16, h: bv16, l8: bv16)
    requires h == (c >> 8) ^ v
    ensures Plus(c, v << 8) == Plus(h << 8, c & 0xFF)
  {
    HighHalf(c, v, h);
    SplitSum(c, v << 8, h << 8);
  }

  lemma HighHalf(c: bv16, v: bv16, h: bv16)
    requires h == (c >> 8) ^ v
    ensures h << 8 == (c & 0xFF00) ^ (v << 8)
  {
  }

  lemma SplitSum(c: bv16, v8: bv16, h8: bv16)
    requires h8 == (c & 0xFF00) ^ v8
    ensures c ^ v8 == h8 ^ (c & 0xFF)
  {
  }

  lemma TimesX8Halves(h: bv16, l: bv16, l8: bv16)
    requires h < 256 && l < 256 && l8 == l << 8
    ensures TimesX8(h << 8) == Rest(h) && TimesX8(l) == l8
  {
    TimesX8OfHighOctet(h);
    TimesX8OfOctet(l);
  }

  lemma Commute(a: bv16, b: bv16)
    ensures Plus(a, b) == Plus(b, a)
  {
  }

  lemma TurnIsTimesX8(c: bv16, v: bv16)
    requires v < 256
    ensures Step(c, v) == L.Iterate(Double, 8, Plus(c, L.Iterate(Double, 8, v)))
  {
    var h, l8 := (c >> 8) ^ v, (c & 0xFF) << 8;
    TimesX8OfOctet(v);
    IterateEight(v);
    TurnSplit(c, v, h, l8);
    TimesX8Split(c, v, h, l8);
    Commute(l8, Rest(h));
  }

  // ----- An octet brought down bit by bit is the octet -----

  lemma BringDown(v: bv16)
    requires v < 256
    ensures Plus(Double(0), (v >> 7) & 1) == v >> 7
    ensures Plus(Double(v >> 7), (v >> 6) & 1) == v >> 6
    ensures Plus(Double(v >> 6), (v >> 5) & 1) == v >> 5
    ensures Plus(Double(v >> 5), (v >> 4) & 1) == v >> 4
  {
  }

  lemma BringDownRest(v: bv16)
    requires v < 256
    ensures Plus(Double(v >> 4), (v >> 3) & 1) == v >> 3
    ensures Plus(Double(v >> 3), (v >> 2) & 1) == v >> 2
    ensures Plus(Double(v >> 2), (v >> 1) & 1) == v >> 1
    ensures Plus(Double(v >> 1), v & 1) == v
  {
  }

  lemma OctetBitsDivide(v: bv16)
    requires v < 256
    ensures L.Divide(Double, Plus, 0, OctetBits(v)) == v
  {
    BringDown(v);
    BringDownRest(v);
    L.DivideEight(Double, Plus, OctetBits(v), 0, v >> 7, v >> 6, v >> 5, v >> 4, v >> 3, v >> 2, v >> 1, v);
  }

  lemma OctetsStep(msg: seq<uint8>)
    ensures forall i :: 0 <= i < |Widened(msg)| ==> L.StepsByOctet(Double, Plus, 0, Step, OctetBits, Widened(msg)[i])
  {
    forall i | 0 <= i < |Widened(msg)|
      ensures L.StepsByOctet(Double, Plus, 0, Step, OctetBits, Widened(msg)[i])
    {
      WideOctet(msg[i]);
      OctetSteps(Wide(msg[i]));
    }
  }

  lemma OctetSteps(v: bv16)
    requires v < 256
    ensures L.StepsByOctet(Double, Plus, 0, Step, OctetBits, v)
  {
    OctetBitsDivide(v);
    forall c ensures Step(c, v) == L.Iterate(Double, 8, Plus(c, L.Iterate(Double, 8, v))) {
      TurnIsTimesX8(c, v);
    }
  }

  lemma WideOctet(b: uint8)
    ensures Wide(b) < 256
  {
    WidenedOctet(Bits(b));
  }

  lemma WidenedOctet(v: bv8)
    ensures (v as bv16) < 256
  {
  }

  // ----- Main results -----

  lemma FlushedPreset()
    ensures L.Iterate(Double, 16, 0xFFFF) == SEED
  {
    L.IterateAdd(Double, 8, 8, 0xFFFF);
    IterateEight(0xFFFF);
    IterateEight(TimesX8(0xFFFF));
    PresetHalfway();
    PresetDone();
  }

  lemma PresetHalfway()
    ensures TimesX8(0xFFFF) == 0xE1F0
  {
  }

  lemma PresetDone()
    ensures TimesX8(0xE1F0) == 0x1D0F
  {
  }

  /** Divide by x: the one register that doubles to r. */
  function Halve(r: bv16): bv16 {
    (r >> 1) ^ ((r & 1) * 0x8810)
  }

  lemma DoubleHalve(r: bv16)
    ensures Double(Halve(r)) == r
  {
  }

  /** The register from which sixteen zero bits lead to the seed. */
  function Preset(seed: bv16): bv16 { L.Iterate(Halve, 16, seed) }

  lemma PresetLeadsToSeed(seed: bv16)
    ensures L.Iterate(Double, 16, Preset(seed)) == seed
  {
    forall r ensures Double(Halve(r)) == r {
      DoubleHalve(r);
    }
    L.IterateBack(Double, Halve, 16, seed);
  }

  lemma PresetUnique(a: bv16, b: bv16)
    requires L.Iterate(Double, 16, a) == L.Iterate(Double, 16, b)
    ensures a == b
  {
    DoubleInjective();
    L.IterateInjective(Double, 16, a, b);
  }

  /** The loop leaves the remainder of the message, followed by sixteen zero bits, on
      division by x^16 + x^12 + x^5 + 1, whatever the register is preset to. */
  lemma FoldIsLongDivision(preset: bv16, msg: seq<uint8>)
    ensures L.Fold(Step, L.Iterate(Double, 16, preset), Widened(msg))
         == L.Divide(Double, Plus, preset, L.AllBits(OctetBits, Widened(msg)) + SIXTEEN_ZEROS)
  {
    var m := Widened(msg);
    DoubleLinear();
    PlusIsAssociative();
    PlusHasZero();
    OctetsStep(msg);
    L.FoldIsLongDivision(Double, Plus, 0, Step, OctetBits, preset, m, SIXTEEN_ZEROS);
  }

  /** Every seed is such a preset, so every call of the loop is a division. */
  lemma EverySeedDivides(seed: bv16, msg: seq<uint8>)
    ensures L.Fold(Step, seed, Widened(msg))
         == L.Divide(Double, Plus, Preset(seed), L.AllBits(OctetBits, Widened(msg)) + SIXTEEN_ZEROS)
  {
    PresetLeadsToSeed(seed);
    FoldIsLongDivision(Preset(seed), msg);
  }

  /** The packet check is that remainder with the register preset to ones. */
  lemma ComputeIsLongDivision(msg: seq<uint8>)
    ensures Preset(SEED) == 0xFFFF
    ensures Compute(msg) == RegisterValue(
      L.Divide(Double, Plus, 0xFFFF, L.AllBits(OctetBits, Widened(msg)) + SIXTEEN_ZEROS))
  {
    FlushedPreset();
    FoldIsLongDivision(0xFFFF, msg);
    PresetLeadsToSeed(SEED);
    PresetUnique(Preset(SEED), 0xFFFF);
  }

  lemma OctetPairsDiffer(v: bv16, w: bv16, v': bv16, w': bv16)
    requires v < 256 && w < 256 && v' < 256 && w' < 256
    requires Plus(v << 8, w) == Plus(v' << 8, w')
    ensures v == v' && w == w'
  {
    assert ((v << 8) ^ w) >> 8 == v;
    assert ((v' << 8) ^ w') >> 8 == v';
    assert ((v << 8) ^ w) & 0xFF == w;
    assert ((v' << 8) ^ w') & 0xFF == w';
  }

  lemma WideInjective(a: uint8, b: uint8)
    requires Wide(a) == Wide(b)
    ensures a == b
  {
    WidenedInjective(Bits(a), Bits(b));
    FromBitsBits(a);
    FromBitsBits(b);
  }

  lemma WidenedInjective(a: bv8, b: bv8)
    requires a as bv16 == b as bv16
    ensures a == b
  {
  }

  lemma WidenedParts(prefix: seq<uint8>, a: uint8, b: uint8, suffix: seq<uint8>)
    ensures Widened(prefix + [a, b] + suffix) == Widened(prefix) + [Wide(a), Wide(b)] + Widened(suffix)
  {
  }

  /** Two messages of one length that differ only within two adjacent octets never
      leave the same register, whatever the seed and however long the rest is. */
  lemma AdjacentErrorsSeen(seed: bv16, prefix: seq<uint8>, a: uint8, b: uint8, a': uint8, b': uint8, suffix: seq<uint8>)
    requires a != a' || b != b'
    ensures L.Fold(Step, seed, Widened(prefix + [a, b] + suffix)) !=
            L.Fold(Step, seed, Widened(prefix + [a', b'] + suffix))
  {
    var m, m' := prefix + [a, b] + suffix, prefix + [a', b'] + suffix;
    if L.Fold(Step, seed, Widened(m)) == L.Fold(Step, seed, Widened(m')) {
      WidenedParts(prefix, a, b, suffix);
      WidenedParts(prefix, a', b', suffix);
      PairSeen(seed, Widened(prefix), a, b, a', b', suffix);
    }
  }

  /** Nor do they have the same packet check. */
  lemma AdjacentErrorsDetected(prefix: seq<uint8>, a: uint8, b: uint8, a': uint8, b': uint8, suffix: seq<uint8>)
    requires a != a' || b != b'
    ensures Compute(prefix + [a, b] + suffix) != Compute(prefix + [a', b'] + suffix)
  {
    AdjacentErrorsSeen(SEED, prefix, a, b, a', b', suffix);
    if Compute(prefix + [a, b] + suffix) == Compute(prefix + [a', b'] + suffix) {
      RegisterValueInjective(L.Fold(Step, SEED, Widened(prefix + [a, b] + suffix)),
                             L.Fold(Step, SEED, Widened(prefix + [a', b'] + suffix)));
    }
  }

  lemma RegisterValueInjective(a: bv16, b: bv16)
    requires RegisterValue(a) == RegisterValue(b)
    ensures a == b
  {
    Le16Injective(FromBits(LowOctet(a)), FromBits(HighOctet(a)), FromBits(LowOctet(b)), FromBits(HighOctet(b)));
    FromBitsInjective(LowOctet(a), LowOctet(b));
    FromBitsInjective(HighOctet(a), HighOctet(b));
    OctetsInjective(a, b);
  }

  lemma OctetsInjective(a: bv16, b: bv16)
    requires LowOctet(a) == LowOctet(b) && HighOctet(a) == HighOctet(b)
    ensures a == b
  {
  }

  lemma Le16Injective(a: uint8, b: uint8, c: uint8, d: uint8)
    requires Le16(a, b) == Le16(c, d)
    ensures a == c && b == d
  {
  }

  lemma PairSeen(seed: bv16, prefix: seq<bv16>, a: uint8, b: uint8, a': uint8, b': uint8, suffix: seq<uint8>)
    requires L.Fold(Step, seed, prefix + [Wide(a), Wide(b)] + Widened(suffix))
          == L.Fold(Step, seed, prefix + [Wide(a'), Wide(b')] + Widened(suffix))
    ensures a == a' && b == b'
  {
    WideOctet(a);
    WideOctet(b);
    WideOctet(a');
    WideOctet(b');
    PairSeenBits(seed, prefix, Wide(a), Wide(b), Wide(a'), Wide(b'), suffix);
    WideInjective(a, a');
    WideInjective(b, b');
  }

  lemma PairSeenBits(seed: bv16, prefix: seq<bv16>, v: bv16, w: bv16, v': bv16, w': bv16, suffix: seq<uint8>)
    requires v < 256 && w < 256 && v' < 256 && w' < 256
    requires L.Fold(Step, seed, prefix + [v, w] + Widened(suffix))
          == L.Fold(Step, seed, prefix + [v', w'] + Widened(suffix))
    ensures v == v' && w == w'
  {
    PairsAgree(seed, prefix, v, w, v', w', suffix);
    OctetPair(v, w);
    OctetPair(v', w');
    OctetPairsDiffer(v, w, v', w');
  }

  lemma OctetPair(v: bv16, w: bv16)
    requires v < 256
    ensures Plus(L.Iterate(Double, 8, v), w) == Plus(v << 8, w)
  {
    IterateEight(v);
    TimesX8OfOctet(v);
  }

  lemma PairsAgree(seed: bv16, prefix: seq<bv16>, v: bv16, w: bv16, v': bv16, w': bv16, suffix: seq<uint8>)
    requires v < 256 && w < 256 && v' < 256 && w' < 256
    requires L.Fold(Step, seed, prefix + [v, w] + Widened(suffix))
          == L.Fold(Step, seed, prefix + [v', w'] + Widened(suffix))
    ensures Plus(L.Iterate(Double, 8, v), w) == Plus(L.Iterate(Double, 8, v'), w')
  {
    DoubleLinear();
    DoubleInjective();
    PlusIsAssociative();
    PlusIsCancellative();
    OctetSteps(v);
    OctetSteps(w);
    OctetSteps(v');
    OctetSteps(w');
    OctetsStep(suffix);
    L.TwoOctetsSeen(Double, Plus, 0, Step, OctetBits, seed, prefix, v, w, v', w', Widened(suffix));
  }

  // ----- The loop itself -----

  /** crc16_itu_t: the loop runs over the message octet by octet. */
  method Crc16ItuT(seed: bv16, src: array<uint8>, off: nat, len: nat) returns (crc: bv16)
    requires off + len <= src.Length
    ensures crc == L.Fold(Step, seed, Widened(src[off..off + len]))
    ensures crc == L.Divide(Double, Plus, Preset(seed),
                            L.AllBits(OctetBits, Widened(src[off..off + len])) + SIXTEEN_ZEROS)
  {
    crc := seed;
    ghost var msg := Widened(src[off..off + len]);
    var i := 0;
    while i < len
      invariant 0 <= i <= len
      invariant L.Fold(Step, crc, msg[i..]) == L.Fold(Step, seed, msg)
    {
      L.FoldFirst(Step, crc, msg, i);
      crc := SwapOctets(crc);
      crc := AddOctet(crc, Wide(src[off + i]));
      crc := FoldNibble(crc);
      crc := SpreadHigh(crc);
      crc := SpreadLow(crc);
      i := i + 1;
    }
    EverySeedDivides(seed, src[off..off + len]);
  }

  /** osdp_compute_crc16 */
  method ComputeCrc16(buf: array<uint8>, off: nat, len: nat) returns (crc: uint16)
    requires off + len <= buf.Length
    ensures crc == Compute(buf[off..off + len])
  {
    var r := Crc16ItuT(SEED, buf, off, len);
    crc := RegisterValue(r);
  }
}
