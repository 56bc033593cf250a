/** The checksum code over its field: five-bit symbols are the elements of GF(32) with modulus
    x^5 + x^3 + 1, and multiplying every symbol by one element multiplies the remainder by it. */
module PolymodField {
  import opened PolymodCode

  /** One bit of each of the eight symbols of a state. */
  const ONES: bv64 := 0x8_4210_8421

  // --- The field -----------------------------------------------------------

  /** Multiplication by x: what overflows comes back as x^3 + 1. */
  function Double(s: Symbol): Symbol {
    (s << 1) ^ (if s & 16 != 0 then 9 else 0)
  }

  function Part(on: bool, s: Symbol): Symbol {
    if on then s else 0
  }

  function Plus(s: Symbol, t: Symbol): Symbol {
    s ^ t
  }

  function Sum5(a: Symbol, b: Symbol, c: Symbol, d: Symbol, e: Symbol): Symbol {
    Plus(Plus(Plus(Plus(a, b), c), d), e)
  }

  predicate Has(c: Symbol, bit: Symbol) {
    c & bit != 0
  }

  /** Multiplication, bit by bit of the first factor. */
  function Times(c: Symbol, s: Symbol): Symbol {
    var s2 := Double(s);
    var s4 := Double(s2);
    var s8 := Double(s4);
    Sum5(Part(Has(c, 1), s), Part(Has(c, 2), s2), Part(Has(c, 4), s4), Part(Has(c, 8), s8), Part(Has(c, 16),
        Double(s8)))
  }

  lemma DoubleLinear(s: Symbol, t: Symbol)
    ensures Double(s ^ t) == Double(s) ^ Double(t)
    ensures Double(s) == 0 ==> s == 0
  {
  }

  lemma TimesUnits(c: Symbol)
    ensures Times(1, c) == c && Times(2, c) == Double(c) && Times(c, 1) == c && Times(0, c) == 0
  {
  }

  lemma NoZeroDivisors(c: Symbol, s: Symbol)
    ensures Times(c, s) == 0 ==> c == 0 || s == 0
  {
  }

  // --- States, symbol by symbol --------------------------------------------

  function Tops(chk: bv64): bv64 {
    (chk >> 4) & ONES
  }

  function Up1(t: bv64): bv64 { t << 1 }
  function Up3(t: bv64): bv64 { t << 3 }
  function Up5(t: bv64): bv64 { t << 5 }

  /** The modulus x^5 + x^3 + 1 at every place where a bit overflows. */
  function Moduli(t: bv64): bv64 {
    Xor(Xor(Up5(t), Up3(t)), t)
  }

  /** Every symbol of the state doubled. */
  function DoubleState(chk: bv64): bv64 {
    Xor(Up1(chk), Moduli(Tops(chk)))
  }

  lemma DoubleStateIsDouble(chk: bv64)
    requires chk < STATE_LIMIT
    ensures DoubleState(chk) < STATE_LIMIT
    ensures SymbolAt(DoubleState(chk), 0) == Double(SymbolAt(chk, 0))
    ensures SymbolAt(DoubleState(chk), 1) == Double(SymbolAt(chk, 1))
    ensures SymbolAt(DoubleState(chk), 2) == Double(SymbolAt(chk, 2))
    ensures SymbolAt(DoubleState(chk), 3) == Double(SymbolAt(chk, 3))
  {
  }

  lemma DoubleStateIsDoubleBelow(chk: bv64)
    requires chk < STATE_LIMIT
    ensures SymbolAt(DoubleState(chk), 4) == Double(SymbolAt(chk, 4))
    ensures SymbolAt(DoubleState(chk), 5) == Double(SymbolAt(chk, 5))
    ensures SymbolAt(DoubleState(chk), 6) == Double(SymbolAt(chk, 6))
    ensures SymbolAt(DoubleState(chk), 7) == Double(SymbolAt(chk, 7))
  {
  }

  lemma TopsLinear(a: bv64, b: bv64)
    ensures Tops(Xor(a, b)) == Xor(Tops(a), Tops(b))
  {
  }

  lemma Shift1Linear(a: bv64, b: bv64)
    ensures Up1(Xor(a, b)) == Xor(Up1(a), Up1(b))
  {
  }

  lemma Shift3Linear(a: bv64, b: bv64)
    ensures Up3(Xor(a, b)) == Xor(Up3(a), Up3(b))
  {
  }

  lemma Shift5Linear(a: bv64, b: bv64)
    ensures Up5(Xor(a, b)) == Xor(Up5(a), Up5(b))
  {
  }

  lemma ModuliLinear(a: bv64, b: bv64)
    ensures Moduli(Xor(a, b)) == Xor(Moduli(a), Moduli(b))
  {
    Shift3Linear(a, b);
    Shift5Linear(a, b);
    hide Xor, Up3, Up5;
    XorExchange(Up5(a), Up5(b), Up3(a), Up3(b));
    XorExchange(Xor(Up5(a), Up3(a)), Xor(Up5(b), Up3(b)), a, b);
  }

  lemma DoubleStateLinear(a: bv64, b: bv64)
    ensures DoubleState(Xor(a, b)) == Xor(DoubleState(a), DoubleState(b))
  {
    Shift1Linear(a, b);
    hide Xor, Tops, Moduli, Up1;
    TopsLinear(a, b);
    ModuliLinear(Tops(a), Tops(b));
    XorExchange(Up1(a), Up1(b), Moduli(Tops(a)), Moduli(Tops(b)));
  }

  /** Each generator is twice the one before, and twice the last is x^5 times the first. */
  lemma GeneratorsDouble()
    ensures DoubleState(GENERATOR[0]) == GENERATOR[1] && DoubleState(GENERATOR[1]) == GENERATOR[2]
    ensures DoubleState(GENERATOR[2]) == GENERATOR[3] && DoubleState(GENERATOR[3]) == GENERATOR[4]
    ensures DoubleState(GENERATOR[4]) == Xor(GENERATOR[0], GENERATOR[3])
  {
  }

  lemma ShiftedStateDoubles(chk: bv64)
    requires chk < STATE_LIMIT
    ensures Shifted(DoubleState(chk), 0) == DoubleState(Shifted(chk, 0))
  {
  }

  lemma ShiftedSymbolDoubles(value: Symbol)
    ensures Shifted(0, Double(value)) == DoubleState(Shifted(0, value))
  {
  }

  lemma ShiftedSplits(chk: bv64, value: Symbol)
    ensures Shifted(chk, value) == Xor(Shifted(chk, 0), Shifted(0, value))
  {
  }

  lemma ShiftedDoubles(chk: bv64, value: Symbol)
    requires chk < STATE_LIMIT
    ensures Shifted(DoubleState(chk), Double(value)) == DoubleState(Shifted(chk, value))
  {
    hide Shifted, DoubleState, Double, Xor;
    ShiftedSplits(chk, value);
    ShiftedSplits(DoubleState(chk), Double(value));
    ShiftedStateDoubles(chk);
    ShiftedSymbolDoubles(value);
    DoubleStateLinear(Shifted(chk, 0), Shifted(0, value));
  }

  lemma TopDoubles(chk: bv64)
    requires chk < STATE_LIMIT
    ensures var t, u := Top(chk), Top(DoubleState(chk));
            && (Bit(u, 0) <==> Bit(t, 4)) && (Bit(u, 1) <==> Bit(t, 0)) && (Bit(u, 2) <==> Bit(t, 1))
            && (Bit(u, 3) <==> Bit(t, 2) != Bit(t, 4)) && (Bit(u, 4) <==> Bit(t, 3))
  {
  }

  function Xor5(a: bv64, b: bv64, c: bv64, d: bv64, e: bv64): bv64 {
    Xor(Xor(Xor(Xor(Xor(0, a), b), c), d), e)
  }

  lemma Xor5Rearranged(a: bv64, b: bv64, c: bv64, d: bv64, e: bv64, f: bv64, g: bv64)
    requires Xor(c, e) == Xor(f, g)
    ensures Xor5(a, b, c, d, e) == Xor5(g, a, b, f, d)
  {
    hide Xor;
    var p := Xor(Xor(0, a), b);
    XorAssociates(a, 0, 0);
    XorAssociates(g, 0, 0);
    XorAssociates(g, a, b);
    XorCommutes(g, Xor(a, b));
    XorAssociates(Xor(p, c), d, e);
    XorExchange(p, c, d, e);
    XorExchange(p, d, f, g);
    XorAssociates(Xor(p, g), f, d);
    XorExchange(p, g, f, d);
    XorCommutes(g, d);
  }

  lemma DoubleXor5(a: bv64, b: bv64, c: bv64, d: bv64, e: bv64)
    ensures DoubleState(Xor5(a, b, c, d, e))
            == Xor5(DoubleState(a), DoubleState(b), DoubleState(c), DoubleState(d), DoubleState(e))
  {
    DoubleStateLinear(Xor(Xor(Xor(Xor(0, a), b), c), d), e);
    DoubleStateLinear(Xor(Xor(Xor(0, a), b), c), d);
    DoubleStateLinear(Xor(Xor(0, a), b), c);
    DoubleStateLinear(Xor(0, a), b);
    DoubleStateLinear(0, a);
    assert DoubleState(0) == 0;
    hide DoubleState, Xor;
  }

  lemma PicksDouble(t: bv64, u: bv64)
    requires (Bit(u, 0) <==> Bit(t, 4)) && (Bit(u, 1) <==> Bit(t, 0)) && (Bit(u, 2) <==> Bit(t, 1))
    requires (Bit(u, 3) <==> Bit(t, 2) != Bit(t, 4)) && (Bit(u, 4) <==> Bit(t, 3))
    ensures DoubleState(Pick(t, 0)) == Pick(u, 1) && DoubleState(Pick(t, 1)) == Pick(u, 2)
    ensures DoubleState(Pick(t, 3)) == Pick(u, 4)
    ensures Xor(DoubleState(Pick(t, 2)), DoubleState(Pick(t, 4))) == Xor(Pick(u, 3), Pick(u, 0))
  {
    GeneratorsDouble();
    assert DoubleState(0) == 0;
    hide Bit, DoubleState;
  }

  lemma {:induction false} MixDoubles(t: bv64, u: bv64)
    requires (Bit(u, 0) <==> Bit(t, 4)) && (Bit(u, 1) <==> Bit(t, 0)) && (Bit(u, 2) <==> Bit(t, 1))
    requires (Bit(u, 3) <==> Bit(t, 2) != Bit(t, 4)) && (Bit(u, 4) <==> Bit(t, 3))
    ensures DoubleState(Mix(t, 5)) == Mix(u, 5)
  {
    UnfoldMix(t);
    UnfoldMix(u);
    hide Mix, Bit, Pick, DoubleState, Xor;
    PicksDouble(t, u);
    DoubleXor5(Pick(t, 0), Pick(t, 1), Pick(t, 2), Pick(t, 3), Pick(t, 4));
    Xor5Rearranged(Pick(u, 1), Pick(u, 2), DoubleState(Pick(t, 2)), Pick(u, 4), DoubleState(Pick(t, 4)),
                   Pick(u, 3), Pick(u, 0));
  }

  lemma StepDoubles(chk: bv64, value: Symbol)
    requires chk < STATE_LIMIT
    ensures Step(DoubleState(chk), Double(value)) == DoubleState(Step(chk, value))
  {
    hide Mix, Xor, Shifted, Top, DoubleState, Bit, Double;
    ShiftedDoubles(chk, value);
    TopDoubles(chk);
    MixDoubles(Top(chk), Top(DoubleState(chk)));
    DoubleStateLinear(Shifted(chk, value), Mix(Top(chk), 5));
  }

  // --- Multiplying a whole word --------------------------------------------

  function StatePart(on: bool, chk: bv64): bv64 {
    if on then chk else 0
  }

  /** Every symbol of the state multiplied by `c`. */
  function TimesState(c: Symbol, chk: bv64): bv64 {
    var chk2 := DoubleState(chk);
    var chk4 := DoubleState(chk2);
    var chk8 := DoubleState(chk4);
    Xor5(StatePart(Has(c, 1), chk), StatePart(Has(c, 2), chk2), StatePart(Has(c, 4), chk4), StatePart(Has(c, 8), chk8),
         StatePart(Has(c, 16), DoubleState(chk8)))
  }

  function TimesSeq(c: Symbol, u: seq<Symbol>): (r: seq<Symbol>)
    ensures |r| == |u| && forall i :: 0 <= i < |u| ==> r[i] == Times(c, u[i])
  {
    seq(|u|, i requires 0 <= i < |u| => Times(c, u[i]))
  }

  lemma StepZero()
    ensures Step(0, 0) == 0
  {
    hide Mix;
    UnfoldMix(0);
  }

  lemma StepPart(on: bool, chk: bv64, value: Symbol)
    ensures Step(StatePart(on, chk), Part(on, value)) == StatePart(on, Step(chk, value))
  {
    hide Step;
    StepZero();
  }

  lemma StepXor5(a: bv64, b: bv64, c: bv64, d: bv64, e: bv64, p: Symbol, q: Symbol, r: Symbol, s: Symbol, t: Symbol)
    ensures Step(Xor5(a, b, c, d, e), Sum5(p, q, r, s, t))
            == Xor5(Step(a, p), Step(b, q), Step(c, r), Step(d, s), Step(e, t))
  {
    hide Step, Xor, Plus;
    XorAssociates(a, 0, 0);
    XorAssociates(Step(a, p), 0, 0);
    StepPlus(a, b, p, q);
    StepPlus(Xor(a, b), c, Plus(p, q), r);
    StepPlus(Xor(Xor(a, b), c), d, Plus(Plus(p, q), r), s);
    StepPlus(Xor(Xor(Xor(a, b), c), d), e, Plus(Plus(Plus(p, q), r), s), t);
  }

  lemma StepPlus(a: bv64, b: bv64, u: Symbol, v: Symbol)
    ensures Step(Xor(a, b), Plus(u, v)) == Xor(Step(a, u), Step(b, v))
  {
    hide Step, Xor;
    StepLinear(a, b, u, v);
  }

  lemma StepTimes(c: Symbol, chk: bv64, value: Symbol)
    requires chk < STATE_LIMIT
    ensures Step(TimesState(c, chk), Times(c, value)) == TimesState(c, Step(chk, value))
  {
    hide Step, Xor5, Sum5, Part, StatePart, Has, DoubleState, Double, Xor;
    var c2 := DoubleState(chk);
    var c4 := DoubleState(c2);
    var c8 := DoubleState(c4);
    var v2 := Double(value);
    var v4 := Double(v2);
    var v8 := Double(v4);
    DoubleStateIsDouble(chk);
    DoubleStateIsDouble(c2);
    DoubleStateIsDouble(c4);
    StepDoubles(chk, value);
    StepDoubles(c2, v2);
    StepDoubles(c4, v4);
    StepDoubles(c8, v8);
    StepXor5(StatePart(Has(c, 1), chk), StatePart(Has(c, 2), c2), StatePart(Has(c, 4), c4), StatePart(Has(c, 8), c8),
             StatePart(Has(c, 16), DoubleState(c8)), Part(Has(c, 1), value), Part(Has(c, 2), v2), Part(Has(c, 4), v4),
             Part(Has(c, 8), v8), Part(Has(c, 16), Double(v8)));
    StepPart(Has(c, 1), chk, value);
    StepPart(Has(c, 2), c2, v2);
    StepPart(Has(c, 4), c4, v4);
    StepPart(Has(c, 8), c8, v8);
    StepPart(Has(c, 16), DoubleState(c8), Double(v8));
  }

  lemma FirstLinear(a: bv64, b: bv64)
    ensures SymbolAt(Xor(a, b), 0) == Plus(SymbolAt(a, 0), SymbolAt(b, 0))
  {
  }

  lemma SecondLinear(a: bv64, b: bv64)
    ensures SymbolAt(Xor(a, b), 1) == Plus(SymbolAt(a, 1), SymbolAt(b, 1))
  {
  }

  lemma ThirdLinear(a: bv64, b: bv64)
    ensures SymbolAt(Xor(a, b), 2) == Plus(SymbolAt(a, 2), SymbolAt(b, 2))
  {
  }

  lemma FourthLinear(a: bv64, b: bv64)
    ensures SymbolAt(Xor(a, b), 3) == Plus(SymbolAt(a, 3), SymbolAt(b, 3))
  {
  }

  lemma FifthLinear(a: bv64, b: bv64)
    ensures SymbolAt(Xor(a, b), 4) == Plus(SymbolAt(a, 4), SymbolAt(b, 4))
  {
  }

  lemma SixthLinear(a: bv64, b: bv64)
    ensures SymbolAt(Xor(a, b), 5) == Plus(SymbolAt(a, 5), SymbolAt(b, 5))
  {
  }

  lemma SeventhLinear(a: bv64, b: bv64)
    ensures SymbolAt(Xor(a, b), 6) == Plus(SymbolAt(a, 6), SymbolAt(b, 6))
  {
  }

  lemma EighthLinear(a: bv64, b: bv64)
    ensures SymbolAt(Xor(a, b), 7) == Plus(SymbolAt(a, 7), SymbolAt(b, 7))
  {
  }

  lemma SymbolAtLinear(a: bv64, b: bv64, i: nat)
    requires i < 8
    ensures SymbolAt(Xor(a, b), i) == Plus(SymbolAt(a, i), SymbolAt(b, i))
  {
    hide SymbolAt, Xor, Plus;
    FirstLinear(a, b);
    SecondLinear(a, b);
    ThirdLinear(a, b);
    FourthLinear(a, b);
    FifthLinear(a, b);
    SixthLinear(a, b);
    SeventhLinear(a, b);
    EighthLinear(a, b);
  }

  lemma ZeroAt(i: nat)
    requires i < 8
    ensures SymbolAt(0, i) == 0
  {
  }

  lemma DoubleAt(chk: bv64, i: nat)
    requires i < 8 && chk < STATE_LIMIT
    ensures DoubleState(chk) < STATE_LIMIT
    ensures SymbolAt(DoubleState(chk), i) == Double(SymbolAt(chk, i))
  {
    hide SymbolAt, DoubleState, Double;
    DoubleStateIsDouble(chk);
    DoubleStateIsDoubleBelow(chk);
  }

  lemma Xor5At(a: bv64, b: bv64, c: bv64, d: bv64, e: bv64, i: nat)
    requires i < 8
    ensures SymbolAt(Xor5(a, b, c, d, e), i)
            == Sum5(SymbolAt(a, i), SymbolAt(b, i), SymbolAt(c, i), SymbolAt(d, i), SymbolAt(e, i))
  {
    hide SymbolAt, Xor, Plus;
    XorAssociates(a, 0, 0);
    SymbolAtLinear(a, b, i);
    SymbolAtLinear(Xor(a, b), c, i);
    SymbolAtLinear(Xor(Xor(a, b), c), d, i);
    SymbolAtLinear(Xor(Xor(Xor(a, b), c), d), e, i);
  }

  lemma PartAt(on: bool, chk: bv64, i: nat)
    requires i < 8
    ensures SymbolAt(StatePart(on, chk), i) == Part(on, SymbolAt(chk, i))
  {
    hide SymbolAt;
    ZeroAt(i);
  }

  /** Multiplying a state multiplies each of its eight symbols. */
  lemma TimesStateIsTimes(c: Symbol, chk: bv64, i: nat)
    requires i < 8 && chk < STATE_LIMIT
    ensures SymbolAt(TimesState(c, chk), i) == Times(c, SymbolAt(chk, i))
  {
    hide SymbolAt, Xor5, Sum5, Part, StatePart, Has, DoubleState, Double, Xor;
    var c2 := DoubleState(chk);
    var c4 := DoubleState(c2);
    var c8 := DoubleState(c4);
    DoubleAt(chk, i);
    DoubleAt(c2, i);
    DoubleAt(c4, i);
    DoubleAt(c8, i);
    PartAt(Has(c, 1), chk, i);
    PartAt(Has(c, 2), c2, i);
    PartAt(Has(c, 4), c4, i);
    PartAt(Has(c, 8), c8, i);
    PartAt(Has(c, 16), DoubleState(c8), i);
    Xor5At(StatePart(Has(c, 1), chk), StatePart(Has(c, 2), c2), StatePart(Has(c, 4), c4), StatePart(Has(c, 8), c8),
           StatePart(Has(c, 16), DoubleState(c8)), i);
  }

  /** The code is linear over the field: multiplying the state and every symbol by an element
      multiplies the remainder by it, symbol by symbol. */
  lemma {:induction false} FoldTimes(c: Symbol, chk: bv64, u: seq<Symbol>)
    requires chk < STATE_LIMIT
    ensures Fold(TimesState(c, chk), TimesSeq(c, u)) == TimesState(c, Fold(chk, u))
    decreases |u|
  {
    hide Step, TimesState, Times;
    if u != [] {
      StepTimes(c, chk, u[0]);
      StepInjective(chk, u[0]);
      FoldTimes(c, Step(chk, u[0]), u[1..]);
      assert TimesSeq(c, u)[1..] == TimesSeq(c, u[1..]);
    }
  }
}
