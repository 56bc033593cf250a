/** The checksum arithmetic of BIP-380 ("Checksum" section): a BCH code over five-bit symbols,
    computed in a 40-bit state, as real bit-vector algebra. */
module PolymodCode {

  type Symbol = bv5

  const GENERATOR: seq<bv64> := [0xf5_dee5_1989, 0xa9_fdca_3312, 0x1b_ab10_e32d, 0x37_06b1_677a, 0x64_4d62_6ffd]
  const LOW_35: bv64 := 0x7_ffff_ffff
  const STATE_LIMIT: bv64 := 0x100_0000_0000

  // --- The state step ------------------------------------------------------

  function Xor(a: bv64, b: bv64): bv64 {
    a ^ b
  }

  function Mask(i: nat): (m: bv64)
    requires i < 5
    ensures m == 1 || m == 2 || m == 4 || m == 8 || m == 16
  {
    if i == 0 then 1 else if i == 1 then 2 else if i == 2 then 4 else if i == 3 then 8 else 16
  }

  predicate Meets(a: bv64, m: bv64) {
    a & m != 0
  }

  /** Whether bit `i` is set, by its mask. */
  predicate Bit(top: bv64, i: nat)
    requires i < 5
  {
    Meets(top, Mask(i))
  }

  /** The mask test is the program's shift-and-test, on the five bits there are. */
  lemma BitIsShift(top: bv64)
    requires top < 32
    ensures (Bit(top, 0) <==> (top >> 0) & 1 == 1) && (Bit(top, 1) <==> (top >> 1) & 1 == 1)
    ensures (Bit(top, 2) <==> (top >> 2) & 1 == 1) && (Bit(top, 3) <==> (top >> 3) & 1 == 1)
    ensures Bit(top, 4) <==> (top >> 4) & 1 == 1
  {
  }

  function Pick(top: bv64, i: nat): bv64
    requires i < 5
  {
    if Bit(top, i) then GENERATOR[i] else 0
  }

  /** The generators selected by the low `n` bits of `top`. */
  function Mix(top: bv64, n: nat): bv64
    requires n <= 5
  {
    if n == 0 then 0 else Xor(Mix(top, n - 1), Pick(top, n - 1))
  }

  /** The state shifted up by one symbol, its five top bits dropped, the new symbol below. */
  function Shifted(chk: bv64, value: Symbol): bv64 {
    ((chk & LOW_35) << 5) ^ (value as bv64)
  }

  function Top(chk: bv64): bv64 {
    chk >> 35
  }

  function Step(chk: bv64, value: Symbol): bv64 {
    Xor(Shifted(chk, value), Mix(Top(chk), 5))
  }

  function Fold(chk: bv64, symbols: seq<Symbol>): bv64
    decreases |symbols|
  {
    if symbols == [] then chk else Fold(Step(chk, symbols[0]), symbols[1..])
  }

  /** The inner loop of `polymod`: exclusive-or in the generators that the top bits select. */
  method Absorb(chk: bv64, value: Symbol) returns (r: bv64)
    ensures r == Step(chk, value)
  {
    hide Xor, Pick, Bit, Shifted, Top;
    var top := Top(chk);
    var base := Shifted(chk, value);
    r := base;
    XorAssociates(base, 0, 0);
    for i := 0 to 5
      invariant r == Xor(base, Mix(top, i))
    {
      PickCases(top, i);
      XorAssociates(base, Mix(top, i), Pick(top, i));
      XorAssociates(r, 0, 0);
      if Bit(top, i) {
        r := Xor(r, GENERATOR[i]);
      }
    }
  }

  lemma PickCases(top: bv64, i: nat)
    requires i < 5
    ensures Bit(top, i) ==> Pick(top, i) == GENERATOR[i]
    ensures !Bit(top, i) ==> Pick(top, i) == 0
  {
  }

  /** `polymod`: the state starts at one and absorbs every symbol in turn. */
  method Polymod(symbols: seq<Symbol>) returns (chk: bv64)
    ensures chk == Fold(1, symbols)
  {
    hide Step;
    chk := 1;
    for k := 0 to |symbols|
      invariant Fold(chk, symbols[k..]) == Fold(1, symbols)
    {
      assert symbols[k..][1..] == symbols[k + 1..];
      chk := Absorb(chk, symbols[k]);
    }
  }

  // --- Exclusive-or laws ---------------------------------------------------

  lemma XorAssociates(a: bv64, b: bv64, c: bv64)
    ensures Xor(Xor(a, b), c) == Xor(a, Xor(b, c))
    ensures Xor(a, 0) == a && Xor(0, a) == a
  {
  }

  lemma XorCommutes(a: bv64, b: bv64)
    ensures Xor(a, b) == Xor(b, a)
  {
  }

  lemma XorExchange(a: bv64, b: bv64, c: bv64, d: bv64)
    ensures Xor(Xor(a, b), Xor(c, d)) == Xor(Xor(a, c), Xor(b, d))
  {
    hide Xor;
    XorAssociates(a, b, Xor(c, d));
    XorAssociates(b, c, d);
    XorCommutes(b, c);
    XorAssociates(c, b, d);
    XorAssociates(a, c, Xor(b, d));
  }

  lemma XorIsDifference(a: bv64, b: bv64)
    ensures Xor(a, b) == 0 <==> a == b
  {
  }

  // --- Linearity and injectivity -------------------------------------------

  lemma BitOfXor(a: bv64, b: bv64, i: nat)
    requires i < 5
    ensures Bit(Xor(a, b), i) <==> Bit(a, i) != Bit(b, i)
  {
    hide Xor, Mask, Meets;
    MaskOfXor(a, b, Mask(i));
  }

  lemma MaskOfXor(a: bv64, b: bv64, m: bv64)
    requires m == 1 || m == 2 || m == 4 || m == 8 || m == 16
    ensures Meets(Xor(a, b), m) <==> Meets(a, m) != Meets(b, m)
  {
  }

  lemma PickLinear(a: bv64, b: bv64, i: nat)
    requires i < 5
    ensures Pick(Xor(a, b), i) == Xor(Pick(a, i), Pick(b, i))
  {
    hide Xor, Pick, Bit;
    BitOfXor(a, b, i);
    PickCases(a, i);
    PickCases(b, i);
    PickCases(Xor(a, b), i);
    XorAssociates(GENERATOR[i], 0, 0);
    XorAssociates(0, 0, 0);
    XorIsDifference(GENERATOR[i], GENERATOR[i]);
  }

  lemma {:induction false} MixLinear(a: bv64, b: bv64, n: nat)
    requires n <= 5
    ensures Mix(Xor(a, b), n) == Xor(Mix(a, n), Mix(b, n))
  {
    hide Xor, Pick;
    if n > 0 {
      MixLinear(a, b, n - 1);
      PickLinear(a, b, n - 1);
      XorExchange(Mix(a, n - 1), Mix(b, n - 1), Pick(a, n - 1), Pick(b, n - 1));
    } else {
      XorAssociates(0, 0, 0);
    }
  }

  lemma ShiftedLinear(a: bv64, b: bv64, u: Symbol, v: Symbol)
    ensures Shifted(Xor(a, b), u ^ v) == Xor(Shifted(a, u), Shifted(b, v))
    ensures Top(Xor(a, b)) == Xor(Top(a), Top(b))
  {
    assert (u ^ v) as bv64 == (u as bv64) ^ (v as bv64);
  }

  lemma StepLinear(a: bv64, b: bv64, u: Symbol, v: Symbol)
    ensures Step(Xor(a, b), u ^ v) == Xor(Step(a, u), Step(b, v))
  {
    hide Xor, Mix, Shifted, Top;
    ShiftedLinear(a, b, u, v);
    MixLinear(Top(a), Top(b), 5);
    XorExchange(Shifted(a, u), Shifted(b, v), Mix(Top(a), 5), Mix(Top(b), 5));
  }

  function XorSeq(u: seq<Symbol>, v: seq<Symbol>): (r: seq<Symbol>)
    requires |u| == |v|
    ensures |r| == |u| && forall i :: 0 <= i < |u| ==> r[i] == u[i] ^ v[i]
  {
    seq(|u|, i requires 0 <= i < |u| => u[i] ^ v[i])
  }

  /** The code is linear: exclusive-or of inputs gives exclusive-or of states. */
  lemma {:induction false} FoldLinear(a: bv64, b: bv64, u: seq<Symbol>, v: seq<Symbol>)
    requires |u| == |v|
    ensures Fold(Xor(a, b), XorSeq(u, v)) == Xor(Fold(a, u), Fold(b, v))
    decreases |u|
  {
    hide Xor, Step;
    if u != [] {
      StepLinear(a, b, u[0], v[0]);
      FoldLinear(Step(a, u[0]), Step(b, v[0]), u[1..], v[1..]);
      assert XorSeq(u, v)[1..] == XorSeq(u[1..], v[1..]);
    }
  }

  lemma {:induction false} UnfoldMix(top: bv64)
    ensures Mix(top, 5)
            == Xor(Xor(Xor(Xor(Xor(0, Pick(top, 0)), Pick(top, 1)), Pick(top, 2)), Pick(top, 3)), Pick(top, 4))
  {
    hide Xor, Pick;
    assert Mix(top, 3) == Xor(Xor(Xor(0, Pick(top, 0)), Pick(top, 1)), Pick(top, 2)) by {
      assert Mix(top, 1) == Xor(0, Pick(top, 0));
    }
  }

  /** The state never leaves 40 bits, and a non-zero state never steps to zero on a zero symbol. */
  lemma StepInjective(chk: bv64, value: Symbol)
    requires chk < STATE_LIMIT
    ensures Step(chk, value) < STATE_LIMIT
    ensures Step(chk, 0) == 0 ==> chk == 0
  {
    hide Mix;
    UnfoldMix(Top(chk));
    assert GENERATOR[0] == 0xf5_dee5_1989 && GENERATOR[1] == 0xa9_fdca_3312 && GENERATOR[2] == 0x1b_ab10_e32d
        && GENERATOR[3] == 0x37_06b1_677a && GENERATOR[4] == 0x64_4d62_6ffd;
  }

  lemma {:induction false} FoldBounded(chk: bv64, symbols: seq<Symbol>)
    requires chk < STATE_LIMIT
    ensures Fold(chk, symbols) < STATE_LIMIT
    decreases |symbols|
  {
    hide Step;
    if symbols != [] {
      StepInjective(chk, symbols[0]);
      FoldBounded(Step(chk, symbols[0]), symbols[1..]);
    }
  }

  predicate AllZero(symbols: seq<Symbol>) {
    forall i :: 0 <= i < |symbols| ==> symbols[i] == 0
  }

  lemma {:induction false} ZerosKeepNonZero(chk: bv64, symbols: seq<Symbol>)
    requires chk < STATE_LIMIT && AllZero(symbols) && Fold(chk, symbols) == 0
    ensures chk == 0
    decreases |symbols|
  {
    hide Step;
    if symbols != [] {
      StepInjective(chk, symbols[0]);
      ZerosKeepNonZero(Step(chk, symbols[0]), symbols[1..]);
    }
  }

  // --- Bursts --------------------------------------------------------------

  lemma {:induction false} FoldConcat(chk: bv64, u: seq<Symbol>, v: seq<Symbol>)
    ensures Fold(chk, u + v) == Fold(Fold(chk, u), v)
    decreases |u|
  {
    hide Step;
    if u == [] {
      assert u + v == v;
    } else {
      assert (u + v)[1..] == u[1..] + v;
      FoldConcat(Step(chk, u[0]), u[1..], v);
    }
  }

  /** While fewer than eight symbols were absorbed no bit is dropped and no generator applies. */
  function Push(chk: bv64, value: Symbol): bv64 {
    (chk << 5) ^ (value as bv64)
  }

  lemma StepIsPush(chk: bv64, value: Symbol)
    requires chk <= LOW_35
    ensures Step(chk, value) == Push(chk, value)
  {
    hide Mix;
    UnfoldMix(Top(chk));
    assert Top(chk) == 0;
  }

  lemma PushBounds(a: bv64, value: Symbol)
    ensures a == 0 ==> Push(a, value) < 0x20
    ensures a < 0x20 ==> Push(a, value) < 0x400
    ensures a < 0x400 ==> Push(a, value) < 0x8000
    ensures a < 0x8000 ==> Push(a, value) < 0x10_0000
    ensures a < 0x10_0000 ==> Push(a, value) < 0x200_0000
    ensures a < 0x200_0000 ==> Push(a, value) < 0x4000_0000
    ensures a < 0x4000_0000 ==> Push(a, value) <= LOW_35
  {
  }

  function Push4(chk: bv64, a: Symbol, b: Symbol, c: Symbol, d: Symbol): bv64 {
    Push(Push(Push(Push(chk, a), b), c), d)
  }

  lemma {:induction false} FoldFour(chk: bv64, d: seq<Symbol>)
    requires |d| == 4 && (chk == 0 || chk < 0x10_0000)
    ensures Fold(chk, d) == Push4(chk, d[0], d[1], d[2], d[3])
    ensures chk == 0 ==> Fold(chk, d) < 0x10_0000
  {
    hide Step, Push;
    var c1 := Push(chk, d[0]);
    var c2 := Push(c1, d[1]);
    var c3 := Push(c2, d[2]);
    PushBounds(chk, d[0]);
    PushBounds(c1, d[1]);
    PushBounds(c2, d[2]);
    PushBounds(c3, d[3]);
    StepIsPush(chk, d[0]);
    StepIsPush(c1, d[1]);
    StepIsPush(c2, d[2]);
    StepIsPush(c3, d[3]);
    assert d[1..][1..] == d[2..] && d[2..][1..] == d[3..] && d[3..][1..] == [];
    assert Fold(c3, d[3..]) == Fold(Push(c3, d[3]), []);
    assert Fold(c2, d[2..]) == Fold(c3, d[3..]);
    assert Fold(c1, d[1..]) == Fold(c2, d[2..]);
  }

  /** Eight symbols absorbed from the zero state are just laid side by side. */
  lemma {:induction false} FoldEight(d: seq<Symbol>)
    requires |d| == 8
    ensures Fold(0, d) == Push4(Push4(0, d[0], d[1], d[2], d[3]), d[4], d[5], d[6], d[7])
  {
    hide Push4, Fold;
    FoldConcat(0, d[..4], d[4..]);
    assert d == d[..4] + d[4..];
    FoldFour(0, d[..4]);
    FoldFour(Fold(0, d[..4]), d[4..]);
  }

  /** Symbol `i` of a 40-bit value, most significant first. */
  function SymbolAt(chk: bv64, i: nat): Symbol
    requires i < 8
  {
    if i == 0 then ((chk >> 35) & 31) as bv5
    else if i == 1 then ((chk >> 30) & 31) as bv5
    else if i == 2 then ((chk >> 25) & 31) as bv5
    else if i == 3 then ((chk >> 20) & 31) as bv5
    else if i == 4 then ((chk >> 15) & 31) as bv5
    else if i == 5 then ((chk >> 10) & 31) as bv5
    else if i == 6 then ((chk >> 5) & 31) as bv5
    else (chk & 31) as bv5
  }

  function Symbols(chk: bv64): (r: seq<Symbol>)
    ensures |r| == 8 && forall i :: 0 <= i < 8 ==> r[i] == SymbolAt(chk, i)
  {
    [SymbolAt(chk, 0), SymbolAt(chk, 1), SymbolAt(chk, 2), SymbolAt(chk, 3),
     SymbolAt(chk, 4), SymbolAt(chk, 5), SymbolAt(chk, 6), SymbolAt(chk, 7)]
  }

  lemma SplitOfPush(a: Symbol, b: Symbol, c: Symbol, d: Symbol, e: Symbol, f: Symbol, g: Symbol, h: Symbol)
    ensures var x := Push4(Push4(0, a, b, c, d), e, f, g, h);
            && SymbolAt(x, 0) == a && SymbolAt(x, 1) == b && SymbolAt(x, 2) == c && SymbolAt(x, 3) == d
            && SymbolAt(x, 4) == e && SymbolAt(x, 5) == f && SymbolAt(x, 6) == g && SymbolAt(x, 7) == h
  {
  }

  lemma PushOfSplit(x: bv64)
    requires x < STATE_LIMIT
    ensures Push4(Push4(0, SymbolAt(x, 0), SymbolAt(x, 1), SymbolAt(x, 2), SymbolAt(x, 3)),
                  SymbolAt(x, 4), SymbolAt(x, 5), SymbolAt(x, 6), SymbolAt(x, 7)) == x
  {
  }

  /** Eight symbols and a 40-bit value determine each other. */
  lemma {:induction false} EightSymbolsAreAState(d: seq<Symbol>, x: bv64)
    requires |d| == 8 && x < STATE_LIMIT
    ensures Symbols(Fold(0, d)) == d
    ensures Fold(0, Symbols(x)) == x
  {
    hide SymbolAt, Push4, Fold;
    FoldEight(d);
    SplitOfPush(d[0], d[1], d[2], d[3], d[4], d[5], d[6], d[7]);
    FoldEight(Symbols(x));
    PushOfSplit(x);
  }

  lemma {:induction false} ZerosFixZero(z: seq<Symbol>)
    requires AllZero(z)
    ensures Fold(0, z) == 0
    decreases |z|
  {
    hide Step;
    if z != [] {
      StepIsPush(0, 0);
      assert Push(0, 0) == 0;
      ZerosFixZero(z[1..]);
    }
  }

  lemma {:induction false} ShortBurst(d: seq<Symbol>)
    requires |d| <= 8 && Fold(0, d) == 0
    ensures AllZero(d)
  {
    hide Fold, SymbolAt;
    var pad := seq(8 - |d|, _ => 0);
    FoldConcat(0, pad, d);
    ZerosFixZero(pad);
    EightSymbolsAreAState(pad + d, 0);
    var zeros := seq(8, _ => 0);
    EightSymbolsAreAState(zeros, 0);
    ZerosFixZero(zeros);
    assert forall i :: 0 <= i < |d| ==> d[i] == (pad + d)[|pad| + i] == zeros[|pad| + i];
  }

  lemma {:induction false} BurstFromZero(diff: seq<Symbol>, p: nat, q: nat)
    requires p <= q <= |diff| && q - p <= 8
    requires AllZero(diff[..p]) && AllZero(diff[q..]) && Fold(0, diff) == 0
    ensures AllZero(diff[p..q])
  {
    hide Fold;
    var d := diff[p..q];
    assert diff == (diff[..p] + d) + diff[q..];
    FoldConcat(0, diff[..p] + d, diff[q..]);
    FoldConcat(0, diff[..p], d);
    ZerosFixZero(diff[..p]);
    FoldBounded(0, d);
    ZerosKeepNonZero(Fold(0, d), diff[q..]);
    ShortBurst(d);
  }

  /** Every change confined to eight consecutive symbols changes the final state. */
  lemma {:induction false} BurstDetected(u: seq<Symbol>, v: seq<Symbol>, p: nat)
    requires |u| == |v| && u != v
    requires forall i :: 0 <= i < |u| && !(p <= i < p + 8) ==> u[i] == v[i]
    ensures Fold(1, u) != Fold(1, v)
  {
    hide Fold, Xor;
    var diff := XorSeq(u, v);
    FoldLinear(1, 1, u, v);
    XorIsDifference(1, 1);
    XorIsDifference(Fold(1, u), Fold(1, v));
    SymbolDifference(u, v);
    if Fold(0, diff) == 0 {
      var i :| 0 <= i < |u| && u[i] != v[i];
      var q := if p + 8 <= |u| then p + 8 else |u|;
      assert diff[p..q][i - p] == diff[i] != 0;
      BurstFromZero(diff, p, q);
    }
  }

  lemma SymbolDifference(u: seq<Symbol>, v: seq<Symbol>)
    requires |u| == |v|
    ensures forall i :: 0 <= i < |u| ==> (XorSeq(u, v)[i] == 0 <==> u[i] == v[i])
  {
  }

  /** Appending eight symbols exclusive-ors them into the state that eight zeros would give. */
  lemma {:induction false} AppendEight(x: seq<Symbol>, d: seq<Symbol>, zeros: seq<Symbol>)
    requires |d| == 8 && |zeros| == 8 && AllZero(zeros)
    ensures Fold(1, x + d) == Xor(Fold(1, x + zeros), Fold(0, d))
  {
    hide Fold, Xor;
    FoldConcat(1, x, d);
    FoldConcat(1, x, zeros);
    XorAssociates(Fold(1, x), 0, 0);
    SymbolZero(zeros, d);
    FoldLinear(Fold(1, x), 0, zeros, d);
  }

  lemma SymbolZero(zeros: seq<Symbol>, d: seq<Symbol>)
    requires |zeros| == |d| && AllZero(zeros)
    ensures XorSeq(zeros, d) == d
  {
  }
}
