/** Descriptor checksums: a payload, `#`, and eight characters of the code in `PolymodCode`.
    A descriptor is its byte string, one character per byte. */
module Checksum {
  import opened Machine
  import opened Errors
  import opened PolymodCode

  const CHARSET_LOW: string := "0123456789()[],'/*abcdefgh@:$%{}"
  const CHARSET_MIDDLE: string := "IJKLMNOPQRSTUVWXYZ&+-.;<=>?!^_|~"
  const CHARSET_HIGH: string := "ijklmnopqrstuvwxyzABCDEFGH`#\"\\ "
  const INPUT_CHARSET: string := CHARSET_LOW + CHARSET_MIDDLE + CHARSET_HIGH
  const CHECKSUM_CHARSET: string := "qpzry9x8gf2tvdw0s3jn54khce6mua7l"

  // --- Characters to symbols -----------------------------------------------

  function Position(charset: string, c: char): (r: Option<nat>)
    ensures r.Some? <==> c in charset
    ensures r.Some? ==> r.value < |charset| && charset[r.value] == c
    ensures r.Some? ==> forall i :: 0 <= i < r.value ==> charset[i] != c
  {
    if charset == "" then None
    else if charset[0] == c then Some(0)
    else match Position(charset[1..], c)
         case None => None
         case Some(i) => Some(i + 1)
  }

  predicate InCharset(s: string) {
    forall i :: 0 <= i < |s| ==> s[i] in INPUT_CHARSET
  }

  lemma CharsetSizes()
    ensures |INPUT_CHARSET| == 95 && |CHECKSUM_CHARSET| == 32
  {
  }

  type Trit = t: int | 0 <= t < 3
  type Value = v: int | 0 <= v < 96

  function ValueOf(c: char): Value
    requires c in INPUT_CHARSET
  {
    CharsetSizes();
    Position(INPUT_CHARSET, c).value
  }

  function Values(s: string): (r: seq<Value>)
    requires InCharset(s)
    ensures |r| == |s| && forall i :: 0 <= i < |s| ==> r[i] == ValueOf(s[i])
  {
    seq(|s|, i requires 0 <= i < |s| => ValueOf(s[i]))
  }

  function ToSymbol(x: nat): Symbol
    requires x < 32
  {
    x as bv5
  }

  lemma ToSymbolKeeps(x: nat)
    requires x < 32
    ensures ToSymbol(x) as int == x
  {
  }

  lemma ToSymbolInjective(x: nat, y: nat)
    requires x < 32 && y < 32 && ToSymbol(x) == ToSymbol(y)
    ensures x == y
  {
    hide ToSymbol;
    ToSymbolKeeps(x);
    ToSymbolKeeps(y);
  }

  function Low(v: Value): Symbol { ToSymbol(v % 32) }
  function High(v: Value): Trit { v / 32 }

  /** High parts of two or three characters in base three. */
  function Group2(a: Trit, b: Trit): Symbol {
    var x: int, y: int := a, b;
    ToSymbol(x * 3 + y)
  }

  function Group3(a: Trit, b: Trit, c: Trit): Symbol {
    var x: int, y: int, z: int := a, b, c;
    ToSymbol(x * 9 + y * 3 + z)
  }

  lemma GroupsInjective(a: Trit, b: Trit, c: Trit, a': Trit, b': Trit, c': Trit)
    ensures Group2(a, b) == Group2(a', b') ==> a == a' && b == b'
    ensures Group3(a, b, c) == Group3(a', b', c') ==> a == a' && b == b' && c == c'
  {
    hide ToSymbol;
    var x: int, y: int, z: int, x': int, y': int, z': int := a, b, c, a', b', c';
    if Group2(a, b) == Group2(a', b') {
      ToSymbolInjective(x * 3 + y, x' * 3 + y');
    }
    if Group3(a, b, c) == Group3(a', b', c') {
      ToSymbolInjective(x * 9 + y * 3 + z, x' * 9 + y' * 3 + z');
    }
  }

  /** Each character gives its low five bits; every three characters are followed by one
      symbol holding their high parts in base three. */
  function Expanded(v: seq<Value>): seq<Symbol> {
    if v == [] then []
    else if |v| == 1 then [Low(v[0]), ToSymbol(High(v[0]))]
    else if |v| == 2 then [Low(v[0]), Low(v[1]), Group2(High(v[0]), High(v[1]))]
    else [Low(v[0]), Low(v[1]), Low(v[2]), Group3(High(v[0]), High(v[1]), High(v[2]))] + Expanded(v[3..])
  }

  lemma {:induction false} ExpandedLength(v: seq<Value>, w: seq<Value>)
    requires |v| == |w|
    ensures |Expanded(v)| == |Expanded(w)|
    ensures |v| <= 6 ==> |Expanded(v)| <= 8
    decreases |v|
  {
    hide ToSymbol;
    if |v| >= 3 {
      ExpandedLength(v[3..], w[3..]);
    }
  }

  lemma {:induction false} ExpandedConcat(v: seq<Value>, w: seq<Value>)
    requires |v| % 3 == 0
    ensures Expanded(v + w) == Expanded(v) + Expanded(w)
    decreases |v|
  {
    hide ToSymbol;
    if v == [] {
      assert v + w == w;
    } else {
      assert (v + w)[3..] == v[3..] + w;
      ExpandedConcat(v[3..], w);
    }
  }

  lemma LowHighDetermine(a: Value, b: Value)
    requires Low(a) == Low(b) && High(a) == High(b)
    ensures a == b
  {
    ToSymbolInjective(a % 32, b % 32);
  }

  /** No two value strings of one length expand to the same symbols. */
  lemma {:induction false} ExpandedInjective(v: seq<Value>, w: seq<Value>)
    requires |v| == |w| && Expanded(v) == Expanded(w)
    ensures v == w
    decreases |v|
  {
    hide ToSymbol, Low, High, Group2, Group3;
    var x, y := Expanded(v), Expanded(w);
    if |v| >= 3 {
      assert x[4..] == Expanded(v[3..]) && y[4..] == Expanded(w[3..]);
      ExpandedInjective(v[3..], w[3..]);
      assert x[0] == y[0] && x[1] == y[1] && x[2] == y[2] && x[3] == y[3];
      GroupsInjective(High(v[0]), High(v[1]), High(v[2]), High(w[0]), High(w[1]), High(w[2]));
      LowHighDetermine(v[0], w[0]);
      LowHighDetermine(v[1], w[1]);
      LowHighDetermine(v[2], w[2]);
      assert v == [v[0], v[1], v[2]] + v[3..] && w == [w[0], w[1], w[2]] + w[3..];
    } else if |v| == 2 {
      assert x[0] == y[0] && x[1] == y[1] && x[2] == y[2];
      GroupsInjective(High(v[0]), High(v[1]), 0, High(w[0]), High(w[1]), 0);
      LowHighDetermine(v[0], w[0]);
      LowHighDetermine(v[1], w[1]);
    } else if |v| == 1 {
      assert x[0] == y[0] && x[1] == y[1];
      ToSymbolInjective(High(v[0]), High(w[0]));
      LowHighDetermine(v[0], w[0]);
    }
  }

  /** Values that agree outside two neighbouring triples expand to symbols that agree outside
      eight consecutive places. */
  lemma {:induction false} ExpandedBurst(v: seq<Value>, w: seq<Value>, m: nat)
    requires |v| == |w|
    requires forall i :: 0 <= i < |v| && !(3 * m <= i < 3 * m + 6) ==> v[i] == w[i]
    ensures |Expanded(v)| == |Expanded(w)|
    ensures forall i :: 0 <= i < |Expanded(v)| && !(4 * m <= i < 4 * m + 8) ==> Expanded(v)[i] == Expanded(w)[i]
    decreases m
  {
    hide ToSymbol, Low, High, Group2, Group3;
    ExpandedLength(v, w);
    if m > 0 && |v| >= 3 {
      ExpandedBurst(v[3..], w[3..], m - 1);
      assert Expanded(v)[4..] == Expanded(v[3..]) && Expanded(w)[4..] == Expanded(w[3..]);
      assert forall i :: 4 <= i < |Expanded(v)| ==>
               Expanded(v)[i] == Expanded(v[3..])[i - 4] && Expanded(w)[i] == Expanded(w[3..])[i - 4];
    } else if m == 0 && |v| > 6 {
      assert v == v[..6] + v[6..] && w == w[..6] + w[6..];
      assert v[6..] == w[6..];
      ExpandedConcat(v[..6], v[6..]);
      ExpandedConcat(w[..6], w[6..]);
      ExpandedLength(v[..6], w[..6]);
    } else if m > 0 {
      assert v == w;
    }
  }

  // --- Checking and creating -----------------------------------------------

  predicate ChecksumChars(s: string) {
    forall i :: 0 <= i < |s| ==> s[i] in CHECKSUM_CHARSET
  }

  function ChecksumSymbol(c: char): Symbol
    requires c in CHECKSUM_CHARSET
  {
    CharsetSizes();
    ToSymbol(Position(CHECKSUM_CHARSET, c).value)
  }

  function ChecksumSymbols(s: string): (r: seq<Symbol>)
    requires ChecksumChars(s)
    ensures |r| == |s| && forall i :: 0 <= i < |s| ==> r[i] == ChecksumSymbol(s[i])
  {
    seq(|s|, i requires 0 <= i < |s| => ChecksumSymbol(s[i]))
  }

  lemma ChecksumSymbolInjective(c: char, d: char)
    requires c in CHECKSUM_CHARSET && d in CHECKSUM_CHARSET && ChecksumSymbol(c) == ChecksumSymbol(d)
    ensures c == d
  {
    hide ToSymbol;
    CharsetSizes();
    ToSymbolInjective(Position(CHECKSUM_CHARSET, c).value, Position(CHECKSUM_CHARSET, d).value);
  }

  function ChecksumChar(x: Symbol): char {
    CharsetSizes();
    CHECKSUM_CHARSET[x as int]
  }

  lemma CharsetDistinct(i: nat, j: nat)
    requires i < j < 32
    ensures CHECKSUM_CHARSET[i] != CHECKSUM_CHARSET[j]
  {
  }

  /** Each of the 32 symbols has its character and reads back as itself. */
  lemma ChecksumCharReadsBack(x: Symbol)
    ensures ChecksumChar(x) in CHECKSUM_CHARSET && ChecksumSymbol(ChecksumChar(x)) == x
  {
    CharsetSizes();
    var i := x as int;
    var p := Position(CHECKSUM_CHARSET, ChecksumChar(x)).value;
    if p < i {
      CharsetDistinct(p, i);
    }
    assert p == i;
  }

  /** The outcome of `verify_checksum`. */
  function Verified(s: string): Result<(), ParseError> {
    if |s| < 10 || s[|s| - 9] != '#' then Err(MissingChecksum)
    else
      var payload, checksum := s[..|s| - 9], s[|s| - 8..];
      if !ChecksumChars(checksum) then Err(MalformedChecksum)
      else if !InCharset(payload) then Err(InvalidCharset)
      else if Fold(1, CodeWord(payload, checksum)) != 1 then Err(InvalidChecksum)
      else Ok(())
  }

  function CodeWord(payload: string, checksum: string): seq<Symbol>
    requires InCharset(payload) && ChecksumChars(checksum)
  {
    Expanded(Values(payload)) + ChecksumSymbols(checksum)
  }

  const EIGHT_ZEROS: seq<Symbol> := [0, 0, 0, 0, 0, 0, 0, 0]

  /** The eight characters `create_checksum` appends. */
  function CreatedChecksum(payload: string): (r: string)
    requires InCharset(payload)
    ensures |r| == 8
  {
    var x := Symbols(Xor(Fold(1, Expanded(Values(payload)) + EIGHT_ZEROS), 1));
    seq(8, i requires 0 <= i < 8 => ChecksumChar(x[i]))
  }

  lemma CreatedReadsBack(payload: string)
    requires InCharset(payload)
    ensures ChecksumChars(CreatedChecksum(payload))
    ensures ChecksumSymbols(CreatedChecksum(payload))
            == Symbols(Xor(Fold(1, Expanded(Values(payload)) + EIGHT_ZEROS), 1))
  {
    hide Fold, Xor, SymbolAt, ChecksumSymbol, ChecksumChar, Expanded;
    var x := Symbols(Xor(Fold(1, Expanded(Values(payload)) + EIGHT_ZEROS), 1));
    forall i | 0 <= i < 8
      ensures CreatedChecksum(payload)[i] in CHECKSUM_CHARSET && ChecksumSymbol(CreatedChecksum(payload)[i]) == x[i]
    {
      ChecksumCharReadsBack(x[i]);
    }
  }

  lemma XorOneSmall(x: bv64)
    requires x < STATE_LIMIT
    ensures Xor(x, 1) < STATE_LIMIT
  {
  }

  lemma XorSolves(x: bv64, d: bv64)
    ensures Xor(x, d) == 1 <==> d == Xor(x, 1)
  {
    hide Xor;
    XorIsDifference(x, x);
    XorAssociates(x, x, d);
    XorAssociates(x, x, 1);
    XorAssociates(1, 0, 0);
    XorAssociates(d, 0, 0);
  }

  /** For every payload in the charset exactly one checksum fits, and it is the created one. */
  lemma ChecksumUnique(payload: string, checksum: string)
    requires InCharset(payload) && |checksum| == 8 && ChecksumChars(checksum)
    ensures Fold(1, CodeWord(payload, checksum)) == 1 <==> checksum == CreatedChecksum(payload)
  {
    hide Fold, Xor, SymbolAt, ChecksumSymbol, ChecksumChar, Expanded, CreatedChecksum;
    var e := Expanded(Values(payload));
    var base := Fold(1, e + EIGHT_ZEROS);
    var d := ChecksumSymbols(checksum);
    AppendEight(e, d, EIGHT_ZEROS);
    FoldBounded(1, e + EIGHT_ZEROS);
    XorOneSmall(base);
    XorSolves(base, Fold(0, d));
    EightSymbolsAreAState(d, Xor(base, 1));
    CreatedReadsBack(payload);
    var c := CreatedChecksum(payload);
    if d == ChecksumSymbols(c) {
      forall i | 0 <= i < 8 ensures checksum[i] == c[i] {
        assert d[i] == ChecksumSymbols(c)[i];
        ChecksumSymbolInjective(checksum[i], c[i]);
      }
    }
  }

  /** The same, for whole descriptors: of all eight-character suffixes exactly one is accepted. */
  lemma VerifiedIffCreated(payload: string, checksum: string)
    requires payload != "" && InCharset(payload) && |checksum| == 8
    ensures Verified(payload + "#" + checksum).Ok? <==> checksum == CreatedChecksum(payload)
  {
    hide Fold, Xor, CodeWord, CreatedChecksum;
    var s := payload + "#" + checksum;
    assert s[..|s| - 9] == payload && s[|s| - 8..] == checksum && s[|s| - 9] == '#';
    CreatedReadsBack(payload);
    if ChecksumChars(checksum) {
      ChecksumUnique(payload, checksum);
    }
  }

  // --- Error detection -----------------------------------------------------

  lemma ValuesDiffer(p: string, q: string)
    requires |p| == |q| && InCharset(p) && InCharset(q) && Values(p) == Values(q)
    ensures p == q
  {
    hide ValueOf;
    forall i | 0 <= i < |p| ensures p[i] == q[i] {
      assert Values(p)[i] == Values(q)[i];
      ValueOfInjective(p[i], q[i]);
    }
  }

  lemma ValueOfInjective(c: char, d: char)
    requires c in INPUT_CHARSET && d in INPUT_CHARSET && ValueOf(c) == ValueOf(d)
    ensures c == d
  {
  }

  /** A change confined to four consecutive payload bytes always breaks the checksum. */
  lemma PayloadBurstDetected(p: string, q: string, checksum: string, k: nat)
    requires InCharset(p) && InCharset(q) && ChecksumChars(checksum) && |p| == |q| && p != q
    requires forall i :: 0 <= i < |p| && !(k <= i < k + 4) ==> p[i] == q[i]
    ensures Fold(1, CodeWord(p, checksum)) != Fold(1, CodeWord(q, checksum))
  {
    hide Fold, Expanded, ValueOf, ChecksumSymbol;
    var v, w, m := Values(p), Values(q), k / 3;
    assert forall i :: 0 <= i < |v| && !(3 * m <= i < 3 * m + 6) ==> v[i] == w[i];
    ExpandedBurst(v, w, m);
    if Expanded(v) == Expanded(w) {
      ExpandedInjective(v, w);
      ValuesDiffer(p, q);
    }
    var x, y := CodeWord(p, checksum), CodeWord(q, checksum);
    assert x[..|Expanded(v)|] == Expanded(v) && y[..|Expanded(v)|] == Expanded(w);
    BurstDetected(x, y, 4 * m);
  }

  /** A change confined to the checksum characters always breaks the checksum. */
  lemma SuffixChangeDetected(p: string, c: string, d: string)
    requires InCharset(p) && ChecksumChars(c) && ChecksumChars(d) && |c| == |d| == 8 && c != d
    ensures Fold(1, CodeWord(p, c)) != Fold(1, CodeWord(p, d))
  {
    hide Fold, Expanded, ChecksumSymbol;
    var x, y, n := CodeWord(p, c), CodeWord(p, d), |Expanded(Values(p))|;
    var i :| 0 <= i < 8 && c[i] != d[i];
    if ChecksumSymbol(c[i]) == ChecksumSymbol(d[i]) {
      ChecksumSymbolInjective(c[i], d[i]);
    }
    assert x[n + i] != y[n + i];
    BurstDetected(x, y, n);
  }

  /** Replacing any one byte of an accepted descriptor by any other is always rejected. */
  lemma SingleByteDetected(s: string, k: nat, c: char)
    requires Verified(s).Ok? && k < |s| && c != s[k]
    ensures Verified(s[k := c]).Err?
  {
    hide Fold, CodeWord;
    var t, n := s[k := c], |s| - 9;
    if Verified(t).Ok? {
      var p, q, a, b := s[..n], t[..n], s[n + 1..], t[n + 1..];
      assert s[n + 1..] == s[|s| - 8..] && t[n + 1..] == t[|t| - 8..];
      if k < n {
        assert p[k] != q[k] && a == b;
        PayloadBurstDetected(p, q, a, k);
      } else {
        assert p == q;
        assert k > n && a[k - n - 1] != b[k - n - 1];
        SuffixChangeDetected(p, a, b);
      }
    }
  }

  // --- The loops -----------------------------------------------------------

  function Lows(v: seq<Value>): (r: seq<Symbol>)
    ensures |r| == |v|
  {
    seq(|v|, i requires 0 <= i < |v| => Low(v[i]))
  }

  function Highs(v: seq<Value>): (r: seq<Trit>)
    ensures |r| == |v| && forall i :: 0 <= i < |v| ==> r[i] == High(v[i])
  {
    seq(|v|, i requires 0 <= i < |v| => High(v[i]))
  }

  /** Where `expand` stands after the values `v`: whole triples are out, the rest is pending. */
  ghost predicate Partial(v: seq<Value>, symbols: seq<Symbol>, groups: seq<Trit>) {
    && |groups| <= |v| && |groups| < 3
    && var done := |v| - |groups|;
    && done % 3 == 0
    && groups == Highs(v[done..])
    && symbols == Expanded(v[..done]) + Lows(v[done..])
  }

  lemma PartialStart()
    ensures Partial([], [], [])
  {
    var none: seq<Value> := [];
    assert Expanded(none) == [] && Lows(none) == [] && Highs(none) == [];
    assert none[..0] == none && none[0..] == none;
  }

  lemma PartialPush(v: seq<Value>, x: Value, symbols: seq<Symbol>, groups: seq<Trit>)
    requires Partial(v, symbols, groups) && |groups| < 2
    ensures Partial(v + [x], symbols + [Low(x)], groups + [High(x)])
  {
    hide ToSymbol, Low, High, Group2, Group3, Expanded;
    var done, w := |v| - |groups|, v + [x];
    assert w[..done] == v[..done] && w[done..] == v[done..] + [x];
    assert Lows(w[done..]) == Lows(v[done..]) + [Low(x)];
    assert Highs(w[done..]) == Highs(v[done..]) + [High(x)];
  }

  lemma PartialFlush(v: seq<Value>, x: Value, symbols: seq<Symbol>, groups: seq<Trit>)
    requires Partial(v, symbols, groups) && |groups| == 2
    ensures Partial(v + [x], symbols + [Low(x)] + [Group3(groups[0], groups[1], High(x))], [])
  {
    hide ToSymbol, Low, High, Group2, Group3, Expanded;
    var done, w := |v| - 2, v + [x];
    var last := w[done..];
    assert last == [v[done], v[done + 1], x] && w[..done] == v[..done] && w == w[..done] + last;
    ExpandedTriple(last);
    ExpandedConcat(w[..done], last);
    assert Lows(v[done..]) == [Low(v[done]), Low(v[done + 1])];
    assert w[..|w|] == w && w[|w|..] == [];
    assert Lows(w[|w|..]) == [] && Highs(w[|w|..]) == [];
    assert High(v[done]) == groups[0] && High(v[done + 1]) == groups[1];
  }

  lemma {:induction false} ExpandedTriple(v: seq<Value>)
    requires |v| == 3
    ensures Expanded(v) == [Low(v[0]), Low(v[1]), Low(v[2])]
                           + [Group3(High(v[0]), High(v[1]), High(v[2]))]
  {
    hide ToSymbol, Low, High, Group2, Group3;
    assert Expanded(v[3..]) == [];
  }

  lemma {:induction false} PartialEnd(v: seq<Value>, symbols: seq<Symbol>, groups: seq<Trit>)
    requires Partial(v, symbols, groups)
    ensures Expanded(v) == symbols + if groups == [] then []
                                     else if |groups| == 1 then [ToSymbol(groups[0])]
                                     else [Group2(groups[0], groups[1])]
  {
    hide Expanded, ToSymbol, Low, High;
    var done := |v| - |groups|;
    assert v == v[..done] + v[done..];
    ExpandedConcat(v[..done], v[done..]);
    ExpandedRest(v[done..]);
  }

  lemma {:induction false} ExpandedRest(v: seq<Value>)
    requires |v| < 3
    ensures Expanded(v) == Lows(v) + if v == [] then []
                                     else if |v| == 1 then [ToSymbol(High(v[0]))]
                                     else [Group2(High(v[0]), High(v[1]))]
  {
    hide ToSymbol, Low, High, Group2, Group3;
    if |v| == 1 {
      assert Lows(v) == [Low(v[0])];
    } else if |v| == 2 {
      assert Lows(v) == [Low(v[0]), Low(v[1])];
    }
  }

  /** One more character keeps the prefix in the charset, and adds its value, or it is refused. */
  lemma PrefixStep(s: string, i: nat)
    requires i < |s| && InCharset(s[..i])
    ensures Position(INPUT_CHARSET, s[i]).None? ==> !InCharset(s)
    ensures Position(INPUT_CHARSET, s[i]).Some? ==>
              InCharset(s[..i + 1]) && s[i] in INPUT_CHARSET && Values(s[..i + 1]) == Values(s[..i]) + [ValueOf(s[i])]
  {
    hide ValueOf, Position;
    assert s[..i + 1] == s[..i] + [s[i]];
  }

  /** One pass of the loop of `expand`: the low part is a symbol, the third high part closes a group. */
  method PushValue(ghost before: seq<Value>, v: Value, symbols: seq<Symbol>, groups: seq<Trit>)
    returns (symbols': seq<Symbol>, groups': seq<Trit>)
    requires |groups| < 3 && Partial(before, symbols, groups)
    ensures |groups'| < 3 && Partial(before + [v], symbols', groups')
  {
    hide ToSymbol, Low, High, Group2, Group3, Partial;
    if |groups| == 2 {
      PartialFlush(before, v, symbols, groups);
    } else {
      PartialPush(before, v, symbols, groups);
    }
    symbols' := symbols + [Low(v)];
    groups' := groups + [High(v)];
    if |groups'| == 3 {
      symbols' := symbols' + [Group3(groups'[0], groups'[1], groups'[2])];
      groups' := [];
    }
  }

  /** What `expand` does with one or two high parts left over. */
  method Flush(ghost values: seq<Value>, symbols: seq<Symbol>, groups: seq<Trit>) returns (r: seq<Symbol>)
    requires |groups| < 3 && Partial(values, symbols, groups)
    ensures r == Expanded(values)
  {
    hide ToSymbol, Low, High, Group2, Group3, Partial, Expanded;
    PartialEnd(values, symbols, groups);
    assert symbols + [] == symbols;
    r := symbols;
    if |groups| == 1 {
      r := r + [ToSymbol(groups[0])];
    } else if |groups| == 2 {
      r := r + [Group2(groups[0], groups[1])];
    }
  }

  /** `expand`: symbols pushed one by one, the high parts collected and flushed in threes. */
  method Expand(s: string) returns (r: Result<seq<Symbol>, ParseError>)
    ensures r == if InCharset(s) then Ok(Expanded(Values(s))) else Err(InvalidCharset)
  {
    var groups: seq<Trit> := [];
    var symbols: seq<Symbol> := [];
    PartialStart();
    assert InCharset(s[..0]) && Values(s[..0]) == [];
    hide ValueOf, Expanded, Partial, Values, InCharset, Position;
    for i := 0 to |s|
      invariant InCharset(s[..i])
      invariant |groups| < 3
      invariant Partial(Values(s[..i]), symbols, groups)
    {
      PrefixStep(s, i);
      if Position(INPUT_CHARSET, s[i]).None? {
        return Err(InvalidCharset);
      }
      symbols, groups := PushValue(Values(s[..i]), ValueOf(s[i]), symbols, groups);
    }
    assert s[..|s|] == s;
    symbols := Flush(Values(s), symbols, groups);
    return Ok(symbols);
  }

  method AllInChecksumCharset(checksum: string) returns (ok: bool)
    ensures ok == ChecksumChars(checksum)
  {
    for i := 0 to |checksum|
      invariant ChecksumChars(checksum[..i])
    {
      if checksum[i] !in CHECKSUM_CHARSET {
        return false;
      }
    }
    return true;
  }

  method PushChecksum(before: seq<Symbol>, checksum: string) returns (symbols: seq<Symbol>)
    requires ChecksumChars(checksum)
    ensures symbols == before + ChecksumSymbols(checksum)
  {
    hide ChecksumSymbol;
    symbols := before;
    for i := 0 to |checksum|
      invariant symbols == before + ChecksumSymbols(checksum[..i])
    {
      symbols := symbols + [ChecksumSymbol(checksum[i])];
    }
    assert checksum[..|checksum|] == checksum;
  }

  /** `verify_checksum`. */
  method VerifyChecksum(s: string) returns (r: Result<(), ParseError>)
    ensures r == Verified(s)
  {
    hide Fold, Expanded, ValueOf, ToSymbol;
    if |s| < 10 {
      return Err(MissingChecksum);
    }
    var hashPos := |s| - 9;
    if s[hashPos] != '#' {
      return Err(MissingChecksum);
    }
    var checksum := s[hashPos + 1..];
    var wellFormed := AllInChecksumCharset(checksum);
    if !wellFormed {
      return Err(MalformedChecksum);
    }
    var expanded := Expand(s[..hashPos]);
    if expanded.Err? {
      return Err(expanded.error);
    }
    var symbols := PushChecksum(expanded.value, checksum);
    var chk := Polymod(symbols);
    return if chk != 1 then Err(InvalidChecksum) else Ok(());
  }

  /** `create_checksum`. */
  method CreateChecksum(script: string) returns (r: Result<string, ParseError>)
    ensures r == if InCharset(script) then Ok(script + "#" + CreatedChecksum(script)) else Err(InvalidCharset)
  {
    hide Fold, Expanded, ValueOf, Xor, SymbolAt, ChecksumChar;
    var expanded := Expand(script);
    if expanded.Err? {
      return Err(expanded.error);
    }
    var chk := Polymod(expanded.value + EIGHT_ZEROS);
    var checksumVal := Xor(chk, 1);
    var out := script + "#";
    for i := 0 to 8
      invariant out == script + "#" + CreatedChecksum(script)[..i]
    {
      out := out + [ChecksumChar(SymbolAt(checksumVal, i))];
    }
    assert CreatedChecksum(script)[..8] == CreatedChecksum(script);
    return Ok(out);
  }
}
