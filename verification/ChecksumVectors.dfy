/** The published checksums of three short descriptors, one for each number of characters left over
    after the groups of three: the code is BIP-380's own ("Test Vectors" section), with its generator
    and its two alphabets. */
module ChecksumVectors {
  import opened Machine
  import opened PolymodCode
  import opened Checksum

  /** The value of a character is where it stands in the alphabet. */
  lemma {:induction false} PositionIs(charset: string, c: char, k: nat)
    requires k < |charset| && charset[k] == c && forall i :: 0 <= i < k ==> charset[i] != c
    ensures Position(charset, c) == Some(k)
  {
    hide Position;
  }

  lemma LowDistinct(i: nat, j: nat)
    requires i < j < 32
    ensures CHARSET_LOW[i] != CHARSET_LOW[j]
  {
  }

  predicate Stands(c: char, k: nat) {
    c in INPUT_CHARSET && ValueOf(c) == k
  }

  lemma LowStands(c: char, k: nat)
    requires k < 32 && CHARSET_LOW[k] == c
    ensures Stands(c, k)
  {
    hide Position;
    assert INPUT_CHARSET[k] == c;
    forall i | 0 <= i < k ensures INPUT_CHARSET[i] != c {
      assert INPUT_CHARSET[i] == CHARSET_LOW[i];
      LowDistinct(i, k);
    }
    PositionIs(INPUT_CHARSET, c, k);
  }

  lemma LowHas(i: nat)
    requires i < 32
    ensures i < 10 ==> CHARSET_LOW[i] as int == '0' as int + i
    ensures 18 <= i < 26 ==> CHARSET_LOW[i] as int == 'a' as int + i - 18
    ensures !(18 <= i < 26) ==> !('A' <= CHARSET_LOW[i] <= 'Z' || 'a' <= CHARSET_LOW[i] <= 'z')
  {
  }

  lemma MiddleHas(i: nat)
    requires i < 32
    ensures i < 18 ==> CHARSET_MIDDLE[i] as int == 'I' as int + i
    ensures i >= 18 ==> !('A' <= CHARSET_MIDDLE[i] <= 'Z' || 'a' <= CHARSET_MIDDLE[i] <= 'z')
  {
  }

  lemma HighHas(i: nat)
    requires i < 31
    ensures i < 18 ==> CHARSET_HIGH[i] as int == 'i' as int + i
    ensures 18 <= i < 26 ==> CHARSET_HIGH[i] as int == 'A' as int + i - 18
    ensures i >= 26 ==> !('A' <= CHARSET_HIGH[i] <= 'Z' || 'a' <= CHARSET_HIGH[i] <= 'z')
  {
  }

  function At(low: string, middle: string, high: string, i: nat): char
    requires |low| == |middle| == 32 && i < 64 + |high|
  {
    if i < 32 then low[i] else if i < 64 then middle[i - 32] else high[i - 64]
  }

  lemma {:induction false} PositionIn(low: string, middle: string, high: string, c: char, k: nat)
    requires |low| == |middle| == 32 && k < 64 + |high| && At(low, middle, high, k) == c
    requires forall i :: 0 <= i < k ==> At(low, middle, high, i) != c
    ensures Position(low + middle + high, c) == Some(k)
  {
    hide Position;
    var charset := low + middle + high;
    forall i | 0 <= i < |charset| ensures charset[i] == At(low, middle, high, i) {
    }
    PositionIs(charset, c, k);
  }

  function CharAt(i: nat): char
    requires i < 95
  {
    At(CHARSET_LOW, CHARSET_MIDDLE, CHARSET_HIGH, i)
  }

  lemma PositionAt(c: char, k: nat)
    requires k < 95 && CharAt(k) == c && forall i :: 0 <= i < k ==> CharAt(i) != c
    ensures Stands(c, k)
  {
    hide Position, At;
    forall i | 0 <= i < k ensures At(CHARSET_LOW, CHARSET_MIDDLE, CHARSET_HIGH, i) != c {
      assert CharAt(i) != c;
    }
    PositionIn(CHARSET_LOW, CHARSET_MIDDLE, CHARSET_HIGH, c, k);
  }

  lemma CharHas(i: nat)
    requires i < 95
    ensures i < 10 ==> CharAt(i) as int == '0' as int + i
    ensures 18 <= i < 26 ==> CharAt(i) as int == 'a' as int + i - 18
    ensures 32 <= i < 50 ==> CharAt(i) as int == 'I' as int + i - 32
    ensures 64 <= i < 82 ==> CharAt(i) as int == 'i' as int + i - 64
    ensures 82 <= i < 90 ==> CharAt(i) as int == 'A' as int + i - 82
    ensures !(18 <= i < 26 || 32 <= i < 50 || 64 <= i < 90) ==> !Letter(CharAt(i))
  {
    if i < 32 {
      LowHas(i);
    } else if i < 64 {
      MiddleHas(i - 32);
    } else {
      HighHas(i - 64);
    }
  }

  predicate Letter(c: char) {
    'A' <= c <= 'Z' || 'a' <= c <= 'z'
  }

  /** Where the letter of the alphabet stands. */
  function LetterAt(c: char): nat
    requires Letter(c)
  {
    if 'a' <= c <= 'h' then c as int - 'a' as int + 18
    else if 'i' <= c <= 'z' then c as int - 'i' as int + 64
    else if 'A' <= c <= 'H' then c as int - 'A' as int + 82
    else c as int - 'I' as int + 32
  }

  lemma LetterOnlyAt(c: char, i: nat)
    requires Letter(c) && i < 95
    ensures CharAt(i) == c <==> i == LetterAt(c)
  {
    hide CharAt;
    CharHas(i);
  }

  lemma LetterStands(c: char)
    requires Letter(c)
    ensures Stands(c, LetterAt(c))
  {
    hide CharAt, Stands;
    LetterOnlyAt(c, LetterAt(c));
    forall i | 0 <= i < LetterAt(c) ensures CharAt(i) != c {
      LetterOnlyAt(c, i);
    }
    PositionAt(c, LetterAt(c));
  }

  /** Writing a letter in the other case changes its group and not its five-bit symbol. */
  lemma CaseKeepsSymbol(c: char, d: char) returns (x: Value, y: Value)
    requires 'A' <= c <= 'Z' && d as int == c as int + 32
    ensures Stands(c, x) && Stands(d, y) && Low(x) == Low(y) && High(x) != High(y)
  {
    hide Stands, Low;
    LetterStands(c);
    LetterStands(d);
    x, y := LetterAt(c), LetterAt(d);
    SameRest(x, y);
  }

  lemma SameRest(x: Value, y: Value)
    requires x % 32 == y % 32
    ensures Low(x) == Low(y)
  {
  }

  lemma DigitStands(c: char)
    requires '0' <= c <= '9'
    ensures Stands(c, c as int - '0' as int)
  {
    hide Position, Stands;
    LowHas(c as int - '0' as int);
    LowStands(c, c as int - '0' as int);
  }

  /** The characters of the three payloads. */
  lemma LowValues()
    ensures Stands('a', 18) && Stands('b', 19) && Stands('d', 21) && Stands('e', 22) && Stands('f', 23)
    ensures Stands('(', 10) && Stands(')', 11)
  {
    hide Stands;
    LetterStands('a');
    LetterStands('b');
    LetterStands('d');
    LetterStands('e');
    LetterStands('f');
    LowStands('(', 10);
    LowStands(')', 11);
  }

  lemma HighValues()
    ensures Stands('r', 73) && Stands('w', 78)
  {
    hide Stands;
    LetterStands('r');
    LetterStands('w');
  }

  // --- Words ---------------------------------------------------------------

  predicate ChecksumStands(c: char, k: Symbol) {
    c in CHECKSUM_CHARSET && ChecksumSymbol(c) == k
  }

  lemma {:induction false} AtStands(k: nat)
    requires k < 32
    ensures ChecksumStands(CHECKSUM_CHARSET[k], ToSymbol(k))
  {
    hide Position;
    forall i | 0 <= i < k ensures CHECKSUM_CHARSET[i] != CHECKSUM_CHARSET[k] {
      CharsetDistinct(i, k);
    }
    PositionIs(CHECKSUM_CHARSET, CHECKSUM_CHARSET[k], k);
  }

  /** A word that folds to one is the payload and the checksum that belongs to it. */
  lemma WordVerifies(payload: string, checksum: string)
    requires payload != "" && InCharset(payload) && |checksum| == 8 && ChecksumChars(checksum)
    requires Fold(1, CodeWord(payload, checksum)) == 1
    ensures Verified(payload + "#" + checksum).Ok? && CreatedChecksum(payload) == checksum
  {
    hide Fold, CodeWord, InCharset, ChecksumChars, CreatedChecksum;
    var s := payload + "#" + checksum;
    assert s[..|s| - 9] == payload && s[|s| - 8..] == checksum && s[|s| - 9] == '#';
    VerifiedIffCreated(payload, checksum);
  }

  /** The states a word leads through. */
  predicate Traces(states: seq<bv64>, word: seq<Symbol>) {
    |states| == |word| + 1 && forall i :: 0 <= i < |word| ==> states[i + 1] == Step(states[i], word[i])
  }

  lemma {:induction false} FoldTraces(states: seq<bv64>, word: seq<Symbol>)
    requires Traces(states, word)
    ensures Fold(states[0], word) == states[|word|]
    decreases |word|
  {
    hide Step;
    if word != [] {
      forall i | 0 <= i < |word[1..]| ensures states[1..][i + 1] == Step(states[1..][i], word[1..][i]) {
        assert states[i + 1 + 1] == Step(states[i + 1], word[i + 1]);
      }
      FoldTraces(states[1..], word[1..]);
    }
  }

  lemma SharedSteps()
    ensures Step(0x1, 9) == 0x29
    ensures Step(0x29, 18) == 0x532
    ensures Step(0x532, 14) == 0xa64e
    ensures Step(0xa64e, 20) == 0x14_c9d4
    ensures Step(0x14_c9d4, 10) == 0x299_3a8a
  {
  }

  lemma SharedStepsThen()
    ensures Step(0x299_3a8a, 21) == 0x5327_5155
    ensures Step(0x5327_5155, 22) == 0xa_64ea_2ab6
    ensures Step(0xa_64ea_2ab6, 0) == 0xb9_43a0_4f49
    ensures Step(0xb9_43a0_4f49, 18) == 0xb_b154_4f79
    ensures Step(0xb_b154_4f79, 21) == 0x83_f46c_f6bc
  {
  }

  /** The ten symbols the three words begin with: two character groups and two characters. */
  function SharedWord(): seq<Symbol> {
    [9, 18, 14, 20, 10, 21, 22, 0, 18, 21]
  }

  function SharedStates(): seq<bv64> {
    [0x1, 0x29, 0x532, 0xa64e, 0x14_c9d4, 0x299_3a8a, 0x5327_5155, 0xa_64ea_2ab6, 0xb9_43a0_4f49, 0xb_b154_4f79,
     0x83_f46c_f6bc]
  }

  lemma SharedFolds()
    ensures Fold(0x1, SharedWord()) == 0x83_f46c_f6bc
  {
    hide Step, Fold;
    SharedSteps();
    SharedStepsThen();
    assert Traces(SharedStates(), SharedWord());
    FoldTraces(SharedStates(), SharedWord());
  }

  // --- Expansions ----------------------------------------------------------

  lemma {:induction false} Triple(a: Value, b: Value, c: Value, rest: seq<Value>)
    ensures Expanded([a, b, c] + rest) == [Low(a), Low(b), Low(c), Group3(High(a), High(b), High(c))] + Expanded(rest)
    ensures Expanded([]) == []
  {
    hide Low, High, Group2, Group3, ToSymbol;
    assert ([a, b, c] + rest)[3..] == rest;
  }

  lemma Rest2(a: Value, b: Value)
    ensures Expanded([a, b]) == [Low(a), Low(b), Group2(High(a), High(b))]
  {
    hide Low, High, Group2, Group3, ToSymbol;
  }

  lemma Rest1(a: Value)
    ensures Expanded([a]) == [Low(a), ToSymbol(High(a))]
  {
    hide Low, High, Group2, Group3, ToSymbol;
  }

  lemma Parts()
    ensures Low(73) == 9 && Low(78) == 14 && Low(18) == 18 && Low(19) == 19 && Low(21) == 21 && Low(22) == 22
    ensures Low(23) == 23 && Low(10) == 10 && Low(11) == 11
    ensures High(73) == 2 && High(78) == 2 && High(18) == High(19) == High(21) == High(22) == High(23) == 0
    ensures High(10) == High(11) == 0
    ensures Group3(2, 0, 2) == 20 && Group3(0, 0, 0) == 0 && Group2(0, 0) == 0 && ToSymbol(0) == 0
  {
    LowParts();
    LowerParts();
    Groups();
    hide Low, Group2, Group3, ToSymbol;
  }

  lemma LowParts()
    ensures Low(73) == 9 && Low(78) == 14 && Low(18) == 18 && Low(19) == 19
  {
  }

  lemma LowerParts()
    ensures Low(21) == 21 && Low(22) == 22 && Low(23) == 23 && Low(10) == 10 && Low(11) == 11
  {
  }

  lemma Groups()
    ensures Group3(2, 0, 2) == 20 && Group3(0, 0, 0) == 0 && Group2(0, 0) == 0 && ToSymbol(0) == 0
  {
  }

  lemma DeadSteps()
    ensures Step(0x83_f46c_f6bc, 11) == 0x1a_c0fc_b876
    ensures Step(0x1a_c0fc_b876, 0) == 0x4_3cb8_245b
    ensures Step(0x4_3cb8_245b, 18) == 0x87_9704_8b72
    ensures Step(0x87_9704_8b72, 30) == 0x96_adf3_01a3
    ensures Step(0x96_adf3_01a3, 1) == 0x18_0ec8_688e
    ensures Step(0x18_0ec8_688e, 26) == 0x5d_fa22_3b41
  {
  }

  lemma DeadStepsThen()
    ensures Step(0x5d_fa22_3b41, 6) == 0xd4_61d9_25c7
    ensures Step(0xd4_61d9_25c7, 26) == 0x76_8d3d_836f
    ensures Step(0x76_8d3d_836f, 6) == 0x54_f7db_daa3
    ensures Step(0x54_f7db_daa3, 9) == 0x1
  {
  }

  function DeadWord(): seq<Symbol> {
    [11, 0, 18, 30, 1, 26, 6, 26, 6, 9]
  }

  function DeadStates(): seq<bv64> {
    [0x83_f46c_f6bc, 0x1a_c0fc_b876, 0x4_3cb8_245b, 0x87_9704_8b72, 0x96_adf3_01a3, 0x18_0ec8_688e, 0x5d_fa22_3b41,
     0xd4_61d9_25c7, 0x76_8d3d_836f, 0x54_f7db_daa3, 0x1]
  }

  lemma DeadFolds()
    ensures Fold(0x83_f46c_f6bc, DeadWord()) == 0x1
  {
    hide Step, Fold;
    DeadSteps();
    DeadStepsThen();
    assert Traces(DeadStates(), DeadWord());
    FoldTraces(DeadStates(), DeadWord());
  }

  lemma DeadExpands()
    ensures Expanded([73, 18, 78, 10, 21, 22, 18, 21, 11]) + [18, 30, 1, 26, 6, 26, 6, 9] == SharedWord() + DeadWord()
  {
    Parts();
    hide Low, High, Group2, Group3, ToSymbol, Expanded;
    Triple(18, 21, 11, []);
    assert [18, 21, 11] + [] == [18, 21, 11];
    Triple(10, 21, 22, [18, 21, 11]);
    assert [10, 21, 22] + [18, 21, 11] == [10, 21, 22, 18, 21, 11];
    Triple(73, 18, 78, [10, 21, 22, 18, 21, 11]);
    assert [73, 18, 78] + [10, 21, 22, 18, 21, 11] == [73, 18, 78, 10, 21, 22, 18, 21, 11];
  }

  lemma DeadbeefSteps()
    ensures Step(0x83_f46c_f6bc, 19) == 0x1a_c0fc_b86e
    ensures Step(0x1a_c0fc_b86e, 0) == 0x4_3cb8_275b
    ensures Step(0x4_3cb8_275b, 22) == 0x87_9704_eb76
    ensures Step(0x87_9704_eb76, 22) == 0x96_adff_012b
    ensures Step(0x96_adff_012b, 23) == 0x18_0f48_7998
    ensures Step(0x18_0f48_7998, 0) == 0x5d_ca20_199b
  {
  }

  lemma DeadbeefStepsThen()
    ensures Step(0x5d_ca20_199b, 11) == 0xd2_619d_7e8a
    ensures Step(0xd2_619d_7e8a, 0) == 0xb6_85b6_ead5
    ensures Step(0xb6_85b6_ead5, 7) == 0x6_ad65_e565
    ensures Step(0x6_ad65_e565, 5) == 0xd5_acbc_aca5
    ensures Step(0xd5_acbc_aca5, 9) == 0x4f_218c_af3c
    ensures Step(0x4f_218c_af3c, 7) == 0x26_e9c1_9974
  {
  }

  lemma DeadbeefStepsLast()
    ensures Step(0x26_e9c1_9974, 16) == 0xc6_9323_cdbd
    ensures Step(0xc6_9323_cdbd, 1) == 0x81_2faa_bf26
    ensures Step(0x81_2faa_bf26, 6) == 0x41_b835_8b3b
    ensures Step(0x41_b835_8b3b, 27) == 0x1
  {
  }

  function DeadbeefWord(): seq<Symbol> {
    [19, 0, 22, 22, 23, 0, 11, 0, 7, 5, 9, 7, 16, 1, 6, 27]
  }

  function DeadbeefStates(): seq<bv64> {
    [0x83_f46c_f6bc, 0x1a_c0fc_b86e, 0x4_3cb8_275b, 0x87_9704_eb76, 0x96_adff_012b, 0x18_0f48_7998, 0x5d_ca20_199b,
     0xd2_619d_7e8a, 0xb6_85b6_ead5, 0x6_ad65_e565, 0xd5_acbc_aca5, 0x4f_218c_af3c, 0x26_e9c1_9974, 0xc6_9323_cdbd,
     0x81_2faa_bf26, 0x41_b835_8b3b, 0x1]
  }

  lemma DeadbeefFolds()
    ensures Fold(0x83_f46c_f6bc, DeadbeefWord()) == 0x1
  {
    hide Step, Fold;
    DeadbeefSteps();
    DeadbeefStepsThen();
    DeadbeefStepsLast();
    assert Traces(DeadbeefStates(), DeadbeefWord());
    FoldTraces(DeadbeefStates(), DeadbeefWord());
  }

  lemma DeadbeefExpands()
    ensures Expanded([73, 18, 78, 10, 21, 22, 18, 21, 19, 22, 22, 23, 11]) + [7, 5, 9, 7, 16, 1, 6, 27]
        == SharedWord() + DeadbeefWord()
  {
    Parts();
    hide Low, High, Group2, Group3, ToSymbol, Expanded;
    Rest1(11);
    Triple(22, 22, 23, [11]);
    assert [22, 22, 23] + [11] == [22, 22, 23, 11];
    Triple(18, 21, 19, [22, 22, 23, 11]);
    assert [18, 21, 19] + [22, 22, 23, 11] == [18, 21, 19, 22, 22, 23, 11];
    Triple(10, 21, 22, [18, 21, 19, 22, 22, 23, 11]);
    assert [10, 21, 22] + [18, 21, 19, 22, 22, 23, 11] == [10, 21, 22, 18, 21, 19, 22, 22, 23, 11];
    Triple(73, 18, 78, [10, 21, 22, 18, 21, 19, 22, 22, 23, 11]);
    assert [73, 18, 78] + [10, 21, 22, 18, 21, 19, 22, 22, 23, 11]
        == [73, 18, 78, 10, 21, 22, 18, 21, 19, 22, 22, 23, 11];
  }

  lemma DeadbeSteps()
    ensures Step(0x83_f46c_f6bc, 19) == 0x1a_c0fc_b86e
    ensures Step(0x1a_c0fc_b86e, 0) == 0x4_3cb8_275b
    ensures Step(0x4_3cb8_275b, 22) == 0x87_9704_eb76
    ensures Step(0x87_9704_eb76, 11) == 0x96_adff_0136
    ensures Step(0x96_adff_0136, 0) == 0x18_0f48_7a2f
    ensures Step(0x18_0f48_7a2f, 12) == 0x5d_ca20_6f77
  {
  }

  lemma DeadbeStepsThen()
    ensures Step(0x5d_ca20_6f77, 14) == 0xd2_6193_a30f
    ensures Step(0xd2_6193_a30f, 11) == 0xb6_846d_5a7e
    ensures Step(0xb6_846d_5a7e, 24) == 0x6_9613_f01a
    ensures Step(0x6_9613_f01a, 30) == 0xd2_c27e_035e
    ensures Step(0xd2_c27e_035e, 11) == 0xa2_f9d9_505e
    ensures Step(0xa2_f9d9_505e, 9) == 0x20_dd58_8719
  {
  }

  lemma DeadbeStepsLast()
    ensures Step(0x20_dd58_8719, 12) == 0x1
  {
  }

  function DeadbeWord(): seq<Symbol> {
    [19, 0, 22, 11, 0, 12, 14, 11, 24, 30, 11, 9, 12]
  }

  function DeadbeStates(): seq<bv64> {
    [0x83_f46c_f6bc, 0x1a_c0fc_b86e, 0x4_3cb8_275b, 0x87_9704_eb76, 0x96_adff_0136, 0x18_0f48_7a2f, 0x5d_ca20_6f77,
     0xd2_6193_a30f, 0xb6_846d_5a7e, 0x6_9613_f01a, 0xd2_c27e_035e, 0xa2_f9d9_505e, 0x20_dd58_8719, 0x1]
  }

  lemma DeadbeFolds()
    ensures Fold(0x83_f46c_f6bc, DeadbeWord()) == 0x1
  {
    hide Step, Fold;
    DeadbeSteps();
    DeadbeStepsThen();
    DeadbeStepsLast();
    assert Traces(DeadbeStates(), DeadbeWord());
    FoldTraces(DeadbeStates(), DeadbeWord());
  }

  lemma DeadbeExpands()
    ensures Expanded([73, 18, 78, 10, 21, 22, 18, 21, 19, 22, 11]) + [12, 14, 11, 24, 30, 11, 9, 12]
        == SharedWord() + DeadbeWord()
  {
    Parts();
    hide Low, High, Group2, Group3, ToSymbol, Expanded;
    Rest2(22, 11);
    Triple(18, 21, 19, [22, 11]);
    assert [18, 21, 19] + [22, 11] == [18, 21, 19, 22, 11];
    Triple(10, 21, 22, [18, 21, 19, 22, 11]);
    assert [10, 21, 22] + [18, 21, 19, 22, 11] == [10, 21, 22, 18, 21, 19, 22, 11];
    Triple(73, 18, 78, [10, 21, 22, 18, 21, 19, 22, 11]);
    assert [73, 18, 78] + [10, 21, 22, 18, 21, 19, 22, 11] == [73, 18, 78, 10, 21, 22, 18, 21, 19, 22, 11];
  }

  // --- The vectors ---------------------------------------------------------

  /** The checksum is accepted behind the payload, and the one that is created for it. */
  predicate Belongs(payload: string, checksum: string) {
    InCharset(payload) && Verified(payload + "#" + checksum).Ok? && CreatedChecksum(payload) == checksum
  }

  lemma ValuesAre(payload: string, values: seq<Value>)
    requires |payload| == |values| && forall i :: 0 <= i < |payload| ==> Stands(payload[i], values[i])
    ensures InCharset(payload) && Values(payload) == values
  {
  }

  lemma ChecksumIs(checksum: string, symbols: seq<Symbol>)
    requires |checksum| == |symbols| && forall i :: 0 <= i < |checksum| ==> ChecksumStands(checksum[i], symbols[i])
    ensures ChecksumChars(checksum) && ChecksumSymbols(checksum) == symbols
  {
  }

  lemma {:induction false} FoldsThrough(payload: string, checksum: string, values: seq<Value>, symbols: seq<Symbol>,
      word: seq<Symbol>)
    requires payload != "" && |checksum| == 8
    requires |payload| == |values| && forall i :: 0 <= i < |payload| ==> Stands(payload[i], values[i])
    requires |checksum| == |symbols| && forall i :: 0 <= i < |checksum| ==> ChecksumStands(checksum[i], symbols[i])
    requires Expanded(values) + symbols == word && Fold(1, word) == 1
    ensures Belongs(payload, checksum)
  {
    hide Fold, Expanded, Stands, ChecksumStands;
    ValuesAre(payload, values);
    ChecksumIs(checksum, symbols);
    hide Verified, CreatedChecksum, InCharset, ChecksumChars, ChecksumSymbols, Values;
    WordVerifies(payload, checksum);
  }

  lemma DeadLetters()
    ensures forall i :: 0 <= i < 9 ==> Stands("raw(dead)"[i], [73, 18, 78, 10, 21, 22, 18, 21, 11][i])
  {
    hide Stands;
    LowValues();
    HighValues();
  }

  lemma DeadChecksum()
    ensures forall i :: 0 <= i < 8 ==> ChecksumStands("j7p6x6xf"[i], [18, 30, 1, 26, 6, 26, 6, 9][i])
  {
    hide ChecksumStands;
    AtStands(1);
    AtStands(6);
    AtStands(9);
    AtStands(18);
    AtStands(26);
    AtStands(30);
    assert CHECKSUM_CHARSET[1] == 'p' && ToSymbol(1) == 1;
    assert CHECKSUM_CHARSET[6] == 'x' && ToSymbol(6) == 6;
    assert CHECKSUM_CHARSET[9] == 'f' && ToSymbol(9) == 9;
    assert CHECKSUM_CHARSET[18] == 'j' && ToSymbol(18) == 18;
    assert CHECKSUM_CHARSET[26] == '6' && ToSymbol(26) == 26;
    assert CHECKSUM_CHARSET[30] == '7' && ToSymbol(30) == 30;
  }

  /** The descriptor `raw(dead)` and its published checksum. */
  lemma DeadVector()
    ensures Belongs("raw(dead)", "j7p6x6xf")
  {
    hide Fold, Expanded, Stands, ChecksumStands, SharedWord, DeadWord, Belongs;
    DeadLetters();
    DeadChecksum();
    DeadExpands();
    SharedFolds();
    DeadFolds();
    FoldConcat(1, SharedWord(), DeadWord());
    FoldsThrough("raw(dead)", "j7p6x6xf", [73, 18, 78, 10, 21, 22, 18, 21, 11], [18, 30, 1, 26, 6, 26, 6, 9],
        SharedWord() + DeadWord());
  }

  lemma DeadbeefLetters()
    ensures forall i :: 0 <= i < 13 ==> Stands("raw(deadbeef)"[i], [73, 18, 78, 10, 21, 22, 18, 21, 19, 22, 22, 23,
        11][i])
  {
    hide Stands;
    LowValues();
    HighValues();
  }

  lemma DeadbeefChecksum()
    ensures forall i :: 0 <= i < 8 ==> ChecksumStands("89f8spxm"[i], [7, 5, 9, 7, 16, 1, 6, 27][i])
  {
    hide ChecksumStands;
    AtStands(1);
    AtStands(5);
    AtStands(6);
    AtStands(7);
    AtStands(9);
    AtStands(16);
    AtStands(27);
    assert CHECKSUM_CHARSET[1] == 'p' && ToSymbol(1) == 1;
    assert CHECKSUM_CHARSET[5] == '9' && ToSymbol(5) == 5;
    assert CHECKSUM_CHARSET[6] == 'x' && ToSymbol(6) == 6;
    assert CHECKSUM_CHARSET[7] == '8' && ToSymbol(7) == 7;
    assert CHECKSUM_CHARSET[9] == 'f' && ToSymbol(9) == 9;
    assert CHECKSUM_CHARSET[16] == 's' && ToSymbol(16) == 16;
    assert CHECKSUM_CHARSET[27] == 'm' && ToSymbol(27) == 27;
  }

  /** The descriptor `raw(deadbeef)` and its published checksum. */
  lemma DeadbeefVector()
    ensures Belongs("raw(deadbeef)", "89f8spxm")
  {
    hide Fold, Expanded, Stands, ChecksumStands, SharedWord, DeadbeefWord, Belongs;
    DeadbeefLetters();
    DeadbeefChecksum();
    DeadbeefExpands();
    SharedFolds();
    DeadbeefFolds();
    FoldConcat(1, SharedWord(), DeadbeefWord());
    FoldsThrough("raw(deadbeef)", "89f8spxm", [73, 18, 78, 10, 21, 22, 18, 21, 19, 22, 22, 23, 11], [7, 5, 9, 7, 16,
        1, 6, 27], SharedWord() + DeadbeefWord());
  }

  lemma DeadbeLetters()
    ensures forall i :: 0 <= i < 11 ==> Stands("raw(deadbe)"[i], [73, 18, 78, 10, 21, 22, 18, 21, 19, 22, 11][i])
  {
    hide Stands;
    LowValues();
    HighValues();
  }

  lemma DeadbeChecksum()
    ensures forall i :: 0 <= i < 8 ==> ChecksumStands("vwtc7tfv"[i], [12, 14, 11, 24, 30, 11, 9, 12][i])
  {
    hide ChecksumStands;
    AtStands(9);
    AtStands(11);
    AtStands(12);
    AtStands(14);
    AtStands(24);
    AtStands(30);
    assert CHECKSUM_CHARSET[9] == 'f' && ToSymbol(9) == 9;
    assert CHECKSUM_CHARSET[11] == 't' && ToSymbol(11) == 11;
    assert CHECKSUM_CHARSET[12] == 'v' && ToSymbol(12) == 12;
    assert CHECKSUM_CHARSET[14] == 'w' && ToSymbol(14) == 14;
    assert CHECKSUM_CHARSET[24] == 'c' && ToSymbol(24) == 24;
    assert CHECKSUM_CHARSET[30] == '7' && ToSymbol(30) == 30;
  }

  /** The descriptor `raw(deadbe)` and its published checksum. */
  lemma DeadbeVector()
    ensures Belongs("raw(deadbe)", "vwtc7tfv")
  {
    hide Fold, Expanded, Stands, ChecksumStands, SharedWord, DeadbeWord, Belongs;
    DeadbeLetters();
    DeadbeChecksum();
    DeadbeExpands();
    SharedFolds();
    DeadbeFolds();
    FoldConcat(1, SharedWord(), DeadbeWord());
    FoldsThrough("raw(deadbe)", "vwtc7tfv", [73, 18, 78, 10, 21, 22, 18, 21, 19, 22, 11], [12, 14, 11, 24, 30, 11, 9,
        12], SharedWord() + DeadbeWord());
  }
}
