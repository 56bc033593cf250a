/** Additional entropy sources, their canonical bytes, and the playing-card notation.
    Byte strings are written as strings, one character per byte. */
module Entropy {
  import opened Machine

  const SLOT_SEPARATOR: char := '\U{001E}'

  datatype Rank = Ace | Two | Three | Four | Five | Six | Seven | Eight | Nine | Ten | Jack | Queen | King
  datatype Suit = Spades | Hearts | Diamonds | Clubs
  datatype Card = Card(rank: Rank, suit: Suit)

  datatype EntropyError =
    | EmptyDice
    | InvalidDice(index: nat, byte: char)
    | EmptyCoins
    | InvalidCoin(index: nat, byte: char)
    | EmptyCards
    | UnexpectedByte(index: nat, byte: char)
    | Incomplete
    | Duplicate(card: string)

  // --- Cards ---------------------------------------------------------------

  function RankText(r: Rank): (s: string)
    ensures 1 <= |s| <= 2
  {
    match r
    case Ace => "A" case Two => "2" case Three => "3" case Four => "4" case Five => "5"
    case Six => "6" case Seven => "7" case Eight => "8" case Nine => "9" case Ten => "10"
    case Jack => "J" case Queen => "Q" case King => "K"
  }

  function SuitChar(s: Suit): char {
    match s case Spades => 'S' case Hearts => 'H' case Diamonds => 'D' case Clubs => 'C'
  }

  /** `Rank::from_start`: the rank written at `i`, with the number of bytes it takes. */
  function RankAt(s: string, i: nat): Option<(Rank, nat)>
    requires i < |s|
  {
    if s[i] == '1' && i + 1 < |s| && s[i + 1] == '0' then Some((Ten, 2))
    else match s[i]
         case 'A' => Some((Ace, 1)) case '2' => Some((Two, 1)) case '3' => Some((Three, 1))
         case '4' => Some((Four, 1)) case '5' => Some((Five, 1)) case '6' => Some((Six, 1))
         case '7' => Some((Seven, 1)) case '8' => Some((Eight, 1)) case '9' => Some((Nine, 1))
         case 'J' => Some((Jack, 1)) case 'Q' => Some((Queen, 1)) case 'K' => Some((King, 1))
         case _ => None
  }

  function SuitOf(c: char): Option<Suit> {
    match c
    case 'S' => Some(Spades) case 'H' => Some(Hearts) case 'D' => Some(Diamonds) case 'C' => Some(Clubs)
    case _ => None
  }

  function CardText(c: Card): (s: string)
    ensures 2 <= |s| <= 3
  {
    RankText(c.rank) + [SuitChar(c.suit)]
  }

  function CardsText(cards: seq<Card>): string {
    if cards == [] then "" else CardText(cards[0]) + CardsText(cards[1..])
  }

  /** What the bytes from `i` on say, given the cards already dealt. */
  function ReadCards(s: string, i: nat, seen: set<Card>): Result<seq<Card>, EntropyError>
    requires i <= |s|
    decreases |s| - i
  {
    if i == |s| then Ok([])
    else match RankAt(s, i)
         case None => Err(UnexpectedByte(i, s[i]))
         case Some((rank, n)) =>
           var j := i + n;
           if j >= |s| then Err(Incomplete)
           else match SuitOf(s[j])
                case None => Err(UnexpectedByte(j, s[j]))
                case Some(suit) =>
                  var card := Card(rank, suit);
                  if card in seen then Err(Duplicate(CardText(card)))
                  else match ReadCards(s, j + 1, seen + {card})
                       case Err(e) => Err(e)
                       case Ok(rest) => Ok([card] + rest)
  }

  function ParsedCards(s: string): Result<seq<Card>, EntropyError> {
    if s == "" then Err(EmptyCards) else ReadCards(s, 0, {})
  }

  predicate Distinct(cards: seq<Card>) {
    forall i, j :: 0 <= i < j < |cards| ==> cards[i] != cards[j]
  }

  lemma CardReadsBack(c: Card, s: string, i: nat)
    requires i + |CardText(c)| <= |s| && s[i..i + |CardText(c)|] == CardText(c)
    ensures RankAt(s, i) == Some((c.rank, |CardText(c)| - 1))
    ensures SuitOf(s[i + |CardText(c)| - 1]) == Some(c.suit)
  {
    var t := CardText(c);
    assert forall k :: 0 <= k < |t| ==> s[i + k] == s[i..i + |t|][k] == t[k];
    assert s[i] == t[0] && s[i + 1] == t[1];
    assert t[|t| - 1] == SuitChar(c.suit);
  }

  /** Printing a hand and reading it back gives the hand. */
  lemma {:induction false} ReadAfterPrint(s: string, i: nat, cards: seq<Card>, seen: set<Card>)
    requires i <= |s| && s[i..] == CardsText(cards) && Distinct(cards)
    requires forall k :: 0 <= k < |cards| ==> cards[k] !in seen
    ensures ReadCards(s, i, seen) == Ok(cards)
    decreases |cards|
  {
    hide RankText, RankAt;
    if cards != [] {
      var c := cards[0];
      var t := CardText(c);
      var j := i + |t|;
      assert s[i..][..|t|] == t && s[i..][|t|..] == CardsText(cards[1..]);
      assert s[i..j] == t && s[j..] == CardsText(cards[1..]);
      CardReadsBack(c, s, i);
      ReadAfterPrint(s, j, cards[1..], seen + {c});
      assert cards == [c] + cards[1..];
    }
  }

  lemma RankPrintsBack(s: string, i: nat)
    requires i < |s| && RankAt(s, i).Some?
    ensures var (rank, n) := RankAt(s, i).value;
            i + n <= |s| && s[i..i + n] == RankText(rank)
  {
  }

  /** Whatever is accepted is exactly the printing of what was read: no repeated card. */
  lemma {:induction false} PrintAfterRead(s: string, i: nat, seen: set<Card>)
    requires i <= |s| && ReadCards(s, i, seen).Ok?
    ensures var cards := ReadCards(s, i, seen).value;
            && CardsText(cards) == s[i..]
            && Distinct(cards)
            && (forall k :: 0 <= k < |cards| ==> cards[k] !in seen)
            && (i < |s| ==> cards != [])
    decreases |s| - i
  {
    hide RankText, RankAt;
    if i < |s| {
      RankPrintsBack(s, i);
      var (rank, n) := RankAt(s, i).value;
      var j := i + n;
      var card := Card(rank, SuitOf(s[j]).value);
      assert SuitChar(card.suit) == s[j];
      hide SuitOf, SuitChar;
      PrintAfterRead(s, j + 1, seen + {card});
      var rest := ReadCards(s, j + 1, seen + {card}).value;
      var cards := ReadCards(s, i, seen).value;
      assert cards == [card] + rest && cards[1..] == rest;
      assert s[i..] == s[i..j] + [s[j]] + s[j + 1..];
    }
  }

  /** Card parsing and printing are mutually inverse on non-empty hands without repetition,
      and nothing else is accepted. */
  lemma {:induction false} CardsRoundTrip(s: string, cards: seq<Card>)
    ensures cards != [] && Distinct(cards) && s == CardsText(cards) <==> ParsedCards(s) == Ok(cards)
  {
    if cards != [] && Distinct(cards) && s == CardsText(cards) {
      assert s[0..] == s;
      ReadAfterPrint(s, 0, cards, {});
    }
    if ParsedCards(s) == Ok(cards) {
      PrintAfterRead(s, 0, {});
      assert s[0..] == s;
    }
  }

  // --- The loops over cards ------------------------------------------------

  function RankIndex(r: Rank): bv6 {
    match r
    case Ace => 0 case Two => 1 case Three => 2 case Four => 3 case Five => 4 case Six => 5 case Seven => 6
    case Eight => 7 case Nine => 8 case Ten => 9 case Jack => 10 case Queen => 11 case King => 12
  }

  function SuitIndex(s: Suit): bv6 {
    match s case Spades => 0 case Hearts => 1 case Diamonds => 2 case Clubs => 3
  }

  function DeckIndex(c: Card): bv6 {
    RankIndex(c.rank) * 4 + SuitIndex(c.suit)
  }

  lemma DeckIndexInjective(a: Card, b: Card)
    requires DeckIndex(a) == DeckIndex(b)
    ensures a == b
  {
    var x, y, u, v := RankIndex(a.rank), RankIndex(b.rank), SuitIndex(a.suit), SuitIndex(b.suit);
    assert x < 13 && y < 13 && u < 4 && v < 4;
    IndexSplits(x, u, y, v);
  }

  lemma IndexSplits(x: bv6, u: bv6, y: bv6, v: bv6)
    requires x < 13 && y < 13 && u < 4 && v < 4 && x * 4 + u == y * 4 + v
    ensures x == y && u == v
  {
  }

  function BitAt(k: bv6): bv64 {
    (1 as bv64) << k
  }

  predicate Meets(x: bv64, y: bv64) {
    x & y != 0
  }

  lemma BitsDistinct(a: bv6, b: bv6)
    ensures Meets(BitAt(a), BitAt(b)) <==> a == b
  {
  }

  lemma OrMisses(after: bv64, mask: bv64, x: bv64, y: bv64)
    requires after == mask | x && mask & y == 0 && x & y == 0
    ensures after & y == 0
  {
  }

  lemma PartsMiss(after: bv64, mask: bv64, x: bv64, y: bv64)
    requires after == mask | x && after & y == 0
    ensures mask & y == 0 && x & y == 0
  {
  }

  lemma OrMeets(after: bv64, mask: bv64, x: bv64, y: bv64)
    requires after == mask | x
    ensures Meets(after, y) <==> Meets(mask, y) || Meets(x, y)
  {
    if !Meets(after, y) {
      PartsMiss(after, mask, x, y);
    } else if !Meets(mask, y) && !Meets(x, y) {
      OrMisses(after, mask, x, y);
    }
  }

  predicate Has(mask: bv64, c: Card) {
    Meets(mask, BitAt(DeckIndex(c)))
  }

  function Adding(mask: bv64, c: Card): bv64 {
    mask | BitAt(DeckIndex(c))
  }

  lemma HasAfterAdding(mask: bv64, a: Card, b: Card)
    ensures Has(Adding(mask, a), b) <==> a == b || Has(mask, b)
  {
    hide DeckIndex, BitAt, Meets;
    BitsDistinct(DeckIndex(a), DeckIndex(b));
    OrMeets(Adding(mask, a), mask, BitAt(DeckIndex(a)), BitAt(DeckIndex(b)));
    if DeckIndex(a) == DeckIndex(b) {
      DeckIndexInjective(a, b);
    }
  }

  lemma HasNone(b: Card)
    ensures !Has(0, b)
  {
    hide DeckIndex, BitAt;
  }

  /** The 64-bit mask holds exactly the cards of the set. */
  ghost predicate Holds(mask: bv64, seen: set<Card>) {
    forall c: Card :: Has(mask, c) <==> c in seen
  }

  lemma HoldsNone()
    ensures Holds(0, {})
  {
    hide Has;
    forall c: Card ensures !Has(0, c) {
      HasNone(c);
    }
  }

  lemma HoldsAdded(mask: bv64, seen: set<Card>, card: Card)
    requires Holds(mask, seen)
    ensures Holds(Adding(mask, card), seen + {card})
  {
    hide Has, Adding;
    forall c: Card ensures Has(Adding(mask, card), c) <==> c in seen + {card} {
      HasAfterAdding(mask, card, c);
    }
  }

  function Prepend(cards: seq<Card>, rest: Result<seq<Card>, EntropyError>): Result<seq<Card>, EntropyError> {
    match rest
    case Err(e) => Err(e)
    case Ok(tail) => Ok(cards + tail)
  }

  /** The card written at `i`, if a whole unseen one is there, and where it ends. */
  function CardAt(s: string, i: nat, seen: set<Card>): Result<(Card, nat), EntropyError>
    requires i < |s|
  {
    match RankAt(s, i)
    case None => Err(UnexpectedByte(i, s[i]))
    case Some((rank, n)) =>
      var j := i + n;
      if j >= |s| then Err(Incomplete)
      else match SuitOf(s[j])
           case None => Err(UnexpectedByte(j, s[j]))
           case Some(suit) =>
             if Card(rank, suit) in seen then Err(Duplicate(CardText(Card(rank, suit))))
             else Ok((Card(rank, suit), j + 1))
  }

  lemma {:induction false} ReadCardsStep(s: string, i: nat, seen: set<Card>, cards: seq<Card>)
    requires i < |s|
    ensures match CardAt(s, i, seen)
            case Err(e) => Prepend(cards, ReadCards(s, i, seen)) == Err(e)
            case Ok((card, next)) =>
              i < next <= |s|
              && Prepend(cards, ReadCards(s, i, seen)) == Prepend(cards + [card], ReadCards(s, next, seen + {card}))
  {
    match CardAt(s, i, seen)
    case Err(_) =>
    case Ok((card, next)) =>
      var rest := ReadCards(s, next, seen + {card});
      if rest.Ok? {
        assert cards + ([card] + rest.value) == (cards + [card]) + rest.value;
      }
  }

  /** One turn of the loop of `parse_cards`, with the seen cards in a bit mask. */
  method ParseCard(s: string, i: nat, mask: bv64, ghost seen: set<Card>) returns (r: Result<(Card, nat), EntropyError>)
    requires i < |s| && Holds(mask, seen)
    ensures r == CardAt(s, i, seen)
  {
    hide Has;
    var at := RankAt(s, i);
    if at.None? {
      return Err(UnexpectedByte(i, s[i]));
    }
    var (rank, n) := at.value;
    var j := i + n;
    if j >= |s| {
      return Err(Incomplete);
    }
    var suit := SuitOf(s[j]);
    if suit.None? {
      return Err(UnexpectedByte(j, s[j]));
    }
    var card := Card(rank, suit.value);
    if Has(mask, card) {
      return Err(Duplicate(CardText(card)));
    }
    return Ok((card, j + 1));
  }

  /** `parse_cards`. */
  method ParseCards(s: string) returns (r: Result<seq<Card>, EntropyError>)
    ensures r == ParsedCards(s)
  {
    hide ReadCards, CardAt, Adding, Holds;
    if s == "" {
      return Err(EmptyCards);
    }
    var cards := [];
    var mask: bv64 := 0;
    ghost var seen: set<Card> := {};
    var i := 0;
    HoldsNone();
    PrependNothing(s);
    while i < |s|
      invariant i <= |s| && Holds(mask, seen)
      invariant ReadCards(s, 0, {}) == Prepend(cards, ReadCards(s, i, seen))
    {
      ReadCardsStep(s, i, seen, cards);
      var step := ParseCard(s, i, mask, seen);
      if step.Err? {
        return Err(step.error);
      }
      var (card, next) := step.value;
      HoldsAdded(mask, seen, card);
      mask, cards, i := Adding(mask, card), cards + [card], next;
      seen := seen + {card};
    }
    ReadCardsEnd(s, seen, cards);
    return Ok(cards);
  }

  lemma {:induction false} PrependNothing(s: string)
    ensures ReadCards(s, 0, {}) == Prepend([], ReadCards(s, 0, {}))
  {
    var r := ReadCards(s, 0, {});
    assert r.Ok? ==> [] + r.value == r.value;
  }

  lemma {:induction false} ReadCardsEnd(s: string, seen: set<Card>, cards: seq<Card>)
    ensures Prepend(cards, ReadCards(s, |s|, seen)) == Ok(cards)
  {
    assert cards + [] == cards;
  }

  /** `encode_cards`. */
  method EncodeCards(cards: seq<Card>) returns (s: string)
    ensures s == CardsText(cards)
  {
    hide CardText;
    s := "";
    for i := 0 to |cards|
      invariant CardsText(cards) == s + CardsText(cards[i..])
    {
      assert cards[i..][1..] == cards[i + 1..];
      s := s + CardText(cards[i]);
    }
  }

  // --- Canonical bytes -----------------------------------------------------

  datatype Slots = Slots(dice: string, coins: string, cards: string, sensor: string)

  function SlotAt(x: Slots, i: nat): string
    requires i < 4
  {
    if i == 0 then x.dice else if i == 1 then x.coins else if i == 2 then x.cards else x.sensor
  }

  /** Slots up to the last non-empty one, a separator before each but the first. */
  function EncodedSlots(x: Slots): string {
    if x.sensor != "" then
      x.dice + [SLOT_SEPARATOR] + (x.coins + [SLOT_SEPARATOR] + (x.cards + [SLOT_SEPARATOR] + x.sensor))
    else if x.cards != "" then
      x.dice + [SLOT_SEPARATOR] + (x.coins + [SLOT_SEPARATOR] + x.cards)
    else if x.coins != "" then
      x.dice + [SLOT_SEPARATOR] + x.coins
    else x.dice
  }

  /** Everything before the first separator, and everything after it. */
  function Cut(s: string): (string, string) {
    if s == "" then ("", "")
    else if s[0] == SLOT_SEPARATOR then ("", s[1..])
    else
      var (head, tail) := Cut(s[1..]);
      ([s[0]] + head, tail)
  }

  /** Three cuts recover the slots; the sensor blob keeps its own separators. */
  function DecodedSlots(s: string): Slots {
    var (dice, r1) := Cut(s);
    var (coins, r2) := Cut(r1);
    var (cards, sensor) := Cut(r2);
    Slots(dice, coins, cards, sensor)
  }

  lemma {:induction false} CutAt(a: string, b: string)
    requires SLOT_SEPARATOR !in a
    ensures Cut(a + [SLOT_SEPARATOR] + b) == (a, b)
    ensures Cut(a) == (a, "")
  {
    if a == "" {
      assert a + [SLOT_SEPARATOR] + b == [SLOT_SEPARATOR] + b;
      assert ([SLOT_SEPARATOR] + b)[1..] == b;
    } else {
      CutAt(a[1..], b);
      assert (a + [SLOT_SEPARATOR] + b)[1..] == a[1..] + [SLOT_SEPARATOR] + b;
      assert [a[0]] + a[1..] == a;
    }
  }

  predicate CleanSlots(x: Slots) {
    SLOT_SEPARATOR !in x.dice && SLOT_SEPARATOR !in x.coins && SLOT_SEPARATOR !in x.cards
  }

  /** The encoding loses nothing, whatever the sensor blob contains. */
  lemma SlotsReadBack(x: Slots)
    requires CleanSlots(x)
    ensures DecodedSlots(EncodedSlots(x)) == x
  {
    hide Cut;
    CutAt("", "");
    CutAt(x.dice, x.coins + [SLOT_SEPARATOR] + (x.cards + [SLOT_SEPARATOR] + x.sensor));
    CutAt(x.dice, x.coins + [SLOT_SEPARATOR] + x.cards);
    CutAt(x.dice, x.coins);
    CutAt(x.coins, x.cards + [SLOT_SEPARATOR] + x.sensor);
    CutAt(x.coins, x.cards);
    CutAt(x.cards, x.sensor);
  }

  /** `encode_slots`. */
  method EncodeSlots(x: Slots) returns (out: string)
    ensures out == EncodedSlots(x)
  {
    var last := 3;
    while last >= 0 && SlotAt(x, last) == ""
      invariant -1 <= last <= 3 && forall i :: last < i <= 3 ==> SlotAt(x, i) == ""
    {
      last := last - 1;
    }
    if last < 0 {
      assert SlotAt(x, 0) == "" && SlotAt(x, 1) == "" && SlotAt(x, 2) == "" && SlotAt(x, 3) == "";
      return "";
    }
    out := "";
    for i := 0 to last + 1
      invariant i == 0 ==> out == ""
      invariant i == 1 ==> out == x.dice
      invariant i == 2 ==> out == x.dice + [SLOT_SEPARATOR] + x.coins
      invariant i == 3 ==> out == x.dice + [SLOT_SEPARATOR] + (x.coins + [SLOT_SEPARATOR] + x.cards)
      invariant i == 4 ==>
        out == x.dice + [SLOT_SEPARATOR] + (x.coins + [SLOT_SEPARATOR] + (x.cards + [SLOT_SEPARATOR] + x.sensor))
    {
      if i > 0 {
        out := out + [SLOT_SEPARATOR];
      }
      out := out + SlotAt(x, i);
    }
    assert last < 3 ==> SlotAt(x, 3) == "";
    assert last < 2 ==> SlotAt(x, 2) == "";
    assert last < 1 ==> SlotAt(x, 1) == "";
  }

  // --- Sources -------------------------------------------------------------

  datatype AdditionalEntropy = AdditionalEntropy(
    dice: Option<string>, coins: Option<string>, cards: Option<seq<Card>>, sensor: Option<string>)

  predicate Die(c: char) { '1' <= c <= '6' }
  predicate Coin(c: char) { c == '0' || c == '1' }

  function FirstBad(s: string, i: nat, ok: char -> bool): (r: Option<nat>)
    requires i <= |s|
    ensures r.Some? ==> i <= r.value < |s|
    decreases |s| - i
  {
    if i == |s| then None else if !ok(s[i]) then Some(i) else FirstBad(s, i + 1, ok)
  }

  lemma {:induction false} FirstBadIsFirst(s: string, i: nat, ok: char -> bool)
    requires i <= |s|
    ensures FirstBad(s, i, ok).None? <==> forall k :: i <= k < |s| ==> ok(s[k])
    ensures FirstBad(s, i, ok).Some? ==>
              var b := FirstBad(s, i, ok).value;
              i <= b < |s| && !ok(s[b]) && forall k :: i <= k < b ==> ok(s[k])
    decreases |s| - i
  {
    if i < |s| && ok(s[i]) {
      FirstBadIsFirst(s, i + 1, ok);
    }
  }

  function WithDice(x: AdditionalEntropy, ascii: string): Result<AdditionalEntropy, EntropyError> {
    if ascii == "" then Err(EmptyDice)
    else match FirstBad(ascii, 0, Die)
         case Some(i) => Err(InvalidDice(i, ascii[i]))
         case None => Ok(x.(dice := Some(ascii)))
  }

  function WithCoins(x: AdditionalEntropy, ascii: string): Result<AdditionalEntropy, EntropyError> {
    if ascii == "" then Err(EmptyCoins)
    else match FirstBad(ascii, 0, Coin)
         case Some(i) => Err(InvalidCoin(i, ascii[i]))
         case None => Ok(x.(coins := Some(ascii)))
  }

  function WithCards(x: AdditionalEntropy, ascii: string): Result<AdditionalEntropy, EntropyError> {
    match ParsedCards(ascii)
    case Err(e) => Err(e)
    case Ok(cards) => Ok(x.(cards := Some(cards)))
  }

  function WithSensor(x: AdditionalEntropy, blob: string): AdditionalEntropy {
    x.(sensor := if blob == "" then None else Some(blob))
  }

  /** What the builders can produce: an active source is never empty and keeps its alphabet. */
  predicate Valid(x: AdditionalEntropy) {
    && (x.dice.Some? ==> x.dice.value != "" && forall i :: 0 <= i < |x.dice.value| ==> Die(x.dice.value[i]))
    && (x.coins.Some? ==> x.coins.value != "" && forall i :: 0 <= i < |x.coins.value| ==> Coin(x.coins.value[i]))
    && (x.cards.Some? ==> x.cards.value != [] && Distinct(x.cards.value))
    && (x.sensor.Some? ==> x.sensor.value != "")
  }

  /** Every builder keeps sources valid, so exactly these values ever reach the combiner. */
  lemma BuildersKeepValid(x: AdditionalEntropy, ascii: string)
    requires Valid(x)
    ensures WithDice(x, ascii).Ok? ==> Valid(WithDice(x, ascii).value)
    ensures WithCoins(x, ascii).Ok? ==> Valid(WithCoins(x, ascii).value)
    ensures WithCards(x, ascii).Ok? ==> Valid(WithCards(x, ascii).value)
    ensures Valid(WithSensor(x, ascii))
  {
    hide ParsedCards, CardsText, Distinct, FirstBad;
    FirstBadIsFirst(ascii, 0, Die);
    FirstBadIsFirst(ascii, 0, Coin);
    if ParsedCards(ascii).Ok? {
      CardsRoundTrip(ascii, ParsedCards(ascii).value);
    }
  }

  function ToSlots(x: AdditionalEntropy): Slots {
    Slots(x.dice.GetOr(""), x.coins.GetOr(""), if x.cards.Some? then CardsText(x.cards.value) else "",
          x.sensor.GetOr(""))
  }

  function CanonicalBytes(x: AdditionalEntropy): string {
    EncodedSlots(ToSlots(x))
  }

  lemma {:induction false} CardsTextClean(cards: seq<Card>)
    ensures SLOT_SEPARATOR !in CardsText(cards)
    ensures cards != [] ==> CardsText(cards) != ""
  {
    if cards != [] {
      CardsTextClean(cards[1..]);
      assert SLOT_SEPARATOR !in CardText(cards[0]);
    }
  }

  lemma ValidSlotsClean(x: AdditionalEntropy)
    requires Valid(x)
    ensures CleanSlots(ToSlots(x))
    ensures x.cards.Some? ==> ToSlots(x).cards != ""
  {
    if x.cards.Some? {
      CardsTextClean(x.cards.value);
    }
  }

  /** Distinct combinations of sources never share their canonical bytes. */
  lemma CanonicalBytesInjective(x: AdditionalEntropy, y: AdditionalEntropy)
    requires Valid(x) && Valid(y) && CanonicalBytes(x) == CanonicalBytes(y)
    ensures x == y
  {
    hide EncodedSlots, DecodedSlots, CardsText, Distinct;
    ValidSlotsClean(x);
    ValidSlotsClean(y);
    SlotsReadBack(ToSlots(x));
    SlotsReadBack(ToSlots(y));
    if x.cards.Some? && y.cards.Some? {
      CardsRoundTrip(ToSlots(x).cards, x.cards.value);
      CardsRoundTrip(ToSlots(x).cards, y.cards.value);
    }
  }
}
