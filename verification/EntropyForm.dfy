/** The written form of additional entropy: the card notation, the order and separators of the sources,
    and which error answers which fault. */
module EntropyForm {
  import opened Machine
  import opened Entropy

  // --- Dice and coins ------------------------------------------------------

  /** Nothing typed, else the first character that is no die, with its place; else that text and nothing
      else is taken over. */
  lemma DiceRefuse(x: AdditionalEntropy, ascii: string, k: nat)
    ensures WithDice(x, ascii) == Err(EmptyDice) <==> ascii == ""
    ensures k < |ascii| && (ascii[k] < '1' || ascii[k] > '6') && (forall j :: 0 <= j < k ==> '1' <= ascii[j] <= '6') ==>
              WithDice(x, ascii) == Err(InvalidDice(k, ascii[k]))
    ensures ascii != "" && (forall j :: 0 <= j < |ascii| ==> '1' <= ascii[j] <= '6') ==>
              WithDice(x, ascii) == Ok(AdditionalEntropy(Some(ascii), x.coins, x.cards, x.sensor))
  {
    FirstBadIsFirst(ascii, 0, Die);
    hide FirstBad;
  }

  lemma CoinsRefuse(x: AdditionalEntropy, ascii: string, k: nat)
    ensures WithCoins(x, ascii) == Err(EmptyCoins) <==> ascii == ""
    ensures k < |ascii| && ascii[k] !in "01" && (forall j :: 0 <= j < k ==> ascii[j] in "01") ==>
              WithCoins(x, ascii) == Err(InvalidCoin(k, ascii[k]))
    ensures ascii != "" && (forall j :: 0 <= j < |ascii| ==> ascii[j] in "01") ==>
              WithCoins(x, ascii) == Ok(AdditionalEntropy(x.dice, Some(ascii), x.cards, x.sensor))
  {
    FirstBadIsFirst(ascii, 0, Coin);
    hide FirstBad;
  }

  // --- Cards ---------------------------------------------------------------

  const RANKS: string := "A234567891JQK"
  const SUITS: string := "SHDC"

  function RankNumber(r: Rank): (n: nat)
    ensures n < 13
  {
    match r
    case Ace => 0 case Two => 1 case Three => 2 case Four => 3 case Five => 4 case Six => 5 case Seven => 6
    case Eight => 7 case Nine => 8 case Ten => 9 case Jack => 10 case Queen => 11 case King => 12
  }

  function SuitNumber(s: Suit): (n: nat)
    ensures n < 4
  {
    match s case Spades => 0 case Hearts => 1 case Diamonds => 2 case Clubs => 3
  }

  /** The rank's letter, a zero after the one of ten, and the suit's letter. */
  lemma Notation(c: Card)
    ensures CardText(c) == [RANKS[RankNumber(c.rank)]] + (if c.rank == Ten then "0" else "")
                           + [SUITS[SuitNumber(c.suit)]]
  {
  }

  lemma RankAtIff(s: string, i: nat, r: Rank)
    requires i < |s|
    ensures RankAt(s, i) == Some((r, |RankText(r)|)) <==> RankText(r) <= s[i..]
    ensures RankAt(s, i).Some? ==> RankAt(s, i).value.1 == |RankText(RankAt(s, i).value.0)|
  {
    var rest, t := s[i..], RankText(r);
    assert rest[0] == s[i] && (|rest| > 1 ==> rest[1] == s[i + 1]);
    if |t| == 1 {
      assert t <= rest <==> rest[0] == t[0];
    } else {
      assert t <= rest <==> |rest| > 1 && rest[0] == '1' && rest[1] == '0';
    }
  }

  lemma SuitOfIff(c: char, suit: Suit)
    ensures SuitOf(c) == Some(suit) <==> c == SuitChar(suit)
    ensures SuitOf(c).None? <==> c !in SUITS
  {
  }

  function Dealt(cards: seq<Card>): set<Card> {
    set c | c in cards
  }

  /** The cards at the head of a text are read one by one, and reading goes on behind them. */
  lemma {:induction false} ReadsOn(s: string, i: nat, cards: seq<Card>, tail: string, seen: set<Card>)
    requires i <= |s| && s[i..] == CardsText(cards) + tail && Distinct(cards)
    requires forall k :: 0 <= k < |cards| ==> cards[k] !in seen
    ensures var at := i + |CardsText(cards)|;
            at <= |s| && ReadCards(s, i, seen) == Prepend(cards, ReadCards(s, at, seen + Dealt(cards)))
    decreases |cards|
  {
    hide CardText, ReadCards, Prepend;
    if cards == [] {
      assert seen + Dealt(cards) == seen;
      PrependNone(ReadCards(s, i, seen));
    } else {
      var c, t := cards[0], CardText(cards[0]);
      var j, more := i + |t|, CardsText(cards[1..]) + tail;
      assert s[i..] == t + more;
      OneCard(s, i, c, more, seen);
      ReadsOn(s, j, cards[1..], tail, seen + {c});
      assert cards == [c] + cards[1..];
      assert seen + {c} + Dealt(cards[1..]) == seen + Dealt(cards);
      PrependTwice(c, cards[1..], ReadCards(s, i + |CardsText(cards)|, seen + Dealt(cards)));
    }
  }

  lemma {:induction false} OneCard(s: string, i: nat, c: Card, more: string, seen: set<Card>)
    requires i <= |s| && s[i..] == CardText(c) + more && c !in seen
    ensures var j := i + |CardText(c)|;
            && j <= |s| && s[j..] == more
            && ReadCards(s, i, seen) == Prepend([c], ReadCards(s, j, seen + {c}))
  {
    var t := CardText(c);
    var j := i + |t|;
    assert s[i..j] == s[i..][..|t|] == t && s[j..] == s[i..][|t|..] == more;
    CardReadsBack(c, s, i);
    hide RankText, RankAt, SuitOf;
  }

  lemma PrependNone(r: Result<seq<Card>, EntropyError>)
    ensures Prepend([], r) == r
  {
    if r.Ok? {
      assert [] + r.value == r.value;
    }
  }

  lemma PrependTwice(c: Card, cards: seq<Card>, r: Result<seq<Card>, EntropyError>)
    ensures Prepend([c], Prepend(cards, r)) == Prepend([c] + cards, r)
  {
    if r.Ok? {
      assert [c] + (cards + r.value) == ([c] + cards) + r.value;
    }
  }

  /** What the first fault behind a hand without repetition reports: a byte that starts no rank, a rank
      with nothing behind it, a byte that is no suit, a card already dealt. */
  lemma {:induction false} CardsRefuse(cards: seq<Card>, tail: string, r: Rank, c: Card)
    requires Distinct(cards) && tail != ""
    ensures var s, at := CardsText(cards) + tail, |CardsText(cards)|;
            && ((forall rank :: !(RankText(rank) <= tail)) ==> ParsedCards(s) == Err(UnexpectedByte(at, tail[0])))
            && (tail == RankText(r) ==> ParsedCards(s) == Err(Incomplete))
            && (RankText(r) < tail && tail[|RankText(r)|] !in SUITS ==>
                  ParsedCards(s) == Err(UnexpectedByte(at + |RankText(r)|, tail[|RankText(r)|])))
            && (CardText(c) <= tail && c in cards ==> ParsedCards(s) == Err(Duplicate(CardText(c))))
  {
    var s, at := CardsText(cards) + tail, |CardsText(cards)|;
    hide RankText, CardText;
    Behind(s, cards, tail);
    FaultAt(s, at, Dealt(cards), r, c);
    hide ReadCards, CardsText;
    assert s[at..] == tail;
  }

  lemma {:induction false} Behind(s: string, cards: seq<Card>, tail: string)
    requires Distinct(cards) && tail != "" && s == CardsText(cards) + tail
    ensures var at := |CardsText(cards)|;
            && at < |s| && s[at..] == tail
            && ParsedCards(s) == Prepend(cards, ReadCards(s, at, Dealt(cards)))
  {
    assert s[0..] == s;
    ReadsOn(s, 0, cards, tail, {});
    assert {} + Dealt(cards) == Dealt(cards);
    hide CardsText, ReadCards;
  }

  lemma {:induction false} FaultAt(s: string, at: nat, seen: set<Card>, r: Rank, c: Card)
    requires at < |s|
    ensures var tail, n := s[at..], |RankText(r)|;
            && ((forall rank :: !(RankText(rank) <= tail)) ==> ReadCards(s, at, seen) == Err(UnexpectedByte(at, s[at])))
            && (tail == RankText(r) ==> ReadCards(s, at, seen) == Err(Incomplete))
            && (RankText(r) < tail && tail[n] !in SUITS ==>
                  ReadCards(s, at, seen) == Err(UnexpectedByte(at + n, tail[n])))
            && (CardText(c) <= tail && c in seen ==> ReadCards(s, at, seen) == Err(Duplicate(CardText(c))))
  {
    if CardText(c) <= s[at..] && c in seen {
      DealtBefore(s, at, seen, c);
    }
    hide CardText;
    NoRank(s, at, seen);
    NoSuit(s, at, seen, r);
  }

  lemma {:induction false} DealtBefore(s: string, at: nat, seen: set<Card>, c: Card)
    requires at < |s| && CardText(c) <= s[at..] && c in seen
    ensures ReadCards(s, at, seen) == Err(Duplicate(CardText(c)))
  {
    var tail, t := s[at..], CardText(c);
    assert s[at..at + |t|] == tail[..|t|] == t;
    CardReadsBack(c, s, at);
    hide RankAt, RankText, SuitOf, CardText;
  }

  lemma {:induction false} NoRank(s: string, at: nat, seen: set<Card>)
    requires at < |s|
    ensures (forall rank :: !(RankText(rank) <= s[at..])) ==> ReadCards(s, at, seen) == Err(UnexpectedByte(at, s[at]))
  {
    if RankAt(s, at).Some? {
      RankAtIff(s, at, RankAt(s, at).value.0);
    }
    hide RankAt, RankText, SuitOf, CardText;
  }

  lemma {:induction false} NoSuit(s: string, at: nat, seen: set<Card>, r: Rank)
    requires at < |s|
    ensures var tail, n := s[at..], |RankText(r)|;
            && (tail == RankText(r) ==> ReadCards(s, at, seen) == Err(Incomplete))
            && (RankText(r) < tail && tail[n] !in SUITS ==>
                  ReadCards(s, at, seen) == Err(UnexpectedByte(at + n, tail[n])))
  {
    RankAtIff(s, at, r);
    var tail := s[at..];
    if |tail| > |RankText(r)| {
      SuitOfIff(tail[|RankText(r)|], Spades);
    }
    hide RankAt, RankText, SuitOf, CardText;
  }

  // --- Canonical bytes -----------------------------------------------------

  /** Strings with the record separator, byte 30, between them. */
  function Separated(parts: seq<string>): string {
    if parts == [] then ""
    else if |parts| == 1 then parts[0]
    else parts[0] + ['\U{001E}'] + Separated(parts[1..])
  }

  /** The sources in the order dice, coins, cards, sensor, up to the last one that says something. */
  lemma {:induction false} CanonicalForm(x: AdditionalEntropy, n: nat)
    requires var parts := Parts(x);
             n <= 4 && (n > 0 ==> parts[n - 1] != "") && forall i :: n <= i < 4 ==> parts[i] == ""
    ensures CanonicalBytes(x) == Separated(Parts(x)[..n])
  {
    hide CardsText;
    var p := Parts(x);
    assert n == 4 ==> p[3] != "";
    assert p[..4] == [p[0], p[1], p[2], p[3]] && p[..3] == [p[0], p[1], p[2]] && p[..2] == [p[0], p[1]]
        && p[..1] == [p[0]];
    SeparatedFew(p[0], p[1], p[2], p[3]);
    hide Separated;
    assert n < 4 ==> p[3] == "";
    assert n < 3 ==> p[2] == "";
    assert n < 2 ==> p[1] == "";
    assert n < 1 ==> p[0] == "";
  }

  function Parts(x: AdditionalEntropy): (r: seq<string>)
    ensures |r| == 4
  {
    [x.dice.GetOr(""), x.coins.GetOr(""), if x.cards.Some? then CardsText(x.cards.value) else "", x.sensor.GetOr("")]
  }

  lemma {:induction false} SeparatedFew(a: string, b: string, c: string, d: string)
    ensures Separated([]) == "" && Separated([a]) == a
    ensures Separated([a, b]) == a + ['\U{001E}'] + b
    ensures Separated([a, b, c]) == a + ['\U{001E}'] + (b + ['\U{001E}'] + c)
    ensures Separated([a, b, c, d]) == a + ['\U{001E}'] + (b + ['\U{001E}'] + (c + ['\U{001E}'] + d))
  {
    assert [a, b][1..] == [b] && [a, b, c][1..] == [b, c] && [b, c][1..] == [c];
    assert [a, b, c, d][1..] == [b, c, d] && [b, c, d][1..] == [c, d] && [c, d][1..] == [d];
    assert Separated([b, c]) == b + ['\U{001E}'] + c;
    assert Separated([c, d]) == c + ['\U{001E}'] + d;
  }
}
