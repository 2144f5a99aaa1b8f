/**
 * What the retirement report promises about its rows, stated against the
 * reference definitions of each column rather than the joins that build it.
 */
module Properties {
  import opened SqlFunctions
  import opened Relational
  import opened DeckInfo
  import opened Classifier
  import opened Aggregates
  import opened Report

  /**
   * Row `row` holds, for its deck, the number of distinct reviewed active
   * cards, the eligible and threshold card counts (NULL for none) and the
   * pass and fail review counts (NULL for none).
   */
  ghost predicate Describes(row: ReportRow, s: Snapshot, x: int)
  {
    var d := row.deckname;
    && ActiveCards(ReviewRows(s), d) != {}
    && row.allcards == |ActiveCards(ReviewRows(s), d)|
    && row.elegible == CountOrNull(EligibleCards(DeckCards(s), x, d))
    && row.ncards == CountOrNull(ThresholdCards(ReviewRows(s), x, d))
    && row.good == NonZero(BucketCount(LabelledRows(s), x, d, Pass))
    && row.bad == NonZero(BucketCount(LabelledRows(s), x, d, Fail))
  }

  /** The row built for an `allcards` row describes its deck. */
  lemma FilledDescribes(s: Snapshot, x: int, e: DeckValue)
    requires e in AllCards(ReviewRows(s))
    ensures Describes(Filled(e, ElegCards(DeckCards(s), x), SumCards(ReviewRows(s), x),
      Good(Summary(LabelledRows(s), x)), Bad(Summary(LabelledRows(s), x))), s, x)
  {
    var reviewed := ReviewRows(s);
    var ls := LabelledRows(s);
    var d := e.deckname;
    LookupKeyed(AllCards(reviewed), d, e.value);
    AllCardsLookup(reviewed, d);
    ElegCardsLookup(DeckCards(s), x, d);
    SumCardsLookup(reviewed, x, d);
    BucketLookup(ls, x, d, Pass);
    BucketLookup(ls, x, d, Fail);
  }

  /** The joined rows follow `allcards` one for one, and each describes its deck. */
  lemma ReportRowsDescribe(s: Snapshot, x: int)
    ensures |ReportRows(s, x)| == |AllCards(ReviewRows(s))|
    ensures forall i :: 0 <= i < |ReportRows(s, x)| ==> ReportRows(s, x)[i].deckname == Decks(AllCards(ReviewRows(s)))[i]
    ensures forall i :: 0 <= i < |ReportRows(s, x)| ==> Describes(ReportRows(s, x)[i], s, x)
  {
    var all := AllCards(ReviewRows(s));
    var t1 := ElegCards(DeckCards(s), x);
    var t2 := SumCards(ReviewRows(s), x);
    var t3 := Good(Summary(LabelledRows(s), x));
    var t4 := Bad(Summary(LabelledRows(s), x));
    JoinChain(all, t1, t2, t3, t4);
    var out := ReportRows(s, x);
    forall i | 0 <= i < |out| ensures out[i].deckname == Decks(all)[i] && Describes(out[i], s, x) {
      FilledDescribes(s, x, all[i]);
    }
  }

  /** Every result row describes its deck, and its `prop` is computed from that row. */
  lemma ResultsDescribe(s: Snapshot, x: int)
    ensures forall o :: o in Results(s, x) ==> Describes(o.deck, s, x) && o.prop == Prop(o.deck)
  {
    var rows := ReportRows(s, x);
    ReportRowsDescribe(s, x);
    forall o | o in Results(s, x) ensures Describes(o.deck, s, x) && o.prop == Prop(o.deck) {
      assert o in multiset(Project(rows));
      var i :| 0 <= i < |Project(rows)| && Project(rows)[i] == o;
    }
  }

  /** Two orderings of the same rows name the same decks. */
  lemma PermutedNames(a: seq<OutputRow>, b: seq<OutputRow>)
    requires multiset(a) == multiset(b)
    ensures forall d :: d in Names(a) ==> d in Names(b)
  {
    forall d | d in Names(a) ensures d in Names(b) {
      var k :| 0 <= k < |a| && Names(a)[k] == d;
      assert a[k] in multiset(b);
      var i :| 0 <= i < |b| && b[i] == a[k];
      assert Names(b)[i] == d;
    }
  }

  /**
   * The result has exactly one row per deck with a reviewed card whose
   * `queue > 0`, and no other row.
   */
  lemma OneRowPerDeck(s: Snapshot, x: int)
    ensures NoDuplicates(Names(Results(s, x)))
    ensures forall d :: d in Names(Results(s, x)) <==> ActiveCards(ReviewRows(s), d) != {}
  {
    ResultNamesDistinct(s, x);
    ResultNamesActive(s, x);
  }

  lemma ResultNamesDistinct(s: Snapshot, x: int)
    ensures NoDuplicates(Names(Results(s, x)))
  {
    var projected := Project(ReportRows(s, x));
    ProjectedNames(s, x);
    SortKeepsNamesDistinct(projected);
  }

  lemma ResultNamesActive(s: Snapshot, x: int)
    ensures forall d :: d in Names(Results(s, x)) <==> ActiveCards(ReviewRows(s), d) != {}
  {
    var projected := Project(ReportRows(s, x));
    var out := Results(s, x);
    ProjectedNames(s, x);
    PermutedNames(projected, out);
    PermutedNames(out, projected);
    AllCardsDecks(ReviewRows(s));
  }

  /** `allcards` has a row for exactly the decks with a reviewed card whose `queue > 0`. */
  lemma AllCardsDecks(rows: seq<Reviewed>)
    ensures forall d :: d in Decks(AllCards(rows)) <==> ActiveCards(rows, d) != {}
  {
    forall d ensures d in Decks(AllCards(rows)) <==> ActiveCards(rows, d) != {} {
      AllCardsLookup(rows, d);
    }
  }

  /** Before ordering, the rows name the `allcards` decks in order, each once. */
  lemma ProjectedNames(s: Snapshot, x: int)
    ensures Names(Project(ReportRows(s, x))) == Decks(AllCards(ReviewRows(s)))
    ensures NoDuplicates(Names(Project(ReportRows(s, x))))
  {
    var all := AllCards(ReviewRows(s));
    var rows := ReportRows(s, x);
    assert Names(Project(rows)) == Decks(all) by {
      forall i | 0 <= i < |rows| ensures Names(Project(rows))[i] == Decks(all)[i] {
      }
    }
  }

  /**
   * `good` counts the deck's qualifying presses other than a review-phase
   * first button, a (0, 2) press twice; `bad` counts its qualifying
   * review-phase first-button presses; NULL stands for none.
   */
  lemma BucketsByPress(s: Snapshot, x: int)
    ensures forall o :: o in Results(s, x) ==>
      && o.deck.good == NonZero(PressCount(ReviewRows(s), x, o.deck.deckname, Pass))
      && o.deck.bad == NonZero(PressCount(ReviewRows(s), x, o.deck.deckname, Fail))
  {
    ResultsDescribe(s, x);
    forall o | o in Results(s, x)
      ensures o.deck.good == NonZero(PressCount(ReviewRows(s), x, o.deck.deckname, Pass))
      ensures o.deck.bad == NonZero(PressCount(ReviewRows(s), x, o.deck.deckname, Fail))
    {
      PressCountMatches(ReviewRows(s), x, o.deck.deckname, Pass);
      PressCountMatches(ReviewRows(s), x, o.deck.deckname, Fail);
    }
  }

  /**
   * When card ids and deck ids are keys, `good` and `bad` are counts over
   * `revlog` itself: the weights of the deck's tallied presses, NULL for none.
   */
  lemma BucketsByRevlog(s: Snapshot, x: int)
    requires CardsKeyed(s.cards) && InfoKeyed(Info(s))
    ensures forall o :: o in Results(s, x) ==>
      && o.deck.good == NonZero(RevlogPressCount(s.revlog, s.cards, Info(s), x, o.deck.deckname, Pass))
      && o.deck.bad == NonZero(RevlogPressCount(s.revlog, s.cards, Info(s), x, o.deck.deckname, Fail))
  {
    BucketsByPress(s, x);
    forall o | o in Results(s, x)
      ensures o.deck.good == NonZero(RevlogPressCount(s.revlog, s.cards, Info(s), x, o.deck.deckname, Pass))
      ensures o.deck.bad == NonZero(RevlogPressCount(s.revlog, s.cards, Info(s), x, o.deck.deckname, Fail))
    {
      PressCountByRevlog(s.revlog, s.cards, Info(s), x, o.deck.deckname, Pass);
      PressCountByRevlog(s.revlog, s.cards, Info(s), x, o.deck.deckname, Fail);
    }
  }

  /** No deck has more threshold cards than reviewed active cards. */
  lemma NCardsWithinAllCards(s: Snapshot, x: int)
    ensures forall o :: o in Results(s, x) ==> OrZero(o.deck.ncards) <= o.deck.allcards
  {
    ResultsDescribe(s, x);
    forall o | o in Results(s, x) ensures OrZero(o.deck.ncards) <= o.deck.allcards {
      ThresholdWithinActive(ReviewRows(s), x, o.deck.deckname);
    }
  }

  /** Row `lo` is no smaller than row `hi` in any threshold-dependent column. */
  ghost predicate Dominates(lo: ReportRow, hi: ReportRow)
  {
    && hi.allcards == lo.allcards
    && OrZero(hi.elegible) <= OrZero(lo.elegible)
    && OrZero(hi.ncards) <= OrZero(lo.ncards)
    && OrZero(hi.good) <= OrZero(lo.good)
    && OrZero(hi.bad) <= OrZero(lo.bad)
  }

  /** The rows describing one deck at a lower and a higher threshold. */
  lemma DescribedMonotone(s: Snapshot, x1: int, x2: int, r1: ReportRow, r2: ReportRow)
    requires x1 <= x2
    requires r1.deckname == r2.deckname
    requires Describes(r1, s, x1) && Describes(r2, s, x2)
    ensures Dominates(r1, r2)
  {
    var rows, d := ReviewRows(s), r1.deckname;
    CardSetsMonotone(rows, DeckCards(s), x1, x2, d);
    BucketCountMonotone(rows, x1, x2, d, Pass);
    BucketCountMonotone(rows, x1, x2, d, Fail);
  }

  /** Raising the threshold keeps the same decks. */
  lemma ThresholdKeepsDecks(s: Snapshot, x1: int, x2: int)
    ensures forall d :: d in Names(Results(s, x1)) <==> d in Names(Results(s, x2))
  {
    OneRowPerDeck(s, x1);
    OneRowPerDeck(s, x2);
  }

  /**
   * Raising the threshold keeps each deck's `allcards` and never raises its
   * `elegible`, `ncards`, `good` or `bad` (NULL read as 0).
   */
  lemma ThresholdMonotone(s: Snapshot, x1: int, x2: int)
    requires x1 <= x2
    ensures forall o1, o2 :: o1 in Results(s, x1) && o2 in Results(s, x2) && o1.deck.deckname == o2.deck.deckname ==>
      Dominates(o1.deck, o2.deck)
  {
    ResultsDescribe(s, x1);
    ResultsDescribe(s, x2);
    forall o1, o2 | o1 in Results(s, x1) && o2 in Results(s, x2) && o1.deck.deckname == o2.deck.deckname
      ensures Dominates(o1.deck, o2.deck)
    {
      DescribedMonotone(s, x1, x2, o1.deck, o2.deck);
    }
  }

  /** On a row whose counts are NULL or positive, `prop` and the key are NULL exactly as their operands are. */
  lemma RowRatios(row: ReportRow)
    requires row.good.Some? ==> row.good.value >= 1
    ensures Prop(row).Some? <==> row.good.Some?
    ensures Prop(row).Some? ==> Prop(row).value == Ratio(row.good.value, row.good.value + OrZero(row.bad))
    ensures OrderKey(row).None? <==> row.good.None? || row.bad.None?
  {
  }

  /**
   * `prop` is NULL exactly when `good` is; otherwise it is `good` over
   * `good` plus `bad` (NULL read as 0), a fraction in (0, 1].
   */
  lemma PropBounds(s: Snapshot, x: int)
    ensures forall o :: o in Results(s, x) ==> (o.prop.Some? <==> o.deck.good.Some?)
    ensures forall o :: o in Results(s, x) && o.prop.Some? ==>
      && o.prop.value.num == o.deck.good.value
      && o.prop.value.den == o.deck.good.value + OrZero(o.deck.bad)
      && 1 <= o.prop.value.num <= o.prop.value.den
  {
    ResultsDescribe(s, x);
    forall o | o in Results(s, x)
      ensures o.prop.Some? <==> o.deck.good.Some?
      ensures o.prop.Some? ==> o.prop.value == Ratio(o.deck.good.value, o.deck.good.value + OrZero(o.deck.bad)) && o.deck.good.value >= 1
    {
      RowRatios(o.deck);
    }
  }

  /** In rows sorted by the key, NULL keys come first, and a key is NULL exactly when an operand is. */
  lemma NullKeysFirstIn(out: seq<OutputRow>)
    requires Sorted(out)
    requires forall o :: o in out ==> o.prop == Prop(o.deck) && (o.deck.good.Some? ==> o.deck.good.value >= 1)
    ensures forall o :: o in out ==> (OrderKey(o.deck).None? <==> o.deck.good.None? || o.deck.bad.None?)
    ensures forall i, j :: 0 <= i < j < |out| && OrderKey(out[j].deck).None? ==> OrderKey(out[i].deck).None?
    ensures forall o :: o in out && o.deck.good.Some? && o.deck.bad.None? ==>
      o.prop == Some(Ratio(o.deck.good.value, o.deck.good.value)) && OrderKey(o.deck).None?
  {
    forall i, j | 0 <= i < j < |out| && OrderKey(out[j].deck).None? ensures OrderKey(out[i].deck).None? {
      assert KeyLe(OrderKey(out[i].deck), OrderKey(out[j].deck));
    }
    forall o | o in out
      ensures OrderKey(o.deck).None? <==> o.deck.good.None? || o.deck.bad.None?
      ensures o.deck.good.Some? && o.deck.bad.None? ==> o.prop == Some(Ratio(o.deck.good.value, o.deck.good.value))
    {
      RowRatios(o.deck);
    }
  }

  /**
   * The ordering key is NULL exactly when `good` or `bad` is, so such decks
   * come first; a deck with passes and no failures shows `prop` 1 yet sorts
   * among them.
   */
  lemma NullKeysFirst(s: Snapshot, x: int)
    ensures forall o :: o in Results(s, x) ==> (OrderKey(o.deck).None? <==> o.deck.good.None? || o.deck.bad.None?)
    ensures forall i, j :: 0 <= i < j < |Results(s, x)| && OrderKey(Results(s, x)[j].deck).None? ==>
      OrderKey(Results(s, x)[i].deck).None?
    ensures forall o :: o in Results(s, x) && o.deck.good.Some? && o.deck.bad.None? ==>
      o.prop == Some(Ratio(o.deck.good.value, o.deck.good.value)) && OrderKey(o.deck).None?
  {
    var out := Results(s, x);
    ResultsDescribe(s, x);
    assert forall o :: o in out ==> o.prop == Prop(o.deck) && (o.deck.good.Some? ==> o.deck.good.value >= 1);
    NullKeysFirstIn(out);
  }

  // ----- a small collection on which the columns depart from their headers -----

  /**
   * Decks 1 "Default" and 2 "Other". Cards 10 and 11 of "Default" have
   * interval 30 and card 12 of "Other" interval 5, all with queue 2; the
   * only review is of card 10, a review-phase "ok" at last interval 25.
   */
  function Sample(): Snapshot
  {
    Snapshot(
      [JsonNode("$.1.name", "name", "Default"), JsonNode("$.2.name", "name", "Other")],
      [Card(10, "1", 30, 2), Card(11, "1", 30, 2), Card(12, "2", 5, 2)],
      [Review(10, 25, 1, 3)])
  }

  lemma SampleDids()
    ensures DidOf("$.1.name") == "1" && DidOf("$.2.name") == "2"
  {
    DidOfNamePath("1", "name");
    DidOfNamePath("2", "name");
    assert "$." + "1" + "." + "name" == "$.1.name";
    assert "$." + "2" + "." + "name" == "$.2.name";
  }

  lemma SampleNameNodes(a: JsonNode, b: JsonNode)
    requires a.key == "name" && b.key == "name"
    ensures DeckInfoTable([a, b]) == [RowOf(a), RowOf(b)]
  {
    assert [a, b][1..] == [b];
    assert [b][1..] == [];
  }

  lemma SampleInfo()
    ensures Info(Sample()) == [DeckInfoRow("Default", "1", "$.1.name"), DeckInfoRow("Other", "2", "$.2.name")]
  {
    SampleNameNodes(Sample().nodes[0], Sample().nodes[1]);
    assert Sample().nodes == [Sample().nodes[0], Sample().nodes[1]];
    SampleDids();
  }

  lemma JoinDeckFirst(r: Review, c: Card, d1: DeckInfoRow, d2: DeckInfoRow)
    requires d1.did == c.did && d2.did != c.did
    ensures JoinDeck(r, c, [d1, d2]) == [ReviewedRow(r, c, d1)]
  {
    assert [d1, d2][1..] == [d2];
    assert [d2][1..] == [];
    assert JoinDeck(r, c, [d2]) == [] + JoinDeck(r, c, []);
    assert JoinDeck(r, c, [d1, d2]) == [ReviewedRow(r, c, d1)] + JoinDeck(r, c, [d2]);
  }

  lemma JoinCardFirst(r: Review, c0: Card, c1: Card, c2: Card, info: seq<DeckInfoRow>)
    requires c0.id == r.cid && c1.id != r.cid && c2.id != r.cid
    ensures ReviewJoin([r], [c0, c1, c2], info) == JoinDeck(r, c0, info)
  {
    assert [c0, c1, c2][1..] == [c1, c2];
    assert [c1, c2][1..] == [c2];
    assert [c2][1..] == [];
    assert [r][1..] == [];
    assert JoinCard(r, [c2], info) == [] + JoinCard(r, [], info);
    assert JoinCard(r, [c1, c2], info) == [] + JoinCard(r, [c2], info);
    assert JoinCard(r, [c0, c1, c2], info) == JoinDeck(r, c0, info) + JoinCard(r, [c1, c2], info);
    assert ReviewJoin([r], [c0, c1, c2], info) == JoinCard(r, [c0, c1, c2], info) + ReviewJoin([], [c0, c1, c2], info);
  }

  lemma SampleReviews()
    ensures ReviewRows(Sample()) == [Reviewed("Default", 10, 25, 1, 3, 2)]
  {
    SampleInfo();
    var s := Sample();
    JoinCardFirst(s.revlog[0], s.cards[0], s.cards[1], s.cards[2], Info(s));
    JoinDeckFirst(s.revlog[0], s.cards[0], Info(s)[0], Info(s)[1]);
    assert s.revlog == [s.revlog[0]] && s.cards == [s.cards[0], s.cards[1], s.cards[2]];
    assert Info(s) == [Info(s)[0], Info(s)[1]];
  }

  lemma CardDecksTwo(c: Card, d1: DeckInfoRow, d2: DeckInfoRow)
    requires d1.did != d2.did
    ensures CardDecks(c, [d1, d2]) ==
      if c.did == d1.did then [DeckCardRow(c, d1)] else if c.did == d2.did then [DeckCardRow(c, d2)] else []
  {
    assert [d1, d2][1..] == [d2];
    assert [d2][1..] == [];
    var tail := if c.did == d2.did then [DeckCardRow(c, d2)] else [];
    assert CardDecks(c, [d2]) == tail + CardDecks(c, []);
    assert CardDecks(c, [d1, d2]) == (if c.did == d1.did then [DeckCardRow(c, d1)] else []) + CardDecks(c, [d2]);
  }

  lemma CardJoinThree(c0: Card, c1: Card, c2: Card, d1: DeckInfoRow, d2: DeckInfoRow)
    requires c0.did == d1.did && c1.did == d1.did && c2.did == d2.did && d1.did != d2.did
    ensures CardJoin([c0, c1, c2], [d1, d2]) == [DeckCardRow(c0, d1), DeckCardRow(c1, d1), DeckCardRow(c2, d2)]
  {
    assert [c0, c1, c2][1..] == [c1, c2];
    assert [c1, c2][1..] == [c2];
    assert [c2][1..] == [];
    CardDecksTwo(c0, d1, d2);
    CardDecksTwo(c1, d1, d2);
    CardDecksTwo(c2, d1, d2);
    assert CardJoin([c2], [d1, d2]) == CardDecks(c2, [d1, d2]) + CardJoin([], [d1, d2]);
  }

  lemma SampleDeckCards()
    ensures DeckCards(Sample()) == [DeckCard("Default", 10, 30, 2), DeckCard("Default", 11, 30, 2), DeckCard("Other", 12, 5, 2)]
  {
    SampleInfo();
    var s := Sample();
    var info := Info(s);
    CardJoinThree(s.cards[0], s.cards[1], s.cards[2], info[0], info[1]);
    assert info == [info[0], info[1]];
    assert s.cards == [s.cards[0], s.cards[1], s.cards[2]];
  }

  lemma ActiveOfOne(row: Reviewed, d: string)
    ensures ActiveCards([row], d) == if row.deckname == d && row.queue > 0 then {row.cid} else {}
  {
    forall id | id in ActiveCards([row], d) ensures row.deckname == d && row.queue > 0 && id == row.cid {
      var r :| r in [row] && r.deckname == d && r.queue > 0 && r.cid == id;
    }
  }

  lemma SampleActive()
    ensures ActiveCards(ReviewRows(Sample()), "Default") == {10}
    ensures ActiveCards(ReviewRows(Sample()), "Other") == {}
  {
    SampleReviews();
    var row := Reviewed("Default", 10, 25, 1, 3, 2);
    ActiveOfOne(row, "Default");
    ActiveOfOne(row, "Other");
  }

  function Picked(c: DeckCard, x: int, d: string): set<int>
  {
    if c.deckname == d && c.queue > 0 && c.ivl > x then {c.id} else {}
  }

  lemma EligibleOfThree(c0: DeckCard, c1: DeckCard, c2: DeckCard, x: int, d: string)
    ensures EligibleCards([c0, c1, c2], x, d) == Picked(c0, x, d) + Picked(c1, x, d) + Picked(c2, x, d)
  {
    var cs := [c0, c1, c2];
    forall id | id in EligibleCards(cs, x, d) ensures id in Picked(c0, x, d) + Picked(c1, x, d) + Picked(c2, x, d) {
      var c :| c in cs && c.deckname == d && c.queue > 0 && c.ivl > x && c.id == id;
    }
    assert cs[0] == c0 && cs[1] == c1 && cs[2] == c2;
  }

  lemma TwoIds(a: int, b: int)
    requires a != b
    ensures |{a, b}| == 2
  {
  }

  lemma SampleEligibleSet()
    ensures EligibleCards(DeckCards(Sample()), 21, "Default") == {10, 11}
  {
    SampleDeckCards();
    EligibleOfThree(DeckCard("Default", 10, 30, 2), DeckCard("Default", 11, 30, 2), DeckCard("Other", 12, 5, 2), 21, "Default");
  }

  lemma SampleEligible(s: Snapshot)
    requires s == Sample()
    ensures |EligibleCards(DeckCards(s), 21, "Default")| == 2
  {
    SampleEligibleSet();
    TwoIds(10, 11);
  }

  /** A deck with a reviewed active card has a result row, describing it. */
  lemma RowOfDeck(s: Snapshot, x: int, d: string)
    requires ActiveCards(ReviewRows(s), d) != {}
    ensures exists o :: o in Results(s, x) && o.deck.deckname == d && Describes(o.deck, s, x)
  {
    OneRowPerDeck(s, x);
    ResultsDescribe(s, x);
    var k :| 0 <= k < |Results(s, x)| && Names(Results(s, x))[k] == d;
    assert Results(s, x)[k] in Results(s, x);
  }

  /**
   * `elegible` can exceed `allcards`: `allcards` counts only cards that have
   * been reviewed, while `elegible` counts every active card above the
   * threshold, so "Default" shows one card of which two are eligible.
   */
  lemma EligibleCanExceedAllCards(s: Snapshot)
    requires s == Sample()
    ensures exists o :: o in Results(s, 21) && o.deck.deckname == "Default" && o.deck.allcards == 1 && o.deck.elegible == Some(2)
  {
    SampleActive();
    SampleEligible(s);
    RowOfDeck(s, 21, "Default");
    var o :| o in Results(s, 21) && o.deck.deckname == "Default" && Describes(o.deck, s, 21);
  }

  /**
   * A deck with an active card but no review of one has no row: "Other"
   * holds the active card 12 and is left out of the report.
   */
  lemma UnreviewedDeckHasNoRow(s: Snapshot)
    requires s == Sample()
    ensures DeckCard("Other", 12, 5, 2) in DeckCards(s)
    ensures "Other" !in Names(Results(s, 21))
  {
    SampleActive();
    SampleDeckCards();
    OneRowPerDeck(s, 21);
  }
}
