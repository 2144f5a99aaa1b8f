/**
 * The joins and common table expressions of the retirement report: the
 * review join, the card join, the outcome classification, and the
 * aggregates `summary`, `sumcards`, `allcards`, `elegcards`, `bad` and
 * `good`, each with the reference definition it computes.
 */
module Aggregates {
  import opened SqlFunctions
  import opened Relational
  import opened DeckInfo
  import opened Classifier

  /** A row of `cards`, keeping the columns the report reads. */
  datatype Card = Card(id: int, did: string, ivl: int, queue: int)

  /**
   * A row of `revlog`: the card reviewed, its interval before the review, the
   * review kind the classifier keys on, and the ease button pressed.
   */
  datatype Review = Review(cid: int, lastivl: int, rtype: int, ease: int)

  /** A row of `revlog r join cards c on (r.cid = c.id) join deckinfo d using (did)`. */
  datatype Reviewed = Reviewed(deckname: string, cid: int, lastivl: int, rtype: int, ease: int, queue: int)

  function ReviewedRow(r: Review, c: Card, d: DeckInfoRow): Reviewed
  {
    Reviewed(d.deckname, r.cid, r.lastivl, r.rtype, r.ease, c.queue)
  }

  /** The review, card and deck rows meet the join conditions. */
  predicate Joins(r: Review, c: Card, d: DeckInfoRow)
  {
    c.id == r.cid && d.did == c.did
  }

  /** The positions of the `deckinfo` rows that join card `c` and give `row` for review `r`. */
  function DeckHits(r: Review, c: Card, info: seq<DeckInfoRow>, row: Reviewed): set<nat>
  {
    set k: nat | k < |info| && info[k].did == c.did && ReviewedRow(r, c, info[k]) == row
  }

  lemma DeckHitsStep(r: Review, c: Card, info: seq<DeckInfoRow>, row: Reviewed)
    requires info != []
    ensures |DeckHits(r, c, info, row)| ==
      (if info[0].did == c.did && ReviewedRow(r, c, info[0]) == row then 1 else 0) + |DeckHits(r, c, info[1..], row)|
  {
    var head: set<nat> := if info[0].did == c.did && ReviewedRow(r, c, info[0]) == row then {0} else {};
    var tail := DeckHits(r, c, info[1..], row);
    forall k ensures k in DeckHits(r, c, info, row) <==> k in head + Shift(tail) {
      if k in DeckHits(r, c, info, row) && k >= 1 {
        assert info[1..][k - 1] == info[k];
        assert k - 1 in tail;
      }
      if k in Shift(tail) {
        var j :| j in tail && k == j + 1;
        assert info[1..][j] == info[k];
      }
    }
    assert DeckHits(r, c, info, row) == head + Shift(tail);
    ShiftSize(tail);
    assert 0 !in Shift(tail);
  }

  /**
   * The deck join for one review and card: one row per `deckinfo` row with
   * the card's deck id, so a deck id named by several nodes yields several rows.
   */
  function JoinDeck(r: Review, c: Card, info: seq<DeckInfoRow>): (rows: seq<Reviewed>)
    ensures forall row :: row in rows <==> exists d :: d in info && d.did == c.did && row == ReviewedRow(r, c, d)
    ensures forall row :: Count(rows, row) == |DeckHits(r, c, info, row)|
  {
    if info == [] then
      assert forall row :: DeckHits(r, c, info, row) == {};
      []
    else
      assert forall row :: (|DeckHits(r, c, info, row)| ==
        (if info[0].did == c.did && ReviewedRow(r, c, info[0]) == row then 1 else 0) + |DeckHits(r, c, info[1..], row)|) by {
        forall row ensures |DeckHits(r, c, info, row)| ==
          (if info[0].did == c.did && ReviewedRow(r, c, info[0]) == row then 1 else 0) + |DeckHits(r, c, info[1..], row)| {
          DeckHitsStep(r, c, info, row);
        }
      }
      (if info[0].did == c.did then [ReviewedRow(r, c, info[0])] else []) + JoinDeck(r, c, info[1..])
  }

  /** The (card, `deckinfo`) position pairs that join review `r` and give `row`. */
  function CardHits(r: Review, cards: seq<Card>, info: seq<DeckInfoRow>, row: Reviewed): set<(int, int)>
  {
    set j, k | 0 <= j < |cards| && 0 <= k < |info| && Joins(r, cards[j], info[k]) && ReviewedRow(r, cards[j], info[k]) == row :: (j, k)
  }

  lemma CardHitsStep(r: Review, cards: seq<Card>, info: seq<DeckInfoRow>, row: Reviewed)
    requires cards != []
    ensures |CardHits(r, cards, info, row)| ==
      (if cards[0].id == r.cid then |DeckHits(r, cards[0], info, row)| else 0) + |CardHits(r, cards[1..], info, row)|
  {
    var first := DeckHits(r, cards[0], info, row);
    var head: set<(int, int)> := if cards[0].id == r.cid then AtFirst(first) else {};
    var tail := CardHits(r, cards[1..], info, row);
    forall p ensures p in CardHits(r, cards, info, row) <==> p in head + ShiftPairs(tail) {
      if p in CardHits(r, cards, info, row) {
        if p.0 == 0 {
          assert p.1 in first;
        } else {
          assert cards[1..][p.0 - 1] == cards[p.0];
          assert (p.0 - 1, p.1) in tail;
        }
      }
      if p in head {
        var k :| k in first && p == (0, k);
        assert Joins(r, cards[0], info[k]);
      }
      if p in ShiftPairs(tail) {
        var q :| q in tail && p == (q.0 + 1, q.1);
        assert cards[1..][q.0] == cards[p.0];
        assert Joins(r, cards[p.0], info[p.1]);
      }
    }
    assert CardHits(r, cards, info, row) == head + ShiftPairs(tail);
    AtFirstSize(first);
    ShiftPairsSize(tail);
    assert head * ShiftPairs(tail) == {};
  }

  /** The card join for one review: one row per matching card and matching `deckinfo` row. */
  function JoinCard(r: Review, cards: seq<Card>, info: seq<DeckInfoRow>): (rows: seq<Reviewed>)
    ensures forall row :: row in rows <==>
      exists c, d :: c in cards && d in info && Joins(r, c, d) && row == ReviewedRow(r, c, d)
    ensures forall row :: Count(rows, row) == |CardHits(r, cards, info, row)|
  {
    if cards == [] then
      assert forall row :: CardHits(r, cards, info, row) == {};
      []
    else
      assert forall row :: (|CardHits(r, cards, info, row)| ==
        (if cards[0].id == r.cid then |DeckHits(r, cards[0], info, row)| else 0) + |CardHits(r, cards[1..], info, row)|) by {
        forall row ensures |CardHits(r, cards, info, row)| ==
          (if cards[0].id == r.cid then |DeckHits(r, cards[0], info, row)| else 0) + |CardHits(r, cards[1..], info, row)| {
          CardHitsStep(r, cards, info, row);
        }
      }
      (if cards[0].id == r.cid then JoinDeck(r, cards[0], info) else []) + JoinCard(r, cards[1..], info)
  }

  /** The (review, card, `deckinfo`) position triples that meet both join conditions and give `row`. */
  function JoinHits(revlog: seq<Review>, cards: seq<Card>, info: seq<DeckInfoRow>, row: Reviewed): set<(int, int, int)>
  {
    set i, j, k | 0 <= i < |revlog| && 0 <= j < |cards| && 0 <= k < |info|
      && Joins(revlog[i], cards[j], info[k]) && ReviewedRow(revlog[i], cards[j], info[k]) == row :: (i, j, k)
  }

  lemma JoinHitsStep(revlog: seq<Review>, cards: seq<Card>, info: seq<DeckInfoRow>, row: Reviewed)
    requires revlog != []
    ensures |JoinHits(revlog, cards, info, row)| ==
      |CardHits(revlog[0], cards, info, row)| + |JoinHits(revlog[1..], cards, info, row)|
  {
    var first := CardHits(revlog[0], cards, info, row);
    var tail := JoinHits(revlog[1..], cards, info, row);
    forall t ensures t in JoinHits(revlog, cards, info, row) <==> t in PairsAtFirst(first) + ShiftTriples(tail) {
      if t in JoinHits(revlog, cards, info, row) {
        if t.0 == 0 {
          assert (t.1, t.2) in first;
        } else {
          assert revlog[1..][t.0 - 1] == revlog[t.0];
          assert (t.0 - 1, t.1, t.2) in tail;
        }
      }
      if t in PairsAtFirst(first) {
        var p :| p in first && t == (0, p.0, p.1);
        assert Joins(revlog[0], cards[p.0], info[p.1]);
      }
      if t in ShiftTriples(tail) {
        var q :| q in tail && t == (q.0 + 1, q.1, q.2);
        assert revlog[1..][q.0] == revlog[t.0];
        assert Joins(revlog[t.0], cards[t.1], info[t.2]);
      }
    }
    assert JoinHits(revlog, cards, info, row) == PairsAtFirst(first) + ShiftTriples(tail);
    PairsAtFirstSize(first);
    ShiftTriplesSize(tail);
    assert PairsAtFirst(first) * ShiftTriples(tail) == {};
  }

  /**
   * The review join: one row per review, matching card and matching
   * `deckinfo` row, so a review meets every `deckinfo` row whose id text is
   * its card's deck id.
   */
  function ReviewJoin(revlog: seq<Review>, cards: seq<Card>, info: seq<DeckInfoRow>): (rows: seq<Reviewed>)
    ensures forall row :: row in rows <==>
      exists r, c, d :: r in revlog && c in cards && d in info && Joins(r, c, d) && row == ReviewedRow(r, c, d)
    ensures forall row :: Count(rows, row) == |JoinHits(revlog, cards, info, row)|
  {
    if revlog == [] then
      assert forall row :: JoinHits(revlog, cards, info, row) == {};
      []
    else
      assert forall row :: (|JoinHits(revlog, cards, info, row)| ==
        |CardHits(revlog[0], cards, info, row)| + |JoinHits(revlog[1..], cards, info, row)|) by {
        forall row ensures |JoinHits(revlog, cards, info, row)| ==
          |CardHits(revlog[0], cards, info, row)| + |JoinHits(revlog[1..], cards, info, row)| {
          JoinHitsStep(revlog, cards, info, row);
        }
      }
      JoinCard(revlog[0], cards, info) + ReviewJoin(revlog[1..], cards, info)
  }

  /** A row of `cards c join deckinfo d using (did)`. */
  datatype DeckCard = DeckCard(deckname: string, id: int, ivl: int, queue: int)

  function DeckCardRow(c: Card, d: DeckInfoRow): DeckCard
  {
    DeckCard(d.deckname, c.id, c.ivl, c.queue)
  }

  function CardDecks(c: Card, info: seq<DeckInfoRow>): (rows: seq<DeckCard>)
    ensures forall row :: row in rows <==> exists d :: d in info && d.did == c.did && row == DeckCardRow(c, d)
  {
    if info == [] then []
    else (if info[0].did == c.did then [DeckCardRow(c, info[0])] else []) + CardDecks(c, info[1..])
  }

  /** The card join `elegcards` reads: one row per card and matching `deckinfo` row. */
  function CardJoin(cards: seq<Card>, info: seq<DeckInfoRow>): (rows: seq<DeckCard>)
    ensures forall row :: row in rows <==>
      exists c, d :: c in cards && d in info && d.did == c.did && row == DeckCardRow(c, d)
  {
    if cards == [] then []
    else CardDecks(cards[0], info) + CardJoin(cards[1..], info)
  }

  /** A review-join row after `natural left join button`: the row and its `ename`, NULL when unmatched. */
  datatype Labelled = Labelled(row: Reviewed, ename: Option<string>)

  function LabelEach(row: Reviewed, names: seq<Option<string>>): (ls: seq<Labelled>)
    ensures |ls| == |names|
    ensures forall i :: 0 <= i < |names| ==> ls[i] == Labelled(row, names[i])
  {
    if names == [] then [] else [Labelled(row, names[0])] + LabelEach(row, names[1..])
  }

  /**
   * `natural left join button`: each row is paired with every label its
   * (review kind, ease) key has in the table, and kept once with a NULL
   * label when the key has none, so no row is lost.
   */
  function ButtonJoin(rows: seq<Reviewed>): (ls: seq<Labelled>)
    ensures |ls| >= |rows|
    ensures forall l :: l in ls <==> l.row in rows && l.ename in Labels(l.row.rtype, l.row.ease)
  {
    if rows == [] then []
    else
      var names := Labels(rows[0].rtype, rows[0].ease);
      var first := LabelEach(rows[0], names);
      assert forall l :: l in first <==> l.row == rows[0] && l.ename in names by {
        forall l ensures l in first <==> l.row == rows[0] && l.ename in names {
          if l.row == rows[0] && l.ename in names {
            var i :| 0 <= i < |names| && names[i] == l.ename;
            assert first[i] == l;
          }
        }
      }
      first + ButtonJoin(rows[1..])
  }

  // ----- allcards, sumcards, elegcards: count(distinct id) group by deckname -----

  /** `(deckname, r.cid)` of the review-join rows `where queue > 0`. */
  function ActivePairs(rows: seq<Reviewed>): (ps: seq<(string, int)>)
    ensures forall p :: p in ps <==> exists r :: r in rows && r.queue > 0 && p == (r.deckname, r.cid)
  {
    if rows == [] then []
    else (if rows[0].queue > 0 then [(rows[0].deckname, rows[0].cid)] else []) + ActivePairs(rows[1..])
  }

  /** `(deckname, r.cid)` of the review-join rows `where r.lastivl > x and queue > 0`. */
  function ThresholdPairs(rows: seq<Reviewed>, x: int): (ps: seq<(string, int)>)
    ensures forall p :: p in ps <==> exists r :: r in rows && r.lastivl > x && r.queue > 0 && p == (r.deckname, r.cid)
  {
    if rows == [] then []
    else
      var head := if rows[0].lastivl > x && rows[0].queue > 0 then [(rows[0].deckname, rows[0].cid)] else [];
      head + ThresholdPairs(rows[1..], x)
  }

  /** `(deckname, id)` of the card-join rows `where ivl > x and queue > 0`. */
  function EligiblePairs(cs: seq<DeckCard>, x: int): (ps: seq<(string, int)>)
    ensures forall p :: p in ps <==> exists c :: c in cs && c.ivl > x && c.queue > 0 && p == (c.deckname, c.id)
  {
    if cs == [] then []
    else (if cs[0].ivl > x && cs[0].queue > 0 then [(cs[0].deckname, cs[0].id)] else []) + EligiblePairs(cs[1..], x)
  }

  /** The distinct reviewed cards of deck `d` with `queue > 0`. */
  function ActiveCards(rows: seq<Reviewed>, d: string): set<int>
  {
    set r | r in rows && r.deckname == d && r.queue > 0 :: r.cid
  }

  /** The distinct cards of deck `d` with `queue > 0` reviewed while their interval exceeded `x`. */
  function ThresholdCards(rows: seq<Reviewed>, x: int, d: string): set<int>
  {
    set r | r in rows && r.deckname == d && r.queue > 0 && r.lastivl > x :: r.cid
  }

  /** The distinct cards of deck `d` with `queue > 0` whose current interval exceeds `x`. */
  function EligibleCards(cs: seq<DeckCard>, x: int, d: string): set<int>
  {
    set c | c in cs && c.deckname == d && c.queue > 0 && c.ivl > x :: c.id
  }

  /** A positive count, or NULL for none: the value an aggregate table gives after a left join. */
  function NonZero(n: nat): Option<nat>
  {
    if n == 0 then None else Some(n)
  }

  /** A group's `count(distinct ...)`: absent (NULL after a left join) when the group is empty. */
  function CountOrNull(s: set<int>): Option<nat>
  {
    NonZero(|s|)
  }

  /** A count that may be NULL, with NULL read as 0. */
  function OrZero(v: Option<nat>): nat
  {
    Coalesce(v, 0)
  }

  /** A subset never has a larger count. */
  lemma CountOrNullSubset(a: set<int>, b: set<int>)
    requires a <= b
    ensures OrZero(CountOrNull(a)) <= OrZero(CountOrNull(b))
  {
    assert b == a + (b - a);
  }

  /** A deck's threshold cards are among its active cards. */
  lemma ThresholdWithinActive(rows: seq<Reviewed>, x: int, d: string)
    ensures OrZero(CountOrNull(ThresholdCards(rows, x, d))) <= |ActiveCards(rows, d)|
  {
    CountOrNullSubset(ThresholdCards(rows, x, d), ActiveCards(rows, d));
  }

  /** Raising the threshold only removes cards from the threshold and eligible sets. */
  lemma CardSetsMonotone(rows: seq<Reviewed>, cs: seq<DeckCard>, x1: int, x2: int, d: string)
    requires x1 <= x2
    ensures OrZero(CountOrNull(ThresholdCards(rows, x2, d))) <= OrZero(CountOrNull(ThresholdCards(rows, x1, d)))
    ensures OrZero(CountOrNull(EligibleCards(cs, x2, d))) <= OrZero(CountOrNull(EligibleCards(cs, x1, d)))
  {
    CountOrNullSubset(ThresholdCards(rows, x2, d), ThresholdCards(rows, x1, d));
    CountOrNullSubset(EligibleCards(cs, x2, d), EligibleCards(cs, x1, d));
  }

  /** The `allcards` table: at most one row per deck, each counting at least one card. */
  function AllCards(rows: seq<Reviewed>): (t: seq<DeckValue>)
    ensures KeyedByDeck(t)
    ensures forall i :: 0 <= i < |t| ==> t[i].value >= 1
  {
    GroupCountDistinct(ActivePairs(rows))
  }

  /** The `sumcards` table: at most one row per deck, each counting at least one card. */
  function SumCards(rows: seq<Reviewed>, x: int): (t: seq<DeckValue>)
    ensures KeyedByDeck(t)
    ensures forall i :: 0 <= i < |t| ==> t[i].value >= 1
  {
    GroupCountDistinct(ThresholdPairs(rows, x))
  }

  /** The `elegcards` table: at most one row per deck, each counting at least one card. */
  function ElegCards(cs: seq<DeckCard>, x: int): (t: seq<DeckValue>)
    ensures KeyedByDeck(t)
    ensures forall i :: 0 <= i < |t| ==> t[i].value >= 1
  {
    GroupCountDistinct(EligiblePairs(cs, x))
  }

  /** `allcards` holds, per deck, the number of distinct reviewed cards with `queue > 0`. */
  lemma AllCardsLookup(rows: seq<Reviewed>, d: string)
    ensures Lookup(AllCards(rows), d) == CountOrNull(ActiveCards(rows, d))
  {
    var ps := ActivePairs(rows);
    GroupCountDistinctLookup(ps, d);
    forall id | id in ActiveCards(rows, d) ensures id in IdsOf(ps, d) {
      var r :| r in rows && r.deckname == d && r.queue > 0 && r.cid == id;
      assert (d, id) in ps;
    }
    assert IdsOf(ps, d) == ActiveCards(rows, d);
  }

  /** `sumcards` holds, per deck, the distinct `queue > 0` cards reviewed with `lastivl > x`. */
  lemma SumCardsLookup(rows: seq<Reviewed>, x: int, d: string)
    ensures Lookup(SumCards(rows, x), d) == CountOrNull(ThresholdCards(rows, x, d))
  {
    var ps := ThresholdPairs(rows, x);
    GroupCountDistinctLookup(ps, d);
    forall id | id in ThresholdCards(rows, x, d) ensures id in IdsOf(ps, d) {
      var r :| r in rows && r.deckname == d && r.queue > 0 && r.lastivl > x && r.cid == id;
      assert (d, id) in ps;
    }
    assert IdsOf(ps, d) == ThresholdCards(rows, x, d);
  }

  /** `elegcards` holds, per deck, the distinct `queue > 0` cards with `ivl > x`. */
  lemma ElegCardsLookup(cs: seq<DeckCard>, x: int, d: string)
    ensures Lookup(ElegCards(cs, x), d) == CountOrNull(EligibleCards(cs, x, d))
  {
    var ps := EligiblePairs(cs, x);
    GroupCountDistinctLookup(ps, d);
    forall id | id in EligibleCards(cs, x, d) ensures id in IdsOf(ps, d) {
      var c :| c in cs && c.deckname == d && c.queue > 0 && c.ivl > x && c.id == id;
      assert (d, id) in ps;
    }
    assert IdsOf(ps, d) == EligibleCards(cs, x, d);
  }

  // ----- summary: count(*) group by deckname, ename, r.lastivl, r.type -----

  /** The grouping columns of `summary`. */
  datatype SummaryKey = SummaryKey(deckname: string, ename: Option<string>, lastivl: int, rtype: int)

  /** A row of `summary`: a group and its `count(*)` as `nreviews`. */
  datatype SummaryGroup = SummaryGroup(key: SummaryKey, nreviews: nat)

  function KeyOf(l: Labelled): SummaryKey
  {
    SummaryKey(l.row.deckname, l.ename, l.row.lastivl, l.row.rtype)
  }

  /** The row passes the `where r.lastivl > x and queue > 0` of `summary`. */
  predicate Qualifies(l: Labelled, x: int)
  {
    l.row.lastivl > x && l.row.queue > 0
  }

  /** The grouping key of every labelled row that passes the `where` of `summary`. */
  function SummaryKeys(ls: seq<Labelled>, x: int): seq<SummaryKey>
  {
    if ls == [] then []
    else (if Qualifies(ls[0], x) then [KeyOf(ls[0])] else []) + SummaryKeys(ls[1..], x)
  }

  function Groups(ks: seq<SummaryKey>, keys: seq<SummaryKey>): (gs: seq<SummaryGroup>)
    ensures |gs| == |ks|
    ensures forall i :: 0 <= i < |ks| ==> gs[i] == SummaryGroup(ks[i], Count(keys, ks[i]))
  {
    if ks == [] then [] else [SummaryGroup(ks[0], Count(keys, ks[0]))] + Groups(ks[1..], keys)
  }

  /**
   * The `summary` table: one group per distinct key among the qualifying
   * rows, each counting the rows with that key, so no group is empty.
   */
  function Summary(ls: seq<Labelled>, x: int): (gs: seq<SummaryGroup>)
    ensures forall i :: 0 <= i < |gs| ==> gs[i].key in SummaryKeys(ls, x)
    ensures forall k :: k in SummaryKeys(ls, x) ==> exists i :: 0 <= i < |gs| && gs[i].key == k
    ensures forall i, j :: 0 <= i < j < |gs| ==> gs[i].key != gs[j].key
    ensures forall i :: 0 <= i < |gs| ==> gs[i].nreviews == multiset(SummaryKeys(ls, x))[gs[i].key] >= 1
  {
    var keys := SummaryKeys(ls, x);
    GroupsShape(Distinct(keys), keys);
    Groups(Distinct(keys), keys)
  }

  lemma GroupsShape(ks: seq<SummaryKey>, keys: seq<SummaryKey>)
    requires ks == Distinct(keys)
    ensures forall i :: 0 <= i < |ks| ==> Groups(ks, keys)[i].key in keys
    ensures forall k :: k in keys ==> exists i :: 0 <= i < |ks| && Groups(ks, keys)[i].key == k
    ensures forall i, j :: 0 <= i < j < |ks| ==> Groups(ks, keys)[i].key != Groups(ks, keys)[j].key
    ensures forall i :: 0 <= i < |ks| ==> Groups(ks, keys)[i].nreviews == multiset(keys)[Groups(ks, keys)[i].key] >= 1
  {
    var gs := Groups(ks, keys);
    forall k | k in keys ensures exists i :: 0 <= i < |ks| && gs[i].key == k {
      var j :| 0 <= j < |keys| && keys[j] == k;
      var i :| 0 <= i < |ks| && ks[i] == k;
      assert gs[i].key == k;
    }
  }

  // ----- bad and good: sum(nreviews) of summary by outcome bucket -----

  /** `(deckname, nreviews)` of the summary groups whose label falls in bucket `b`. */
  function BucketPairs(gs: seq<SummaryGroup>, b: Bucket): (ps: seq<(string, nat)>)
    ensures (forall i :: 0 <= i < |gs| ==> gs[i].nreviews >= 1) ==> forall i :: 0 <= i < |ps| ==> ps[i].1 >= 1
  {
    if gs == [] then []
    else
      var head := if BucketOf(gs[0].key.ename) == Some(b) then [(gs[0].key.deckname, gs[0].nreviews)] else [];
      head + BucketPairs(gs[1..], b)
  }

  /**
   * The `bad` table: `sum(nreviews)` of the `review/wrong` groups, per deck;
   * at most one row per deck, and a positive sum when no group is empty.
   */
  function Bad(gs: seq<SummaryGroup>): (t: seq<DeckValue>)
    ensures KeyedByDeck(t)
    ensures (forall i :: 0 <= i < |gs| ==> gs[i].nreviews >= 1) ==> forall i :: 0 <= i < |t| ==> t[i].value >= 1
  {
    GroupSum(BucketPairs(gs, Fail))
  }

  /**
   * The `good` table: `sum(nreviews)` of the groups with any other non-NULL
   * label, per deck; at most one row per deck, and a positive sum when no
   * group is empty.
   */
  function Good(gs: seq<SummaryGroup>): (t: seq<DeckValue>)
    ensures KeyedByDeck(t)
    ensures (forall i :: 0 <= i < |gs| ==> gs[i].nreviews >= 1) ==> forall i :: 0 <= i < |t| ==> t[i].value >= 1
  {
    GroupSum(BucketPairs(gs, Pass))
  }

  /** The table of bucket `b`. */
  function BucketTable(gs: seq<SummaryGroup>, b: Bucket): seq<DeckValue>
  {
    match b
    case Pass => Good(gs)
    case Fail => Bad(gs)
  }

  /** The labelled row is one a deck's bucket-`b` sum counts at threshold `x`. */
  predicate Counted(l: Labelled, x: int, d: string, b: Bucket)
  {
    Qualifies(l, x) && l.row.deckname == d && BucketOf(l.ename) == Some(b)
  }

  /**
   * Reference definition of a bucket sum: the number of labelled rows of
   * deck `d` with `lastivl > x`, `queue > 0` and a label in bucket `b`.
   */
  function BucketCount(ls: seq<Labelled>, x: int, d: string, b: Bucket): nat
  {
    if ls == [] then 0
    else (if Counted(ls[0], x, d, b) then 1 else 0) + BucketCount(ls[1..], x, d, b)
  }

  predicate InBucket(k: SummaryKey, d: string, b: Bucket)
  {
    k.deckname == d && BucketOf(k.ename) == Some(b)
  }

  function KeyCount(keys: seq<SummaryKey>, d: string, b: Bucket): nat
  {
    if keys == [] then 0
    else (if InBucket(keys[0], d, b) then 1 else 0) + KeyCount(keys[1..], d, b)
  }

  /** The `count(*)` of each group in `ks`, summed over the groups of deck `d` in bucket `b`. */
  function SumCounts(ks: seq<SummaryKey>, keys: seq<SummaryKey>, d: string, b: Bucket): nat
  {
    if ks == [] then 0
    else (if InBucket(ks[0], d, b) then Count(keys, ks[0]) else 0) + SumCounts(ks[1..], keys, d, b)
  }

  lemma {:induction false} KeyCountOfSummaryKeys(ls: seq<Labelled>, x: int, d: string, b: Bucket)
    ensures KeyCount(SummaryKeys(ls, x), d, b) == BucketCount(ls, x, d, b)
  {
    if ls != [] {
      KeyCountOfSummaryKeys(ls[1..], x, d, b);
      var head := if Qualifies(ls[0], x) then [KeyOf(ls[0])] else [];
      KeyCountAppend(head, SummaryKeys(ls[1..], x), d, b);
    }
  }

  lemma {:induction false} KeyCountAppend(a: seq<SummaryKey>, c: seq<SummaryKey>, d: string, b: Bucket)
    ensures KeyCount(a + c, d, b) == KeyCount(a, d, b) + KeyCount(c, d, b)
  {
    if a == [] {
      assert a + c == c;
    } else {
      assert (a + c)[1..] == a[1..] + c;
      KeyCountAppend(a[1..], c, d, b);
    }
  }

  lemma {:induction false} BucketPairsSum(ks: seq<SummaryKey>, keys: seq<SummaryKey>, d: string, b: Bucket)
    ensures SumFor(BucketPairs(Groups(ks, keys), b), d) == SumCounts(ks, keys, d, b)
  {
    if ks != [] {
      var gs := Groups(ks, keys);
      assert gs[1..] == Groups(ks[1..], keys);
      BucketPairsSum(ks[1..], keys, d, b);
      var head := if BucketOf(gs[0].key.ename) == Some(b) then [(gs[0].key.deckname, gs[0].nreviews)] else [];
      SumForAppend(head, BucketPairs(gs[1..], b), d);
    }
  }

  lemma {:induction false} SumForAppend(a: seq<(string, nat)>, c: seq<(string, nat)>, d: string)
    ensures SumFor(a + c, d) == SumFor(a, d) + SumFor(c, d)
  {
    if a == [] {
      assert a + c == c;
    } else {
      assert (a + c)[1..] == a[1..] + c;
      SumForAppend(a[1..], c, d);
    }
  }

  /** Adding one row `y` in front adds one to the sum exactly when `y`'s group is summed. */
  lemma {:induction false} SumCountsCons(ks: seq<SummaryKey>, y: SummaryKey, rest: seq<SummaryKey>, d: string, b: Bucket)
    requires NoDuplicates(ks)
    ensures SumCounts(ks, [y] + rest, d, b) == SumCounts(ks, rest, d, b) + (if y in ks && InBucket(y, d, b) then 1 else 0)
  {
    if ks != [] {
      assert NoDuplicates(ks[1..]);
      SumCountsCons(ks[1..], y, rest, d, b);
      assert ([y] + rest)[1..] == rest;
      if ks[0] == y {
        assert y !in ks[1..];
      }
    }
  }

  lemma {:induction false} SumCountsNoRows(ks: seq<SummaryKey>, d: string, b: Bucket)
    ensures SumCounts(ks, [], d, b) == 0
  {
    if ks != [] {
      SumCountsNoRows(ks[1..], d, b);
    }
  }

  /** Summing the group counts over all distinct keys counts every row once. */
  lemma {:induction false} SumCountsAll(ks: seq<SummaryKey>, keys: seq<SummaryKey>, d: string, b: Bucket)
    requires NoDuplicates(ks)
    requires forall i :: 0 <= i < |keys| ==> keys[i] in ks
    ensures SumCounts(ks, keys, d, b) == KeyCount(keys, d, b)
  {
    if keys == [] {
      SumCountsNoRows(ks, d, b);
    } else {
      assert keys == [keys[0]] + keys[1..];
      SumCountsCons(ks, keys[0], keys[1..], d, b);
      SumCountsAll(ks, keys[1..], d, b);
    }
  }

  /**
   * The `good` (bucket `Pass`) and `bad` (bucket `Fail`) tables hold, per
   * deck, the number of labelled rows their reference definition counts, and
   * have no row for a deck with none.
   */
  lemma BucketLookup(ls: seq<Labelled>, x: int, d: string, b: Bucket)
    ensures Lookup(BucketTable(Summary(ls, x), b), d) == NonZero(BucketCount(ls, x, d, b))
  {
    var keys := SummaryKeys(ls, x);
    var ks := Distinct(keys);
    var gs := Summary(ls, x);
    assert gs == Groups(ks, keys);
    var pairs := BucketPairs(gs, b);
    GroupSumLookup(pairs, d);
    BucketPairsSum(ks, keys, d, b);
    SumCountsAll(ks, keys, d, b);
    KeyCountOfSummaryKeys(ls, x, d, b);
    SumForPositive(pairs, d);
  }

  // ----- the bucket sums counted per review press -----

  /** Review-join row `r` passes the `where` of `summary` and belongs to deck `d`. */
  predicate Reaches(r: Reviewed, x: int, d: string)
  {
    r.lastivl > x && r.queue > 0 && r.deckname == d
  }

  /** Reference count of bucket `b` for deck `d`: the weights of the qualifying presses. */
  function PressCount(rows: seq<Reviewed>, x: int, d: string, b: Bucket): nat
  {
    if rows == [] then 0
    else (if Reaches(rows[0], x, d) then PressWeight(rows[0].rtype, rows[0].ease, b) else 0) + PressCount(rows[1..], x, d, b)
  }

  lemma {:induction false} BucketCountAppend(a: seq<Labelled>, c: seq<Labelled>, x: int, d: string, b: Bucket)
    ensures BucketCount(a + c, x, d, b) == BucketCount(a, x, d, b) + BucketCount(c, x, d, b)
  {
    if a == [] {
      assert a + c == c;
    } else {
      assert (a + c)[1..] == a[1..] + c;
      BucketCountAppend(a[1..], c, x, d, b);
    }
  }

  lemma {:induction false} LabelEachCount(r: Reviewed, names: seq<Option<string>>, x: int, d: string, b: Bucket)
    ensures BucketCount(LabelEach(r, names), x, d, b) == if Reaches(r, x, d) then BucketLabels(names, b) else 0
  {
    if names != [] {
      assert LabelEach(r, names)[1..] == LabelEach(r, names[1..]);
      LabelEachCount(r, names[1..], x, d, b);
    }
  }

  /**
   * Counting labelled rows is counting presses by their reference weight:
   * the `natural left join button` turns each review into exactly as many
   * rows of bucket `b` as its press weighs.
   */
  lemma {:induction false} PressCountMatches(rows: seq<Reviewed>, x: int, d: string, b: Bucket)
    ensures BucketCount(ButtonJoin(rows), x, d, b) == PressCount(rows, x, d, b)
  {
    if rows != [] {
      var first := LabelEach(rows[0], Labels(rows[0].rtype, rows[0].ease));
      assert ButtonJoin(rows) == first + ButtonJoin(rows[1..]);
      BucketCountAppend(first, ButtonJoin(rows[1..]), x, d, b);
      LabelEachCount(rows[0], Labels(rows[0].rtype, rows[0].ease), x, d, b);
      LabelsWeight(rows[0].rtype, rows[0].ease, b);
      PressCountMatches(rows[1..], x, d, b);
    }
  }

  /** Raising the threshold never adds to a bucket. */
  lemma {:induction false} PressCountMonotone(rows: seq<Reviewed>, x1: int, x2: int, d: string, b: Bucket)
    requires x1 <= x2
    ensures PressCount(rows, x2, d, b) <= PressCount(rows, x1, d, b)
  {
    if rows != [] {
      PressCountMonotone(rows[1..], x1, x2, d, b);
    }
  }

  /** Raising the threshold never increases a bucket sum (NULL read as 0). */
  lemma BucketCountMonotone(rows: seq<Reviewed>, x1: int, x2: int, d: string, b: Bucket)
    requires x1 <= x2
    ensures OrZero(NonZero(BucketCount(ButtonJoin(rows), x2, d, b))) <= OrZero(NonZero(BucketCount(ButtonJoin(rows), x1, d, b)))
  {
    PressCountMatches(rows, x1, d, b);
    PressCountMatches(rows, x2, d, b);
    PressCountMonotone(rows, x1, x2, d, b);
  }

  // ----- the bucket sums counted per `revlog` entry, when ids are keys -----

  /** No two cards share an id, as `cards.id` is the table's key. */
  ghost predicate CardsKeyed(cards: seq<Card>)
  {
    forall i, j :: 0 <= i < j < |cards| ==> cards[i].id != cards[j].id
  }

  /** No two `deckinfo` rows share a deck id: each deck has one `name` node. */
  ghost predicate InfoKeyed(info: seq<DeckInfoRow>)
  {
    forall i, j :: 0 <= i < j < |info| ==> info[i].did != info[j].did
  }

  /** The first card with id `cid`, or none. */
  function CardOf(cards: seq<Card>, cid: int): (r: Option<Card>)
    ensures r.Some? ==> r.value in cards && r.value.id == cid
    ensures r.None? <==> forall c :: c in cards ==> c.id != cid
  {
    if cards == [] then None
    else if cards[0].id == cid then Some(cards[0])
    else CardOf(cards[1..], cid)
  }

  /** The first `deckinfo` row with deck id `did`, or none. */
  function DeckOf(info: seq<DeckInfoRow>, did: string): (r: Option<DeckInfoRow>)
    ensures r.Some? ==> r.value in info && r.value.did == did
    ensures r.None? <==> forall d :: d in info ==> d.did != did
  {
    if info == [] then None
    else if info[0].did == did then Some(info[0])
    else DeckOf(info[1..], did)
  }

  /**
   * Review `r` is one a deck-`d` sum counts at threshold `x`: its card
   * exists and is in the queue, its card's deck is named `d`, and it was
   * answered at an interval above `x`.
   */
  predicate Tallied(r: Review, cards: seq<Card>, info: seq<DeckInfoRow>, x: int, d: string)
  {
    match CardOf(cards, r.cid)
    case None => false
    case Some(c) =>
      match DeckOf(info, c.did)
      case None => false
      case Some(deck) => deck.deckname == d && c.queue > 0 && r.lastivl > x
  }

  /** Reference count of bucket `b` for deck `d`, over `revlog`: the weights of its tallied presses. */
  function RevlogPressCount(revlog: seq<Review>, cards: seq<Card>, info: seq<DeckInfoRow>, x: int, d: string, b: Bucket): nat
  {
    if revlog == [] then 0
    else
      var r := revlog[0];
      (if Tallied(r, cards, info, x, d) then PressWeight(r.rtype, r.ease, b) else 0) + RevlogPressCount(revlog[1..], cards, info, x, d, b)
  }

  /** A card whose deck id no `deckinfo` row has meets none. */
  lemma {:induction false} JoinDeckNone(r: Review, c: Card, info: seq<DeckInfoRow>)
    requires forall d :: d in info ==> d.did != c.did
    ensures JoinDeck(r, c, info) == []
  {
    if info != [] {
      JoinDeckNone(r, c, info[1..]);
    }
  }

  /** A review whose card id no card has meets none. */
  lemma {:induction false} JoinCardNone(r: Review, cards: seq<Card>, info: seq<DeckInfoRow>)
    requires forall c :: c in cards ==> c.id != r.cid
    ensures JoinCard(r, cards, info) == []
  {
    if cards != [] {
      JoinCardNone(r, cards[1..], info);
    }
  }

  /** With deck ids keyed, a card meets its deck's one `deckinfo` row, or none. */
  lemma {:induction false} JoinDeckKeyed(r: Review, c: Card, info: seq<DeckInfoRow>)
    requires InfoKeyed(info)
    ensures JoinDeck(r, c, info) == match DeckOf(info, c.did)
      case None => []
      case Some(deck) => [ReviewedRow(r, c, deck)]
  {
    if info != [] {
      var tail := JoinDeck(r, c, info[1..]);
      if info[0].did == c.did {
        forall d | d in info[1..] ensures d.did != c.did {
          var k :| 0 <= k < |info[1..]| && info[1..][k] == d;
          assert info[k + 1] == d;
        }
        JoinDeckNone(r, c, info[1..]);
      } else {
        JoinDeckKeyed(r, c, info[1..]);
      }
    }
  }

  /** With card ids keyed, a review meets its one card, or none. */
  lemma {:induction false} JoinCardKeyed(r: Review, cards: seq<Card>, info: seq<DeckInfoRow>)
    requires CardsKeyed(cards)
    ensures JoinCard(r, cards, info) == match CardOf(cards, r.cid)
      case None => []
      case Some(c) => JoinDeck(r, c, info)
  {
    if cards != [] {
      var tail := JoinCard(r, cards[1..], info);
      if cards[0].id == r.cid {
        forall c | c in cards[1..] ensures c.id != r.cid {
          var k :| 0 <= k < |cards[1..]| && cards[1..][k] == c;
          assert cards[k + 1] == c;
        }
        JoinCardNone(r, cards[1..], info);
      } else {
        JoinCardKeyed(r, cards[1..], info);
      }
    }
  }

  lemma {:induction false} PressCountAppend(a: seq<Reviewed>, c: seq<Reviewed>, x: int, d: string, b: Bucket)
    ensures PressCount(a + c, x, d, b) == PressCount(a, x, d, b) + PressCount(c, x, d, b)
  {
    if a == [] {
      assert a + c == c;
    } else {
      assert (a + c)[1..] == a[1..] + c;
      PressCountAppend(a[1..], c, x, d, b);
    }
  }

  /**
   * When card ids and deck ids are keys, the review join yields at most one
   * row per `revlog` entry, so a bucket counts each tallied press once by
   * its weight: `good` and `bad` are counts over `revlog` itself.
   */
  lemma {:induction false} PressCountByRevlog(revlog: seq<Review>, cards: seq<Card>, info: seq<DeckInfoRow>, x: int, d: string, b: Bucket)
    requires CardsKeyed(cards) && InfoKeyed(info)
    ensures PressCount(ReviewJoin(revlog, cards, info), x, d, b) == RevlogPressCount(revlog, cards, info, x, d, b)
  {
    if revlog != [] {
      var r := revlog[0];
      var first := JoinCard(r, cards, info);
      PressCountAppend(first, ReviewJoin(revlog[1..], cards, info), x, d, b);
      PressCountByRevlog(revlog[1..], cards, info, x, d, b);
      JoinCardKeyed(r, cards, info);
      match CardOf(cards, r.cid)
      case None =>
      case Some(c) =>
        JoinDeckKeyed(r, c, info);
        match DeckOf(info, c.did)
        case None =>
        case Some(deck) =>
          assert first == [ReviewedRow(r, c, deck)];
          assert first[1..] == [];
    }
  }
}
