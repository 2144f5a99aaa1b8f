/**
 * The final select of the retirement report: `allcards` left-joined with
 * `elegcards`, `sumcards`, `good` and `bad` on `deckname`, the `prop`
 * column, and the `order by good*1.0/(good + bad)`.
 */
module Report {
  import opened SqlFunctions
  import opened Relational
  import opened DeckInfo
  import opened Classifier
  import opened Aggregates

  /** The three collections the report reads, as one consistent snapshot. */
  datatype Snapshot = Snapshot(nodes: seq<JsonNode>, cards: seq<Card>, revlog: seq<Review>)

  function Info(s: Snapshot): seq<DeckInfoRow>
  {
    DeckInfoTable(s.nodes)
  }

  function ReviewRows(s: Snapshot): seq<Reviewed>
  {
    ReviewJoin(s.revlog, s.cards, Info(s))
  }

  function LabelledRows(s: Snapshot): seq<Labelled>
  {
    ButtonJoin(ReviewRows(s))
  }

  function DeckCards(s: Snapshot): seq<DeckCard>
  {
    CardJoin(s.cards, Info(s))
  }

  /** A row of the final join: the deck, its `allcards` count and the four left-joined aggregates. */
  datatype ReportRow = ReportRow(
    deckname: string,
    allcards: nat,
    elegible: Option<nat>,
    ncards: Option<nat>,
    good: Option<nat>,
    bad: Option<nat>)

  /** The columns the left joins fill in. */
  datatype Column = ElegibleColumn | NCardsColumn | GoodColumn | BadColumn

  function With(row: ReportRow, col: Column, v: Option<nat>): ReportRow
  {
    match col
    case ElegibleColumn => row.(elegible := v)
    case NCardsColumn => row.(ncards := v)
    case GoodColumn => row.(good := v)
    case BadColumn => row.(bad := v)
  }

  /** `from allcards`: one row per `allcards` row, the joined columns still NULL. */
  function Seed(t: seq<DeckValue>): (rows: seq<ReportRow>)
    ensures |rows| == |t|
    ensures forall i :: 0 <= i < |t| ==> rows[i] == ReportRow(t[i].deckname, t[i].value, None, None, None, None)
  {
    if t == [] then [] else [ReportRow(t[0].deckname, t[0].value, None, None, None, None)] + Seed(t[1..])
  }

  /** The values of the rows of `t` for deck `d`, in table order. */
  function MatchValues(t: seq<DeckValue>, d: string): (vs: seq<nat>)
    ensures vs == [] <==> d !in Decks(t)
  {
    if t == [] then []
    else
      assert Decks(t) == [t[0].deckname] + Decks(t[1..]);
      (if t[0].deckname == d then [t[0].value] else []) + MatchValues(t[1..], d)
  }

  /** In a table keyed by deck, a deck matches its one row or none. */
  lemma {:induction false} MatchValuesKeyed(t: seq<DeckValue>, d: string)
    requires KeyedByDeck(t)
    ensures MatchValues(t, d) == if d in Decks(t) then [Lookup(t, d).value] else []
  {
    if t != [] {
      assert Decks(t) == [t[0].deckname] + Decks(t[1..]);
      assert KeyedByDeck(t[1..]);
      if t[0].deckname == d {
        assert d !in Decks(t[1..]);
      } else {
        MatchValuesKeyed(t[1..], d);
      }
    }
  }

  function WithEach(row: ReportRow, col: Column, vs: seq<nat>): (rows: seq<ReportRow>)
    ensures |rows| == |vs|
  {
    if vs == [] then [] else [With(row, col, Some(vs[0]))] + WithEach(row, col, vs[1..])
  }

  /**
   * `rows left join t using (deckname)`, filling column `col`: a row meets
   * every row of `t` for its deck, and is kept once with a NULL when there
   * is none, so no row is lost.
   */
  function LeftJoin(rows: seq<ReportRow>, t: seq<DeckValue>, col: Column): (out: seq<ReportRow>)
    ensures |out| >= |rows|
  {
    if rows == [] then []
    else
      var vs := MatchValues(t, rows[0].deckname);
      (if vs == [] then [With(rows[0], col, None)] else WithEach(rows[0], col, vs)) + LeftJoin(rows[1..], t, col)
  }

  /** Against a table keyed by deck, one left row yields exactly one row, filled by lookup. */
  lemma LeftJoinOne(row: ReportRow, t: seq<DeckValue>, col: Column)
    requires KeyedByDeck(t)
    ensures LeftJoin([row], t, col) == [With(row, col, Lookup(t, row.deckname))]
  {
    MatchValuesKeyed(t, row.deckname);
    var vs := MatchValues(t, row.deckname);
    if vs != [] {
      assert WithEach(row, col, vs) == [With(row, col, Some(vs[0]))] + WithEach(row, col, []);
    }
    assert [row][1..] == [];
  }

  /** Each row with column `col` set to the value a lookup of its deck in `t` finds. */
  function FillByLookup(rows: seq<ReportRow>, t: seq<DeckValue>, col: Column): (out: seq<ReportRow>)
    ensures |out| == |rows|
    ensures forall i :: 0 <= i < |rows| ==> out[i] == With(rows[i], col, Lookup(t, rows[i].deckname))
  {
    if rows == [] then [] else [With(rows[0], col, Lookup(t, rows[0].deckname))] + FillByLookup(rows[1..], t, col)
  }

  /** Left-joining a table keyed by deck keeps one row per left row, filled by lookup. */
  lemma {:induction false} LeftJoinKeyed(rows: seq<ReportRow>, t: seq<DeckValue>, col: Column)
    requires KeyedByDeck(t)
    ensures LeftJoin(rows, t, col) == FillByLookup(rows, t, col)
  {
    if rows != [] {
      LeftJoinKeyed(rows[1..], t, col);
      LeftJoinOne(rows[0], t, col);
      assert LeftJoin(rows, t, col) == LeftJoin([rows[0]], t, col) + LeftJoin(rows[1..], t, col) by {
        assert [rows[0]][1..] == [];
      }
    }
  }

  /** The row the four left joins build from an `allcards` row `e`. */
  function Filled(e: DeckValue, t1: seq<DeckValue>, t2: seq<DeckValue>, t3: seq<DeckValue>, t4: seq<DeckValue>): ReportRow
  {
    var d := e.deckname;
    ReportRow(d, e.value, Lookup(t1, d), Lookup(t2, d), Lookup(t3, d), Lookup(t4, d))
  }

  /** Four left joins with tables keyed by deck fill each seed row by lookup and keep the row count. */
  lemma JoinChain(all: seq<DeckValue>, t1: seq<DeckValue>, t2: seq<DeckValue>, t3: seq<DeckValue>, t4: seq<DeckValue>)
    requires KeyedByDeck(t1) && KeyedByDeck(t2) && KeyedByDeck(t3) && KeyedByDeck(t4)
    ensures var out := LeftJoin(LeftJoin(LeftJoin(LeftJoin(Seed(all), t1, ElegibleColumn), t2, NCardsColumn), t3, GoodColumn), t4, BadColumn);
      |out| == |all| && forall i :: 0 <= i < |all| ==> out[i] == Filled(all[i], t1, t2, t3, t4)
  {
    var r0 := Seed(all);
    var r1 := LeftJoin(r0, t1, ElegibleColumn);
    var r2 := LeftJoin(r1, t2, NCardsColumn);
    var r3 := LeftJoin(r2, t3, GoodColumn);
    LeftJoinKeyed(r0, t1, ElegibleColumn);
    LeftJoinKeyed(r1, t2, NCardsColumn);
    LeftJoinKeyed(r2, t3, GoodColumn);
    LeftJoinKeyed(r3, t4, BadColumn);
  }

  /**
   * The final join, before ordering: since every joined table has at most
   * one row per deck, it keeps exactly the `allcards` rows, in order, with
   * their decks and counts.
   */
  function ReportRows(s: Snapshot, x: int): (rows: seq<ReportRow>)
    ensures |rows| == |AllCards(ReviewRows(s))|
    ensures forall i :: 0 <= i < |rows| ==>
      rows[i].deckname == AllCards(ReviewRows(s))[i].deckname && rows[i].allcards == AllCards(ReviewRows(s))[i].value
  {
    var reviewed := ReviewRows(s);
    var summary := Summary(LabelledRows(s), x);
    var seed := Seed(AllCards(reviewed));
    var withEligible := LeftJoin(seed, ElegCards(DeckCards(s), x), ElegibleColumn);
    var withNCards := LeftJoin(withEligible, SumCards(reviewed, x), NCardsColumn);
    var withGood := LeftJoin(withNCards, Good(summary), GoodColumn);
    JoinChain(AllCards(reviewed), ElegCards(DeckCards(s), x), SumCards(reviewed, x), Good(summary), Bad(summary));
    LeftJoin(withGood, Bad(summary), BadColumn)
  }

  /** An exact non-negative rational `num / den`. */
  datatype Ratio = Ratio(num: nat, den: nat)

  /**
   * `good*1.0/(good + bad)`, the ordering key: `bad` is not coalesced, so a
   * NULL on either side gives NULL, as does a divisor of 0.
   */
  function OrderKey(row: ReportRow): (k: Option<Ratio>)
    ensures k.Some? ==> k.value.den > 0
  {
    if row.good.Some? && row.bad.Some? && row.good.value + row.bad.value > 0 then
      Some(Ratio(row.good.value, row.good.value + row.bad.value))
    else None
  }

  /**
   * `good*1.00/(good+coalesce(bad, 0))`, the `prop` column, before
   * formatting: NULL when `good` is, otherwise the share of `good` among
   * `good` and `bad`; it agrees with the ordering key whenever `bad` is not
   * NULL.
   */
  function Prop(row: ReportRow): (p: Option<Ratio>)
    ensures row.good.None? ==> p.None?
    ensures row.good.Some? && row.good.value > 0 ==> p.Some?
    ensures p.Some? ==> p.value.num == row.good.value && p.value.num <= p.value.den && p.value.den > 0
    ensures row.bad.Some? ==> p == OrderKey(row)
  {
    match row.good
    case None => None
    case Some(g) =>
      var den := g + Coalesce(row.bad, 0);
      if den == 0 then None else Some(Ratio(g, den))
  }

  /** Ascending SQLite order on the key: NULL before every number, numbers by value. */
  predicate KeyLe(a: Option<Ratio>, b: Option<Ratio>)
  {
    match a
    case None => true
    case Some(p) => b.Some? && p.num * b.value.den <= b.value.num * p.den
  }

  lemma KeyLeTotal(a: Option<Ratio>, b: Option<Ratio>)
    ensures KeyLe(a, b) || KeyLe(b, a)
  {
  }

  lemma MulLe(a: nat, b: nat, c: nat)
    requires a <= b
    ensures a * c <= b * c
  {
  }

  lemma MulSwap(a: nat, b: nat, c: nat)
    ensures (a * b) * c == (a * c) * b
  {
  }

  /** A positive factor can be cancelled from both sides of `<=`. */
  lemma MulCancel(a: nat, b: nat, c: nat)
    requires c > 0 && a * c <= b * c
    ensures a <= b
  {
  }

  /** `pn/pd <= qn/qd` and `qn/qd <= rn/rd`, as cross products, give `pn/pd <= rn/rd` when `qd > 0`. */
  lemma {:induction false} CrossTransitive(pn: nat, pd: nat, qn: nat, qd: nat, rn: nat, rd: nat)
    requires qd > 0
    requires pn * qd <= qn * pd && qn * rd <= rn * qd
    ensures pn * rd <= rn * pd
  {
    MulLe(pn * qd, qn * pd, rd);
    MulLe(qn * rd, rn * qd, pd);
    MulSwap(pn, qd, rd);
    MulSwap(qn, pd, rd);
    MulSwap(rn, qd, pd);
    MulCancel(pn * rd, rn * pd, qd);
  }

  /** Comparing by cross-multiplication is transitive through a key with a positive denominator. */
  lemma KeyLeTransitive(a: Option<Ratio>, b: Option<Ratio>, c: Option<Ratio>)
    requires b.Some? ==> b.value.den > 0
    requires KeyLe(a, b) && KeyLe(b, c)
    ensures KeyLe(a, c)
  {
    if a.Some? {
      var p, q, r := a.value, b.value, c.value;
      CrossTransitive(p.num, p.den, q.num, q.den, r.num, r.den);
    }
  }

  /** A row of the result: the joined columns and `prop`. */
  datatype OutputRow = OutputRow(deck: ReportRow, prop: Option<Ratio>)

  function Project(rows: seq<ReportRow>): (out: seq<OutputRow>)
    ensures |out| == |rows|
    ensures forall i :: 0 <= i < |rows| ==> out[i] == OutputRow(rows[i], Prop(rows[i]))
  {
    if rows == [] then [] else [OutputRow(rows[0], Prop(rows[0]))] + Project(rows[1..])
  }

  function Names(s: seq<OutputRow>): (ns: seq<string>)
    ensures |ns| == |s|
    ensures forall i :: 0 <= i < |s| ==> ns[i] == s[i].deck.deckname
  {
    if s == [] then [] else [s[0].deck.deckname] + Names(s[1..])
  }

  /** Rows in ascending order of the ordering key. */
  ghost predicate Sorted(s: seq<OutputRow>)
  {
    forall i, j :: 0 <= i < j < |s| ==> KeyLe(OrderKey(s[i].deck), OrderKey(s[j].deck))
  }

  /** Inserting into a sorted sequence keeps it sorted and adds exactly the one row. */
  function Insert(o: OutputRow, s: seq<OutputRow>): (r: seq<OutputRow>)
    requires Sorted(s)
    ensures Sorted(r)
    ensures multiset(r) == multiset(s) + multiset{o}
  {
    if s == [] then [o]
    else if KeyLe(OrderKey(o.deck), OrderKey(s[0].deck)) then
      assert forall j :: 0 <= j < |s| ==> KeyLe(OrderKey(o.deck), OrderKey(s[j].deck)) by {
        forall j | 0 <= j < |s| ensures KeyLe(OrderKey(o.deck), OrderKey(s[j].deck)) {
          if j > 0 {
            KeyLeTransitive(OrderKey(o.deck), OrderKey(s[0].deck), OrderKey(s[j].deck));
          }
        }
      }
      assert s == [s[0]] + s[1..];
      [o] + s
    else
      var rest := Insert(o, s[1..]);
      KeyLeTotal(OrderKey(o.deck), OrderKey(s[0].deck));
      assert s == [s[0]] + s[1..];
      assert forall e :: e in rest ==> KeyLe(OrderKey(s[0].deck), OrderKey(e.deck)) by {
        forall e | e in rest ensures KeyLe(OrderKey(s[0].deck), OrderKey(e.deck)) {
          assert e in multiset(rest);
          if e != o {
            assert e in s[1..];
          }
        }
      }
      [s[0]] + rest
  }

  /** Insertion sort by the ordering key. */
  function Sort(s: seq<OutputRow>): (r: seq<OutputRow>)
    ensures Sorted(r)
    ensures multiset(r) == multiset(s)
  {
    if s == [] then []
    else
      assert s == [s[0]] + s[1..];
      Insert(s[0], Sort(s[1..]))
  }

  /** Putting a row of a new deck in front keeps deck names distinct. */
  lemma ConsNamesDistinct(h: OutputRow, t: seq<OutputRow>)
    requires NoDuplicates(Names(t))
    requires h.deck.deckname !in Names(t)
    ensures NoDuplicates(Names([h] + t))
  {
    assert Names([h] + t) == [h.deck.deckname] + Names(t);
  }

  /** Inserting a row whose deck is new keeps deck names distinct. */
  lemma InsertKeepsNamesDistinct(o: OutputRow, s: seq<OutputRow>)
    requires Sorted(s)
    requires NoDuplicates(Names(s))
    requires o.deck.deckname !in Names(s)
    ensures NoDuplicates(Names(Insert(o, s)))
  {
    if s == [] {
      assert Insert(o, s) == [o];
    } else if KeyLe(OrderKey(o.deck), OrderKey(s[0].deck)) {
      assert Insert(o, s) == [o] + s;
      ConsNamesDistinct(o, s);
    } else {
      var rest := Insert(o, s[1..]);
      assert Names(s) == [s[0].deck.deckname] + Names(s[1..]);
      InsertKeepsNamesDistinct(o, s[1..]);
      forall k | 0 <= k < |rest| ensures Names(rest)[k] != s[0].deck.deckname {
        assert rest[k] in multiset(rest);
        if rest[k] != o {
          var m :| 0 <= m < |s[1..]| && s[1..][m] == rest[k];
          assert Names(s)[m + 1] == rest[k].deck.deckname;
        }
      }
      assert Insert(o, s) == [s[0]] + rest;
      ConsNamesDistinct(s[0], rest);
    }
  }

  /** Sorting keeps deck names distinct. */
  lemma SortKeepsNamesDistinct(s: seq<OutputRow>)
    requires NoDuplicates(Names(s))
    ensures NoDuplicates(Names(Sort(s)))
  {
    if s != [] {
      assert Names(s) == [s[0].deck.deckname] + Names(s[1..]);
      SortKeepsNamesDistinct(s[1..]);
      var sorted := Sort(s[1..]);
      forall k | 0 <= k < |sorted| ensures Names(sorted)[k] != s[0].deck.deckname {
        assert sorted[k] in multiset(sorted);
        var m :| 0 <= m < |s[1..]| && s[1..][m] == sorted[k];
        assert Names(s)[m + 1] == sorted[k].deck.deckname;
      }
      InsertKeepsNamesDistinct(s[0], sorted);
    }
  }

  /** The rows `RetirementInterval.results` returns for threshold `x`. */
  function Results(s: Snapshot, x: int): (out: seq<OutputRow>)
    ensures Sorted(out)
    ensures multiset(out) == multiset(Project(ReportRows(s, x)))
  {
    Sort(Project(ReportRows(s, x)))
  }
}
