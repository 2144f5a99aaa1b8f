/**
 * The relational building blocks of the report: occurrence counts,
 * duplicate removal, per-deck aggregate tables (`select deckname, <agg>
 * ... group by deckname`) and the lookup a left join on `deckname` performs.
 */
module Relational {
  import opened SqlFunctions

  /** How many times `x` occurs in `s`: `count(*)` of a group. */
  function Count<T(==)>(s: seq<T>, x: T): (n: nat)
    ensures n == multiset(s)[x]
  {
    if s == [] then 0
    else
      assert s == [s[0]] + s[1..];
      (if s[0] == x then 1 else 0) + Count(s[1..], x)
  }

  ghost predicate NoDuplicates<T>(s: seq<T>)
  {
    forall i, j :: 0 <= i < j < |s| ==> s[i] != s[j]
  }

  /** The distinct elements of `s`: the groups a `group by` forms. */
  function Distinct<T(==)>(s: seq<T>): (r: seq<T>)
    ensures NoDuplicates(r)
    ensures forall i :: 0 <= i < |r| ==> r[i] in s
    ensures forall i :: 0 <= i < |s| ==> s[i] in r
    ensures |r| <= |s|
  {
    if s == [] then []
    else
      var rest := Distinct(s[1..]);
      if s[0] in rest then rest else [s[0]] + rest
  }

  // ----- positions of matching rows, for counting join rows with multiplicity -----

  /** Some element of a non-empty set. */
  lemma PickOne(ks: set<nat>) returns (y: nat)
    requires ks != {}
    ensures y in ks
  {
    y :| y in ks;
  }

  /** Positions in a sequence's tail, renumbered as positions in the whole sequence. */
  function Shift(ks: set<nat>): set<nat>
  {
    set k | k in ks :: k + 1
  }

  lemma ShiftSize(ks: set<nat>)
    ensures |Shift(ks)| == |ks|
    decreases |ks|
  {
    if ks != {} {
      var y := PickOne(ks);
      ShiftSize(ks - {y});
      assert Shift(ks) == Shift(ks - {y}) + {y + 1} by {
        forall z ensures z in Shift(ks) <==> z in Shift(ks - {y}) + {y + 1} {
          if z in Shift(ks) {
            var k :| k in ks && z == k + 1;
            assert k == y || k in ks - {y};
          }
          if z in Shift(ks - {y}) {
            var k :| k in ks - {y} && z == k + 1;
            assert k in ks;
          }
          if z == y + 1 {
            assert y in ks;
          }
        }
      }
    }
  }

  /** Position 0 when `b` holds, and no position otherwise. */
  function AtZero(b: bool): set<nat>
  {
    if b then {0} else {}
  }

  /** Adding position 0 to renumbered tail positions adds one position exactly when `b` holds. */
  lemma AtZeroShiftSize(b: bool, tail: set<nat>)
    ensures |AtZero(b) + Shift(tail)| == (if b then 1 else 0) + |tail|
  {
    ShiftSize(tail);
    assert 0 !in Shift(tail);
    if b {
      assert |{0} + Shift(tail)| == 1 + |Shift(tail)|;
    } else {
      assert AtZero(b) + Shift(tail) == Shift(tail);
    }
  }

  /** The positions at which `marks` holds. */
  function Marked(marks: seq<bool>): set<nat>
  {
    set k: nat | k < |marks| && marks[k]
  }

  /** Counting marked positions one element at a time. */
  lemma MarkedStep(marks: seq<bool>)
    requires marks != []
    ensures |Marked(marks)| == (if marks[0] then 1 else 0) + |Marked(marks[1..])|
  {
    var tail := Marked(marks[1..]);
    forall k: nat ensures k in Marked(marks) <==> k in AtZero(marks[0]) + Shift(tail) {
      if k == 0 {
        assert 0 !in Shift(tail);
      } else if k < |marks| {
        assert marks[1..][k - 1] == marks[k];
        assert k - 1 in tail <==> marks[k];
        assert k in Shift(tail) <==> k - 1 in tail;
      }
    }
    assert Marked(marks) == AtZero(marks[0]) + Shift(tail);
    AtZeroShiftSize(marks[0], tail);
  }

  /** Position pairs whose first component indexes a sequence's tail, renumbered for the whole sequence. */
  function ShiftPairs(ps: set<(int, int)>): set<(int, int)>
  {
    set p | p in ps :: (p.0 + 1, p.1)
  }

  lemma ShiftPairsSize(ps: set<(int, int)>)
    ensures |ShiftPairs(ps)| == |ps|
    decreases |ps|
  {
    if ps != {} {
      var y :| y in ps;
      ShiftPairsSize(ps - {y});
      assert ShiftPairs(ps) == ShiftPairs(ps - {y}) + {(y.0 + 1, y.1)};
    }
  }

  /** Position triples whose first component indexes a sequence's tail, renumbered for the whole sequence. */
  function ShiftTriples(ts: set<(int, int, int)>): set<(int, int, int)>
  {
    set t | t in ts :: (t.0 + 1, t.1, t.2)
  }

  lemma ShiftTriplesSize(ts: set<(int, int, int)>)
    ensures |ShiftTriples(ts)| == |ts|
    decreases |ts|
  {
    if ts != {} {
      var y :| y in ts;
      ShiftTriplesSize(ts - {y});
      assert ShiftTriples(ts) == ShiftTriples(ts - {y}) + {(y.0 + 1, y.1, y.2)};
    }
  }

  /** Positions paired with position 0 of an outer sequence. */
  function AtFirst(ks: set<nat>): set<(int, int)>
  {
    set k | k in ks :: (0, k)
  }

  lemma AtFirstSize(ks: set<nat>)
    ensures |AtFirst(ks)| == |ks|
    decreases |ks|
  {
    if ks != {} {
      var y := PickOne(ks);
      AtFirstSize(ks - {y});
      assert AtFirst(ks) == AtFirst(ks - {y}) + {(0, y)};
    }
  }

  /** Position pairs extended with position 0 of an outer sequence. */
  function PairsAtFirst(ps: set<(int, int)>): set<(int, int, int)>
  {
    set p | p in ps :: (0, p.0, p.1)
  }

  lemma PairsAtFirstSize(ps: set<(int, int)>)
    ensures |PairsAtFirst(ps)| == |ps|
    decreases |ps|
  {
    if ps != {} {
      var y :| y in ps;
      PairsAtFirstSize(ps - {y});
      assert PairsAtFirst(ps) == PairsAtFirst(ps - {y}) + {(0, y.0, y.1)};
    }
  }

  /** A row of a per-deck aggregate: `select deckname, <aggregate> ... group by deckname`. */
  datatype DeckValue = DeckValue(deckname: string, value: nat)

  function Decks(t: seq<DeckValue>): (ds: seq<string>)
    ensures |ds| == |t|
    ensures forall i :: 0 <= i < |t| ==> ds[i] == t[i].deckname
  {
    if t == [] then [] else [t[0].deckname] + Decks(t[1..])
  }

  /** Each deck has at most one row, as `group by deckname` guarantees. */
  ghost predicate KeyedByDeck(t: seq<DeckValue>)
  {
    NoDuplicates(Decks(t))
  }

  /** The value a join on `deckname` finds for `d` in `t`: the first matching row's, or NULL. */
  function Lookup(t: seq<DeckValue>, d: string): (r: Option<nat>)
    ensures r.Some? <==> d in Decks(t)
    ensures r.Some? ==> DeckValue(d, r.value) in t
  {
    if t == [] then None
    else if t[0].deckname == d then Some(t[0].value)
    else
      assert Decks(t) == [t[0].deckname] + Decks(t[1..]);
      Lookup(t[1..], d)
  }

  /** In a table keyed by deck, the row of `d` is the one a lookup of `d` finds. */
  lemma {:induction false} LookupKeyed(t: seq<DeckValue>, d: string, v: nat)
    requires KeyedByDeck(t)
    requires DeckValue(d, v) in t
    ensures Lookup(t, d) == Some(v)
  {
    var i :| 0 <= i < |t| && t[i] == DeckValue(d, v);
    if t[0].deckname == d {
      assert Decks(t)[0] == Decks(t)[i];
    } else {
      assert Decks(t[1..]) == Decks(t)[1..];
      assert t[1..][i - 1] == t[i];
      LookupKeyed(t[1..], d, v);
    }
  }

  /** The first components of `pairs`: the deck of every row fed to an aggregate. */
  function Firsts<V>(pairs: seq<(string, V)>): (ds: seq<string>)
    ensures |ds| == |pairs|
    ensures forall i :: 0 <= i < |pairs| ==> ds[i] == pairs[i].0
  {
    if pairs == [] then [] else [pairs[0].0] + Firsts(pairs[1..])
  }

  /** The ids `count(distinct id)` counts for deck `d`. */
  function IdsOf(pairs: seq<(string, int)>, d: string): set<int>
  {
    set p | p in pairs && p.0 == d :: p.1
  }

  function CountDistinctRows(ds: seq<string>, pairs: seq<(string, int)>): (t: seq<DeckValue>)
    ensures Decks(t) == ds
    ensures forall i :: 0 <= i < |t| ==> t[i].value == |IdsOf(pairs, ds[i])|
  {
    if ds == [] then []
    else [DeckValue(ds[0], |IdsOf(pairs, ds[0])|)] + CountDistinctRows(ds[1..], pairs)
  }

  /** `select deckname, count(distinct id) from pairs group by deckname`: no group is empty. */
  function GroupCountDistinct(pairs: seq<(string, int)>): (t: seq<DeckValue>)
    ensures KeyedByDeck(t)
    ensures forall i :: 0 <= i < |t| ==> t[i].value >= 1
  {
    var ds := Distinct(Firsts(pairs));
    assert forall i :: 0 <= i < |ds| ==> IdsOf(pairs, ds[i]) != {} by {
      forall i | 0 <= i < |ds| ensures IdsOf(pairs, ds[i]) != {} {
        var k :| 0 <= k < |pairs| && Firsts(pairs)[k] == ds[i];
        assert pairs[k].1 in IdsOf(pairs, ds[i]);
      }
    }
    CountDistinctRows(ds, pairs)
  }

  /**
   * A deck has a row in the `count(distinct id)` table exactly when some pair
   * names it, and the row holds the number of distinct ids paired with it.
   */
  lemma GroupCountDistinctLookup(pairs: seq<(string, int)>, d: string)
    ensures Lookup(GroupCountDistinct(pairs), d) ==
      if IdsOf(pairs, d) == {} then None else Some(|IdsOf(pairs, d)|)
  {
    var ds := Distinct(Firsts(pairs));
    var t := GroupCountDistinct(pairs);
    if d in Firsts(pairs) {
      var k :| 0 <= k < |pairs| && pairs[k].0 == d;
      assert pairs[k].1 in IdsOf(pairs, d);
      var i :| 0 <= i < |ds| && ds[i] == d;
      assert t[i] == DeckValue(d, |IdsOf(pairs, d)|);
      LookupKeyed(t, d, |IdsOf(pairs, d)|);
    } else {
      assert Decks(t) == ds;
    }
  }

  /** The sum of the values paired with deck `d`. */
  function SumFor(pairs: seq<(string, nat)>, d: string): nat
  {
    if pairs == [] then 0
    else (if pairs[0].0 == d then pairs[0].1 else 0) + SumFor(pairs[1..], d)
  }

  /** When every summed value is at least 1, a deck's sum is positive exactly when a pair names it. */
  lemma {:induction false} SumForPositive(pairs: seq<(string, nat)>, d: string)
    requires forall i :: 0 <= i < |pairs| ==> pairs[i].1 >= 1
    ensures SumFor(pairs, d) > 0 <==> d in Firsts(pairs)
  {
    if pairs != [] {
      SumForPositive(pairs[1..], d);
      assert Firsts(pairs) == [pairs[0].0] + Firsts(pairs[1..]);
    }
  }

  function SumRows(ds: seq<string>, pairs: seq<(string, nat)>): (t: seq<DeckValue>)
    ensures Decks(t) == ds
    ensures forall i :: 0 <= i < |t| ==> t[i].value == SumFor(pairs, ds[i])
  {
    if ds == [] then []
    else [DeckValue(ds[0], SumFor(pairs, ds[0]))] + SumRows(ds[1..], pairs)
  }

  /** `select deckname, sum(n) from pairs group by deckname`: positive sums when every `n` is. */
  function GroupSum(pairs: seq<(string, nat)>): (t: seq<DeckValue>)
    ensures KeyedByDeck(t)
    ensures (forall i :: 0 <= i < |pairs| ==> pairs[i].1 >= 1) ==> forall i :: 0 <= i < |t| ==> t[i].value >= 1
  {
    var ds := Distinct(Firsts(pairs));
    assert (forall i :: 0 <= i < |pairs| ==> pairs[i].1 >= 1) ==> forall i :: 0 <= i < |ds| ==> SumFor(pairs, ds[i]) >= 1 by {
      if forall i :: 0 <= i < |pairs| ==> pairs[i].1 >= 1 {
        forall i | 0 <= i < |ds| ensures SumFor(pairs, ds[i]) >= 1 {
          SumForPositive(pairs, ds[i]);
        }
      }
    }
    SumRows(ds, pairs)
  }

  /** A deck has a row in the `sum` table exactly when some pair names it, holding its sum. */
  lemma GroupSumLookup(pairs: seq<(string, nat)>, d: string)
    ensures Lookup(GroupSum(pairs), d) == if d in Firsts(pairs) then Some(SumFor(pairs, d)) else None
  {
    var ds := Distinct(Firsts(pairs));
    var t := GroupSum(pairs);
    if d in Firsts(pairs) {
      var i :| 0 <= i < |ds| && ds[i] == d;
      assert t[i] == DeckValue(d, SumFor(pairs, d));
      LookupKeyed(t, d, SumFor(pairs, d));
    }
  }
}
