/**
 * The static `button` table that names a review's outcome from its review
 * kind and the ease button pressed, and the pass/fail split the report
 * makes on those names.
 */
module Classifier {
  import opened SqlFunctions

  /** A row of `button`: review kind, ease button and outcome label. */
  datatype Button = Button(btype: int, ease: int, ename: string)

  /** The one label the report counts as a failure. */
  const ReviewWrong: string := "review/wrong"

  /**
   * The fourteen rows inserted into `button`. The key (0, 2) occurs twice:
   * once as `learn/ok` and once as `relearn/easy`.
   */
  const ButtonTable: seq<Button> := [
    Button(0, 1, "learn/wrong"), Button(0, 2, "learn/ok"), Button(0, 3, "learn/easy"),
    Button(1, 1, "review/wrong"), Button(1, 2, "review/hard"), Button(1, 3, "review/ok"), Button(1, 4, "review/easy"),
    Button(2, 1, "relearn/wrong"), Button(2, 2, "relearn/ok"), Button(0, 2, "relearn/easy"),
    Button(3, 1, "cram/wrong"), Button(3, 2, "cram/hard"), Button(3, 3, "cram/ok"), Button(3, 4, "cram/easy")
  ]

  /** There is a row `(t, ease, l)` in the table. */
  predicate InTable(t: int, ease: int, l: string)
  {
    exists j :: 0 <= j < |ButtonTable| && ButtonTable[j] == Button(t, ease, l)
  }

  /** No row of the table is keyed `(t, ease)`. */
  predicate Unmapped(t: int, ease: int)
  {
    forall j :: 0 <= j < |ButtonTable| ==> !(ButtonTable[j].btype == t && ButtonTable[j].ease == ease)
  }

  /** The labels of the rows keyed `(t, ease)` from row `i` on, in table order. */
  function MatchFrom(i: nat, t: int, ease: int): seq<string>
    requires i <= |ButtonTable|
    decreases |ButtonTable| - i
  {
    if i == |ButtonTable| then []
    else if ButtonTable[i].btype == t && ButtonTable[i].ease == ease then [ButtonTable[i].ename] + MatchFrom(i + 1, t, ease)
    else MatchFrom(i + 1, t, ease)
  }

  /** `MatchFrom` collects exactly the labels of the matching rows from `i` on. */
  lemma {:induction false} MatchFromMembers(i: nat, t: int, ease: int, l: string)
    requires i <= |ButtonTable|
    ensures l in MatchFrom(i, t, ease) <==> exists j :: i <= j < |ButtonTable| && ButtonTable[j] == Button(t, ease, l)
    ensures MatchFrom(i, t, ease) == [] <==>
      forall j :: i <= j < |ButtonTable| ==> !(ButtonTable[j].btype == t && ButtonTable[j].ease == ease)
    decreases |ButtonTable| - i
  {
    if i < |ButtonTable| {
      MatchFromMembers(i + 1, t, ease, l);
    }
  }

  function SomeEach(ls: seq<string>): (r: seq<Option<string>>)
    ensures |r| == |ls|
    ensures forall i :: 0 <= i < |ls| ==> r[i] == Some(ls[i])
  {
    if ls == [] then [] else [Some(ls[0])] + SomeEach(ls[1..])
  }

  /**
   * The `ename` values `natural left join button` pairs with a review of
   * kind `t` answered with `ease`: one per matching row of the table, or a
   * single NULL when no row matches.
   */
  function Labels(t: int, ease: int): (r: seq<Option<string>>)
    ensures |r| >= 1
    ensures forall l :: Some(l) in r <==> InTable(t, ease, l)
    ensures None in r <==> r == [None]
    ensures r == [None] <==> Unmapped(t, ease)
  {
    var m := MatchFrom(0, t, ease);
    MatchFromMembers(0, t, ease, "");
    assert forall l :: l in m <==> InTable(t, ease, l) by {
      forall l ensures l in m <==> InTable(t, ease, l) {
        MatchFromMembers(0, t, ease, l);
      }
    }
    if m == [] then [None]
    else
      var r := SomeEach(m);
      assert forall l :: Some(l) in r <==> l in m by {
        forall l ensures Some(l) in r <==> l in m {
          if l in m {
            var i :| 0 <= i < |m| && m[i] == l;
            assert r[i] == Some(l);
          }
        }
      }
      r
  }

  /** The two sums the report keeps: `good` (pass) and `bad` (fail). */
  datatype Bucket = Pass | Fail

  /**
   * Which sum a label falls in: `bad` keeps the rows where
   * `ename in ('review/wrong')` holds and `good` those where
   * `ename not in ('review/wrong')` holds, so a NULL label is in neither.
   */
  function BucketOf(ename: Option<string>): (r: Option<Bucket>)
    ensures r == Some(Fail) <==> Holds(InList(ename, [ReviewWrong]))
    ensures r == Some(Pass) <==> Holds(Not(InList(ename, [ReviewWrong])))
  {
    match ename
    case None => None
    case Some(l) => if l == ReviewWrong then Some(Fail) else Some(Pass)
  }

  predicate EndsWith(s: string, suffix: string)
  {
    |suffix| <= |s| && s[|s| - |suffix|..] == suffix
  }

  /** Every row for the first ease button carries a label ending in `/wrong`. */
  lemma EaseOneIsWrong()
    ensures forall j :: 0 <= j < |ButtonTable| && ButtonTable[j].ease == 1 ==> EndsWith(ButtonTable[j].ename, "/wrong")
  {
  }

  /** Exactly one row, the fourth, (1, 1), carries `review/wrong`. */
  lemma ReviewWrongIsUnique()
    ensures forall j :: 0 <= j < |ButtonTable| && ButtonTable[j].ename == ReviewWrong ==> j == 3
    ensures ButtonTable[3] == Button(1, 1, ReviewWrong)
  {
  }

  /**
   * A review of kind `t` with ease `ease` is paired with a failure label
   * exactly when it is a review-phase press of the first button; learn,
   * relearn and cram failures never reach the failure sum.
   */
  lemma FailOnlyForReviewAgain(t: int, ease: int)
    ensures (exists l :: l in Labels(t, ease) && BucketOf(l) == Some(Fail)) <==> t == 1 && ease == 1
  {
    ReviewWrongIsUnique();
    if t == 1 && ease == 1 {
      assert InTable(t, ease, ReviewWrong);
      assert Some(ReviewWrong) in Labels(t, ease);
    }
  }

  /**
   * The duplicated key (0, 2) pairs a review with both `learn/ok` and
   * `relearn/easy`, and both land in the pass sum.
   */
  lemma DuplicateKeyLabels()
    ensures Labels(0, 2) == [Some("learn/ok"), Some("relearn/easy")]
    ensures forall l :: l in Labels(0, 2) ==> BucketOf(l) == Some(Pass)
  {
    assert MatchFrom(0, 0, 2) == ["learn/ok", "relearn/easy"];
  }

  /** The keys the table is meant to cover: learn 1-3, review 1-4, relearn 1-2, cram 1-4. */
  predicate Mapped(t: int, ease: int)
  {
    || (t == 0 && 1 <= ease <= 3)
    || (t == 1 && 1 <= ease <= 4)
    || (t == 2 && 1 <= ease <= 2)
    || (t == 3 && 1 <= ease <= 4)
  }

  /** The keys the table covers; every other key is paired with a single NULL. */
  lemma MappedKeys(t: int, ease: int)
    ensures !Unmapped(t, ease) <==> Mapped(t, ease)
  {
    var j := if t == 0 then ease - 1 else if t == 1 then ease + 2 else if t == 2 then ease + 6 else ease + 9;
    if 0 <= j < |ButtonTable| && ButtonTable[j].btype == t && ButtonTable[j].ease == ease {
      assert !Unmapped(t, ease);
    }
  }

  /** Row `j` of the table is keyed `(t, ease)`. */
  predicate KeyAt(j: int, t: int, ease: int)
    requires 0 <= j < |ButtonTable|
  {
    ButtonTable[j].btype == t && ButtonTable[j].ease == ease
  }

  /** The scan passes over rows `i` to `k` when none of them is keyed `(t, ease)`. */
  lemma {:induction false} MatchFromSkip(i: nat, k: nat, t: int, ease: int)
    requires i <= k <= |ButtonTable|
    requires forall j :: i <= j < k ==> !KeyAt(j, t, ease)
    ensures MatchFrom(i, t, ease) == MatchFrom(k, t, ease)
    decreases k - i
  {
    if i < k {
      assert !KeyAt(i, t, ease);
      assert MatchFrom(i, t, ease) == MatchFrom(i + 1, t, ease);
      MatchFromSkip(i + 1, k, t, ease);
    }
  }

  /** A key found at row `p` and nowhere else gets exactly that row's label. */
  lemma SingleLabel(p: nat, t: int, ease: int)
    requires p < |ButtonTable| && KeyAt(p, t, ease)
    requires forall j :: 0 <= j < |ButtonTable| && j != p ==> !KeyAt(j, t, ease)
    ensures MatchFrom(0, t, ease) == [ButtonTable[p].ename]
  {
    MatchFromSkip(0, p, t, ease);
    MatchFromSkip(p + 1, |ButtonTable|, t, ease);
  }

  /** Every key is paired with one label, except (0, 2), which is paired with two. */
  lemma LabelCount(t: int, ease: int)
    ensures |Labels(t, ease)| == if t == 0 && ease == 2 then 2 else 1
  {
    MappedKeys(t, ease);
    if t == 0 && ease == 2 {
      DuplicateKeyLabels();
    } else if Mapped(t, ease) {
      var p := if t == 0 then ease - 1 else if t == 1 then ease + 2 else if t == 2 then ease + 6 else ease + 9;
      assert forall j :: 0 <= j < |ButtonTable| && j != p ==> !KeyAt(j, t, ease);
      SingleLabel(p, t, ease);
    }
  }

  /** How many of `names` fall in bucket `b`. */
  function BucketLabels(names: seq<Option<string>>, b: Bucket): nat
  {
    if names == [] then 0
    else (if BucketOf(names[0]) == Some(b) then 1 else 0) + BucketLabels(names[1..], b)
  }

  /**
   * Reference weights of one press: a review-phase press of the first button
   * is one failure; a press of (0, 2) is two passes, because of the
   * duplicated key; every other covered press is one pass; an uncovered
   * press counts nowhere.
   */
  function PressWeight(t: int, ease: int, b: Bucket): nat
  {
    match b
    case Fail => if t == 1 && ease == 1 then 1 else 0
    case Pass =>
      if t == 0 && ease == 2 then 2
      else if Mapped(t, ease) && !(t == 1 && ease == 1) then 1
      else 0
  }

  /** The labels the table pairs with a press carry exactly its reference weight in each bucket. */
  lemma LabelsWeight(t: int, ease: int, b: Bucket)
    ensures BucketLabels(Labels(t, ease), b) == PressWeight(t, ease, b)
  {
    var r := Labels(t, ease);
    MappedKeys(t, ease);
    LabelCount(t, ease);
    if t == 0 && ease == 2 {
      DuplicateKeyLabels();
    } else if Unmapped(t, ease) {
      assert r == [None];
    } else {
      assert r == [r[0]];
      FailOnlyForReviewAgain(t, ease);
      if t == 1 && ease == 1 {
        var l :| l in r && BucketOf(l) == Some(Fail);
        assert r[0] == l;
      } else {
        assert BucketOf(r[0]) != Some(Fail);
        assert None !in r;
        assert BucketOf(r[0]) == Some(Pass);
      }
    }
  }
}
