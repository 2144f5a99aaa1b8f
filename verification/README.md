# Retirement interval report, modelled in Dafny

The retirement-interval add-on answers one question for each deck of a
spaced-repetition collection: when a card's review interval has grown
beyond a threshold X, do reviews of such cards still pass? This helps decide
whether those cards can be retired. `RetirementInterval.results` computes
the answer as one SQLite statement over three inputs:

- the deck JSON, flattened by `json_tree`;
- `cards`;
- `revlog`.

X is bound to all three placeholders of the statement.

This project models that statement as pure functions over sequences of
immutable records and proves what the report promises. The modules follow
the statement's structure:

| module | file | what it models |
|---|---|---|
| `SqlFunctions` | `sql_functions.dfy` | NULL as `Option`, plus `coalesce`, `substr` (both arities) and `instr` |
| `DeckInfo` | `deck_info.dfy` | The `deckinfo` table: each deck's name and its id text, cut out of the JSON path |
| `Classifier` | `classifier.dfy` | The 14-row `button` table, seen as a relation, and the split of its labels into pass and fail |
| `Relational` | `relational.dfy` | `count(*)`, `group by`, `count(distinct …)`, `sum`, and the lookup a join on `deckname` performs |
| `Aggregates` | `aggregates.dfy` | The joins, the CTEs `summary`, `sumcards`, `allcards`, `elegcards`, `bad` and `good`, and a reference definition for each |
| `Report` | `report.dfy` | The left joins driven by `allcards`, the `prop` ratio and the `order by` |
| `Properties` | `properties.dfy` | Report-level guarantees: one row per deck, each column against its reference definition, bounds, monotonicity in X, and ordering |

Each aggregate has a partner: an independent reference definition of the
same quantity. Examples are the set of distinct active reviewed card ids of
a deck, or the weighted count of qualifying presses. A lemma proves that the
SQL-shaped computation and its reference agree for all inputs.
`Properties.Describes` gathers these references for one output row, and
`Properties.ResultsDescribe` proves that every row of `Results` satisfies it.

Modelling choices:

- The natural left join with `button` keys on the review kind and the ease.
  The model takes that review kind from `revlog.type`, carried as
  `Review.rtype`. Both `revlog` and `cards` have a `type` column, and this
  model does not settle which one SQLite would use. Taking `revlog.type` is
  an assumption.
- `cards.did` is an integer and `deckinfo.did` is text. SQLite compares them
  after type affinity. The model holds both as text and compares for
  equality.
- In SQL, the `order by` leaves the order of equal keys open. `Results` is
  therefore specified by two things: it is sorted by the key, and it is a
  permutation of the joined rows. Insertion sort is one order that meets
  this.
- `prop` and the ordering key are exact rationals, not floating point. A
  NULL is `None`.
- Nothing in the statement forces card ids or deck ids to be unique. The
  general lemmas count joined rows with multiplicity. The lemmas that count
  over `revlog` itself assume unique card ids (`Aggregates.CardsKeyed`) and
  unique deck ids (`Aggregates.InfoKeyed`), and say so in their `requires`.

## Model

| member | source | states |
|---|---|---|
| SqlFunctions.Substr | retirementInterval.py:62 | Two-argument `substr`: a positive start counts from 1, a start of 0 keeps the whole text, and a negative start keeps that many trailing characters |
| SqlFunctions.SubstrLen | retirementInterval.py:62 | Three-argument `substr`: the result never exceeds the length. A start of 0 takes one character fewer from the front. A negative start counts from the end |
| SqlFunctions.Instr | retirementInterval.py:62 | `instr` gives the 1-based position of the first occurrence, or 0 exactly when the character is absent |
| DeckInfo.DidOf | retirementInterval.py:62 | The `did` is a prefix of the path after its first two characters. It contains no `.`, stops just before the first `.` that follows, and is empty when no `.` follows |
| DeckInfo.DidOfNamePath | retirementInterval.py:62 | Round trip: the path `$.<id>.<rest>` of a deck's node gives back `<id>` for every dot-free id |
| DeckInfo.DeckInfoTable | retirementInterval.py:60-64 | `deckinfo` has a row for each node keyed `name`, carrying the node's value as `deckname`, and no row from any other node. Each row occurs once per `name` node that gives it |
| Classifier.MatchFromMembers | retirementInterval.py:72-75 | The table scan finds exactly the labels of the rows keyed (type, ease), and finds none exactly when no row has that key |
| Classifier.Labels | retirementInterval.py:82 | The natural left join pairs a review with every label its key has in `button`, or with a single NULL when the key has none |
| Classifier.EaseOneIsWrong | retirementInterval.py:72-75 | Every `button` row for ease 1 has a label ending in `/wrong` |
| Classifier.ReviewWrongIsUnique | retirementInterval.py:72-75 | Exactly one `button` row, (1, 1), carries `review/wrong` |
| Classifier.DuplicateKeyLabels | retirementInterval.py:72-75 | The key (0, 2) is paired with both `learn/ok` and `relearn/easy`, and both are passes |
| Classifier.MappedKeys | retirementInterval.py:72-75 | The table covers learn 1-3, review 1-4, relearn 1-2 and cram 1-4, and no other key |
| Classifier.SingleLabel | retirementInterval.py:72-75 | A key found at exactly one row of `button` is given exactly that row's label |
| Classifier.LabelCount | retirementInterval.py:72-75 | Each key gets one label from the join, except (0, 2), which gets two |
| Classifier.BucketOf | retirementInterval.py:107-115 | A label goes to `bad` exactly when SQL's `ename in ('review/wrong')` is true, and to `good` exactly when `ename not in ('review/wrong')` is true. A NULL label makes both NULL, so it goes to neither |
| Classifier.FailOnlyForReviewAgain | retirementInterval.py:107-110 | A review reaches the `bad` sum exactly when it is a review-phase press of ease 1. Learn, relearn and cram failures never do |
| Classifier.LabelsWeight | retirementInterval.py:107-115 | The labels the table gives a press fall into `good` and `bad` with exactly the press's reference weight |
| Relational.Count | retirementInterval.py:81 | `count(*)` of a group is the number of times its key occurs among the rows |
| Relational.Distinct | retirementInterval.py:85 | `group by` forms each key that occurs among the rows exactly once, and forms no other key |
| Relational.Lookup | retirementInterval.py:120-121 | A join on `deckname` finds a value exactly when the table has a row for the deck, and that value is the row's |
| Relational.LookupKeyed | retirementInterval.py:120-121 | In a table grouped by deck, the row of a deck is the one the join finds |
| Relational.GroupCountDistinct | retirementInterval.py:94-98 | A `count(distinct …) group by deckname` table has at most one row per deck |
| Relational.GroupCountDistinctLookup | retirementInterval.py:94-98 | Such a table has a row for a deck exactly when some input row names it, and the row holds that deck's number of distinct ids |
| Relational.SumForPositive | retirementInterval.py:112-115 | When every summed count is at least 1, a deck's sum is positive exactly when some group names it |
| Relational.GroupSum | retirementInterval.py:107-115 | A `sum … group by deckname` table has at most one row per deck |
| Relational.GroupSumLookup | retirementInterval.py:112-115 | Such a table has a row for a deck exactly when some group names it, and the row holds that deck's sum |
| Aggregates.JoinDeck | retirementInterval.py:90 | The join on `did` pairs a card with exactly the `deckinfo` rows that have its deck id. Each joined row occurs once per `deckinfo` position that produces it |
| Aggregates.JoinCard | retirementInterval.py:90 | The join on `r.cid = c.id` pairs a review with exactly the matching cards, and each card with its decks. Each joined row occurs once per (card, deck) position pair that produces it |
| Aggregates.ReviewJoin | retirementInterval.py:90 | A joined row exists exactly for each review, card and deck that meet both join conditions. It occurs once per (review, card, deck) position triple that produces it |
| Aggregates.CardOf | retirementInterval.py:90 | The card a review's `cid` finds has that id. No card is found exactly when no card has the id |
| Aggregates.DeckOf | retirementInterval.py:90 | The `deckinfo` row a card's `did` finds has that id. No row is found exactly when no row has the id |
| Aggregates.JoinDeckNone | retirementInterval.py:90 | A card whose deck id no `deckinfo` row has joins with nothing |
| Aggregates.JoinCardNone | retirementInterval.py:90 | A review whose card id no card has joins with nothing |
| Aggregates.JoinDeckKeyed | retirementInterval.py:90 | When deck ids are distinct, a card joins exactly its one deck, or nothing |
| Aggregates.JoinCardKeyed | retirementInterval.py:90 | When card ids are distinct, a review joins exactly its one card and that card's decks, or nothing |
| Aggregates.CardDecks | retirementInterval.py:103 | A card is paired with exactly the `deckinfo` rows that have its deck id |
| Aggregates.CardJoin | retirementInterval.py:103 | `cards join deckinfo using (did)` has a row exactly for each card and deck with matching ids |
| Aggregates.ButtonJoin | retirementInterval.py:82 | The left join with `button` keeps every joined review, and pairs each one with exactly the labels of its key |
| Aggregates.ActivePairs | retirementInterval.py:97 | The rows `allcards` counts are exactly the joined reviews whose card has `queue > 0` |
| Aggregates.ThresholdPairs | retirementInterval.py:91 | The rows `sumcards` counts are exactly the joined reviews with `lastivl > X` whose card has `queue > 0` |
| Aggregates.EligiblePairs | retirementInterval.py:104 | The rows `elegcards` counts are exactly the deck cards with `ivl > X` and `queue > 0` |
| Aggregates.AllCards | retirementInterval.py:94-98 | `allcards` has at most one row per deck, and every row counts at least one card |
| Aggregates.SumCards | retirementInterval.py:88-92 | `sumcards` has at most one row per deck, and every row counts at least one card |
| Aggregates.ElegCards | retirementInterval.py:101-105 | `elegcards` has at most one row per deck, and every row counts at least one card |
| Aggregates.AllCardsLookup | retirementInterval.py:94-98 | `allcards` gives each deck its number of distinct reviewed cards with `queue > 0`, and has no row for a deck with none |
| Aggregates.SumCardsLookup | retirementInterval.py:88-92 | `sumcards` gives each deck its number of distinct cards with `queue > 0` reviewed at `lastivl > X`, or NULL when there are none |
| Aggregates.ElegCardsLookup | retirementInterval.py:101-105 | `elegcards` gives each deck its number of distinct cards with `queue > 0` and `ivl > X`, or NULL when there are none |
| Aggregates.Summary | retirementInterval.py:80-86 | `summary` has one group per distinct (deck, label, lastivl, type) among the qualifying rows, and no other group. Each group's `nreviews` is the number of its rows, so it is at least 1 |
| Aggregates.BucketPairs | retirementInterval.py:107-115 | The groups fed to `good` and `bad` each carry a count of at least 1 |
| Aggregates.Bad | retirementInterval.py:107-110 | `bad` has at most one row per deck. When no `summary` group is empty, every sum is at least 1 |
| Aggregates.Good | retirementInterval.py:112-115 | `good` has at most one row per deck. When no `summary` group is empty, every sum is at least 1 |
| Aggregates.BucketLookup | retirementInterval.py:107-115 | `good` and `bad` give each deck its number of qualifying labelled rows that pass, or that fail, and have no row for a deck with none |
| Aggregates.PressCountMatches | retirementInterval.py:82 | Counting labelled rows equals weighing each qualifying review press by its reference weight. A (0, 2) press counts twice |
| Aggregates.PressCountByRevlog | retirementInterval.py:80-90 | When card ids and deck ids are distinct, a bucket's press count over the joined rows equals the sum, over `revlog` entries whose card is active, in deck `d` and answered above X, of each entry's weight |
| Aggregates.PressCountMonotone | retirementInterval.py:84 | Raising X never increases a bucket's press count |
| Aggregates.BucketCountMonotone | retirementInterval.py:107-115 | Raising X never increases a deck's `good` or `bad` (NULL read as 0) |
| Aggregates.ThresholdWithinActive | retirementInterval.py:88-98 | A deck's `sumcards` cards are among its `allcards` cards |
| Aggregates.CardSetsMonotone | retirementInterval.py:88-105 | Raising X never increases the `sumcards` or `elegcards` count (NULL read as 0) |
| Report.Seed | retirementInterval.py:120 | The rows start as one per `allcards` row, with every joined column NULL |
| Report.MatchValues | retirementInterval.py:120-121 | A left-joined table offers no match for a deck exactly when it has no row for that deck |
| Report.LeftJoin | retirementInterval.py:120-121 | A left join loses no row |
| Report.LeftJoinOne | retirementInterval.py:120-121 | Against a table grouped by deck, one left row yields exactly one row, holding the deck's value or NULL |
| Report.LeftJoinKeyed | retirementInterval.py:120-121 | With a table grouped by deck, a left join keeps exactly one row per left row. That row is filled with the deck's value, or NULL |
| Report.JoinChain | retirementInterval.py:120-121 | The four left joins keep one row per `allcards` row, filled by deck lookup |
| Report.ReportRows | retirementInterval.py:117-121 | The joined rows follow `allcards` one for one and in order. Each keeps its `allcards` row's deck and count |
| Report.OrderKey | retirementInterval.py:122 | A non-NULL ordering key has a positive denominator |
| Report.Prop | retirementInterval.py:118 | `prop` is NULL when `good` is, and not NULL when `good` is positive. A non-NULL `prop` has `good` as numerator and lies in [0, 1]. When `bad` is not NULL it equals the ordering key |
| Report.KeyLeTotal | retirementInterval.py:122 | Any two keys are comparable in the `order by` order |
| Report.KeyLeTransitive | retirementInterval.py:122 | The `order by` order, with NULL first and rationals compared by cross-multiplication, is transitive |
| Report.Project | retirementInterval.py:117-119 | Each output row is a joined row plus its `prop` |
| Report.Insert | retirementInterval.py:122 | Inserting into rows sorted by the key keeps them sorted and adds exactly the one row |
| Report.Sort | retirementInterval.py:122 | The sort returns the same rows, ordered ascending by the key |
| Report.InsertKeepsNamesDistinct | retirementInterval.py:122 | Inserting a row for a new deck keeps the decks distinct |
| Report.SortKeepsNamesDistinct | retirementInterval.py:122 | Ordering does not duplicate a deck |
| Report.Results | retirementInterval.py:117-122 | The result is exactly the joined rows with their `prop`, ordered ascending by `good/(good+bad)` with NULL keys first |
| Properties.FilledDescribes | retirementInterval.py:94-115 | The row built for an `allcards` deck carries that deck's reference value in every column |
| Properties.ReportRowsDescribe | retirementInterval.py:94-121 | The joined rows follow `allcards` one for one, and each carries its deck's reference values |
| Properties.ResultsDescribe | retirementInterval.py:117-122 | Every result row carries its deck's reference values, and a `prop` computed from them |
| Properties.PermutedNames | retirementInterval.py:122 | Reordering the rows keeps the same decks |
| Properties.ProjectedNames | retirementInterval.py:117-121 | Before ordering, the rows name the `allcards` decks in order |
| Properties.AllCardsDecks | retirementInterval.py:94-98 | `allcards` has a row for exactly the decks with a reviewed `queue > 0` card |
| Properties.ResultNamesDistinct | retirementInterval.py:94-122 | No deck has two result rows |
| Properties.ResultNamesActive | retirementInterval.py:94-122 | A deck has a result row exactly when it has a reviewed `queue > 0` card |
| Properties.OneRowPerDeck | retirementInterval.py:94-121 | The result has exactly one row per deck with a reviewed `queue > 0` card, and no other row |
| Properties.RowOfDeck | retirementInterval.py:94-121 | A deck with a reviewed active card has a row carrying its reference values |
| Properties.BucketsByPress | retirementInterval.py:107-115 | `bad` counts the deck's qualifying review-phase ease-1 presses. `good` counts each other covered press once and a (0, 2) press twice. Either is NULL when it counts none |
| Properties.BucketsByRevlog | retirementInterval.py:107-115 | When card ids and deck ids are distinct, `good` and `bad` are weighted counts over the deck's own `revlog` entries, NULL when zero |
| Properties.NCardsWithinAllCards | retirementInterval.py:88-98 | No deck's `ncards` exceeds its `allcards` |
| Properties.DescribedMonotone | retirementInterval.py:80-115 | For one deck, raising X keeps `allcards` and never raises the other four counts |
| Properties.ThresholdKeepsDecks | retirementInterval.py:94-98 | The set of decks in the result does not depend on X |
| Properties.ThresholdMonotone | retirementInterval.py:80-115 | Raising X keeps each deck's `allcards` and never raises its `elegible`, `ncards`, `good` or `bad` (NULL read as 0) |
| Properties.RowRatios | retirementInterval.py:117-122 | For a row whose `good` is NULL or positive, `prop` is NULL exactly when `good` is, and otherwise is good/(good + coalesce(bad, 0)). The key is NULL exactly when `good` or `bad` is |
| Properties.PropBounds | retirementInterval.py:117-119 | `prop` is NULL exactly when `good` is. Otherwise it is good/(good + coalesce(bad, 0)), which lies in (0, 1] |
| Properties.NullKeysFirstIn | retirementInterval.py:122 | In rows sorted by the key, rows with a NULL key come before all others. A row with passes and no failures has `prop` 1 and a NULL key |
| Properties.NullKeysFirst | retirementInterval.py:122 | The key is NULL exactly when `good` or `bad` is, and such rows come first. A deck with passes and no failures has `prop` 1 but a NULL key |
| Properties.EligibleCanExceedAllCards | retirementInterval.py:94-105 | On a concrete collection, a deck shows one card in `allcards` but two eligible cards |
| Properties.UnreviewedDeckHasNoRow | retirementInterval.py:94-121 | On a concrete collection, a deck whose only active card was never reviewed has no row |

## Where the columns depart from their headers

The report names its columns in an HTML header (retirementInterval.py:137-146),
and comments its CTEs (retirementInterval.py:87-115). In several places the
query computes something other than what those names say. The model follows
the query. Each point below names the members that show it.

- **"Active cards in deck"** (retirementInterval.py:139) and the comment
  "all cards in the review queue" (retirementInterval.py:93). `allcards`
  joins `revlog`, so it counts only active cards that have been reviewed.
  - A deck whose active cards were never reviewed has no row at all:
    `Properties.UnreviewedDeckHasNoRow` shows one, and
    `Properties.OneRowPerDeck` states the rule.
  - "Eligible cards to retire" (retirementInterval.py:140) counts every
    active card above X, so it can exceed "Active cards in deck":
    `Properties.EligibleCanExceedAllCards` shows a deck with 1 and 2.
- **"Cards Passed"** and **"Cards Failed"** (retirementInterval.py:143, 145)
  and the comments "passed reviews" and "failed reviews"
  (retirementInterval.py:111, 106). `good` and `bad` sum `nreviews`, so they
  count button presses, not cards (`Properties.BucketsByPress`,
  `Properties.BucketsByRevlog`).
  - A press with key (0, 2) counts twice under "Cards Passed", because
    `button` gives that key two labels (`Classifier.DuplicateKeyLabels`,
    `Classifier.LabelCount`).
  - `bad` admits only `review/wrong` (retirementInterval.py:109). A learn,
    relearn or cram press of ease 1 is therefore counted under "Cards
    Passed" (`Classifier.FailOnlyForReviewAgain`).
  - A press whose (type, ease) has no `button` row gets a NULL label. It is
    counted in neither column, because `ename not in (...)` is NULL for it
    (retirementInterval.py:114, `Classifier.BucketOf`).
- **"Button pressed Pass"** and **"Button pressed Fail"**
  (retirementInterval.py:142, 144) show the bare `ename` of `good` and `bad`.
  That is one label picked from the group, not a count. It is listed under
  "Left out".
- **"Proportion passed"** (retirementInterval.py:146, 118). `prop` is NULL
  exactly when `good` is (`Properties.PropBounds`), and `printf('%.2f', NULL)`
  prints `0.00`. A deck with no passing press therefore shows `0.00`, whether
  or not it has failing ones. The text formatting itself is left out.
- **Ordering** (retirementInterval.py:122). `good + bad` is not coalesced.
  A deck with passes and no failures has `prop` 1.00 but a NULL key, so it
  sorts first, among the decks with a NULL `good`, not last
  (`Properties.NullKeysFirst`).

## Left out

- The `commit`/`begin` transaction handling and the drop/create/insert of
  `button` and `deckinfo` (retirementInterval.py:42-76). These are effects
  on the host database. The model takes the tables as values.
- `json_tree(col.decks)`. JSON parsing belongs to SQLite's JSON extension.
  Its output is an input sequence of (`fullkey`, `key`, `value`) nodes, all
  held as text.
- Floating point and `printf('%.2f', …)`. `prop` and the ordering key are
  exact rationals. SQLite prints a NULL `prop` as `0.00`, and that text
  formatting is not modelled.
- The bare `ease` and `ename` columns selected under `group by` in `summary`
  and `good`. Their value is whichever row SQLite picks. Only the counts are
  modelled.
- Which `type` column the natural join with `button` uses. The model takes
  it from `revlog`, as described above.
- SQLite's numeric type affinity between `cards.did` and `deckinfo.did`.
  Deck ids are compared as text.
- `bad` groups by (`deckname`, `ename`). Its `where` admits a single
  `ename`, so this grouping is the same as grouping by `deckname`, and it is
  modelled that way.
- SqlFunctions.SubstrLen: takes only a non-negative length. SQLite's
  negative-length form is left out because the source passes a value of
  `instr`, which is never negative.
- DeckInfo.DidOfNamePath: assumes `json_tree` writes a numeric object label
  unquoted in `fullkey` (`$.1.name`), and so does the sample collection in
  `Properties`. SQLite versions that quote such labels (`$."1".name`) would
  give a `did` with quotes. Those versions make `cards.did` match no
  `deckinfo.did`. This model does not cover them.
- The user interface (retirementInterval.py:21-35, retirementInterval.py:128-205):
  Qt dialog, web view, HTML table and add-on configuration. It is
  presentation only.
