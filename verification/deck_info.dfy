/**
 * The `deckinfo` table: deck id and deck name read off the flattened deck
 * JSON that `json_tree(col.decks)` produces.
 */
module DeckInfo {
  import opened SqlFunctions
  import opened Relational

  /** A row of `json_tree(col.decks)`: the node's path, its own key and its value. */
  datatype JsonNode = JsonNode(fullkey: string, key: string, value: string)

  /** A row of `deckinfo`: the deck's name, its id text and the path it was read from. */
  datatype DeckInfoRow = DeckInfoRow(deckname: string, did: string, fullkey: string)

  /** The path with its first two characters (the root marker `$.`) dropped. */
  function AfterRoot(fullkey: string): string
  {
    fullkey[Min(2, |fullkey|)..]
  }

  /**
   * `substr(substr(fullkey, 3), 0, instr(substr(fullkey, 3), '.'))`: the
   * text after the first two characters up to, not including, the next `.`,
   * and empty when no `.` follows.
   */
  function DidOf(fullkey: string): (did: string)
    ensures '.' !in did
    ensures did <= AfterRoot(fullkey)
    ensures '.' in AfterRoot(fullkey) ==> |did| < |AfterRoot(fullkey)| && AfterRoot(fullkey)[|did|] == '.'
    ensures '.' !in AfterRoot(fullkey) ==> did == []
  {
    var rest := Substr(fullkey, 3);
    SubstrLen(rest, 0, Instr(rest, '.'))
  }

  /** The path of the `name` node of the top-level deck `id` recovers `id`. */
  lemma DidOfNamePath(id: string, tail: string)
    requires '.' !in id
    ensures DidOf("$." + id + "." + tail) == id
  {
    var a := id + "." + tail;
    var fk := "$." + id + "." + tail;
    assert fk == "$." + a;
    assert AfterRoot(fk) == a;
    var did := DidOf(fk);
    assert forall i :: 0 <= i < |id| ==> a[i] == id[i];
    assert a[|id|] == '.';
    assert did == a[..|did|];
  }

  function RowOf(n: JsonNode): DeckInfoRow
  {
    DeckInfoRow(n.value, DidOf(n.fullkey), n.fullkey)
  }

  /** Node `n` is a `name` node and gives `row`. */
  predicate Gives(n: JsonNode, row: DeckInfoRow)
  {
    n.key == "name" && RowOf(n) == row
  }

  /** For each node, whether it is a `name` node giving `row`. */
  function NameMarks(nodes: seq<JsonNode>, row: DeckInfoRow): (m: seq<bool>)
    ensures |m| == |nodes|
    ensures forall k :: 0 <= k < |m| ==> m[k] == Gives(nodes[k], row)
  {
    seq(|nodes|, k requires 0 <= k < |nodes| => Gives(nodes[k], row))
  }

  /** The positions of the `name` nodes that give `row`. */
  function NameHits(nodes: seq<JsonNode>, row: DeckInfoRow): set<nat>
  {
    Marked(NameMarks(nodes, row))
  }

  lemma NameHitsStep(nodes: seq<JsonNode>, row: DeckInfoRow)
    requires nodes != []
    ensures |NameHits(nodes, row)| == (if Gives(nodes[0], row) then 1 else 0) + |NameHits(nodes[1..], row)|
  {
    var m := NameMarks(nodes, row);
    assert m[1..] == NameMarks(nodes[1..], row) by {
      forall k | 0 <= k < |m| - 1 ensures m[1..][k] == NameMarks(nodes[1..], row)[k] {
        assert nodes[1..][k] == nodes[k + 1];
      }
    }
    MarkedStep(m);
  }

  /**
   * `select value as deckname, <did> as did, fullkey ... where key = 'name'`:
   * one row per node keyed `name`, in node order, so two nodes that give the
   * same row give it twice.
   */
  function DeckInfoTable(nodes: seq<JsonNode>): (t: seq<DeckInfoRow>)
    ensures |t| <= |nodes|
    ensures forall n :: n in nodes && n.key == "name" ==> RowOf(n) in t
    ensures forall row :: row in t ==> exists n :: n in nodes && n.key == "name" && row == RowOf(n)
    ensures forall row :: Count(t, row) == |NameHits(nodes, row)|
  {
    if nodes == [] then
      assert forall row :: NameHits(nodes, row) == {};
      []
    else
      assert forall row :: (|NameHits(nodes, row)| ==
        (if Gives(nodes[0], row) then 1 else 0) + |NameHits(nodes[1..], row)|) by {
        forall row ensures |NameHits(nodes, row)| ==
          (if Gives(nodes[0], row) then 1 else 0) + |NameHits(nodes[1..], row)| {
          NameHitsStep(nodes, row);
        }
      }
      (if nodes[0].key == "name" then [RowOf(nodes[0])] else []) + DeckInfoTable(nodes[1..])
  }
}
