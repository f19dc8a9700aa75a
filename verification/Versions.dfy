/** Tables of versions and the newest-first search over them. */
module Versions {

  /**
   * Keys enter these modules only through their order and equality, so they are integers here;
   * `Bytes.Rank` embeds the byte strings of the source into the integers in lexicographic order.
   */
  type Key = int

  datatype Option<+T> = None | Some(value: T)

  /** What is stored for a key: a value or the mark of its deletion. */
  datatype Value = Tombstone | Data(bytes: seq<nat>)

  type Content = map<Key, Value>

  /**
   * A sorted table, or a memtable waiting to become one.  `epoch` is the source's epoch (the oldest
   * of the tables it was merged from), `newest` the youngest of them.
   */
  datatype Table = Table(id: nat, epoch: nat, newest: nat, content: Content)

  function Get(m: Content, k: Key): Option<Value> {
    if k in m then Some(m[k]) else None
  }

  /** The newest version of `k` in tables listed from oldest to newest. */
  function Search(ts: seq<Table>, k: Key): Option<Value> {
    if ts == [] then None
    else if k in ts[|ts| - 1].content then Some(ts[|ts| - 1].content[k])
    else Search(ts[..|ts| - 1], k)
  }

  /** A reader cannot tell a deleted key from one that was never written. */
  function Observe(v: Option<Value>): Option<Value> {
    if v == Some(Tombstone) then None else v
  }

  /** Newer tables hide older ones. */
  lemma {:induction false} SearchConcat(a: seq<Table>, b: seq<Table>, k: Key)
    ensures Search(a + b, k) == if Search(b, k).Some? then Search(b, k) else Search(a, k)
  {
    if b == [] {
      assert a + b == a;
    } else {
      assert (a + b)[..|a + b| - 1] == a + b[..|b| - 1];
      SearchConcat(a, b[..|b| - 1], k);
    }
  }

  lemma {:induction false} SearchHit(ts: seq<Table>, k: Key)
    ensures Search(ts, k).Some? <==> exists i :: 0 <= i < |ts| && k in ts[i].content
    ensures Search(ts, k).Some? ==> exists i :: 0 <= i < |ts| && k in ts[i].content && Search(ts, k) == Some(ts[i].content[k])
  {
    if ts != [] && k !in ts[|ts| - 1].content {
      SearchHit(ts[..|ts| - 1], k);
    }
  }

  /** The union of some tables, newer versions replacing older ones. */
  function Overlay(ts: seq<Table>): Content {
    if ts == [] then map[] else Overlay(ts[..|ts| - 1]) + ts[|ts| - 1].content
  }

  /** What a merge of `ts` keeps: the newest version of every key, without tombstones if they are discarded. */
  function Merged(ts: seq<Table>, discard: bool): Content {
    var all := Overlay(ts);
    if discard then map k | k in all && all[k] != Tombstone :: all[k] else all
  }

  lemma {:induction false} OverlayIsSearch(ts: seq<Table>, k: Key)
    ensures Get(Overlay(ts), k) == Search(ts, k)
  {
    if ts != [] {
      OverlayIsSearch(ts[..|ts| - 1], k);
    }
  }

  /** One merged table answers every search as its inputs did. */
  lemma {:induction false} MergeKeepsSearch(a: seq<Table>, inputs: seq<Table>, b: seq<Table>, out: Table, discard: bool, k: Key)
    requires out.content == Merged(inputs, discard)
    requires discard ==> Search(a, k).None?
    ensures Observe(Search(a + [out] + b, k)) == Observe(Search(a + inputs + b, k))
    ensures !discard ==> Search(a + [out] + b, k) == Search(a + inputs + b, k)
  {
    OverlayIsSearch(inputs, k);
    SearchConcat(a + [out], b, k);
    SearchConcat(a + inputs, b, k);
    SearchConcat(a, [out], k);
    SearchConcat(a, inputs, k);
    assert [out][..0] == [];
  }
}
