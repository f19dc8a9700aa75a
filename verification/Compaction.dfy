/** A merge task from its sources to its commit. */
module Compaction {
  import opened Versions
  import opened Lsm
  import opened SstManager
  import opened Merge

  /** The content that a list of pairs stands for; a later pair replaces an earlier one. */
  method Collect(items: seq<KV>, ghost m: Content) returns (c: Content)
    requires Lists(items, m)
    ensures c == m
  {
    c := map[];
    for i := 0 to |items|
      invariant forall k :: k in c <==> exists j :: 0 <= j < i && items[j].key == k
      invariant forall j :: 0 <= j < i ==> c[items[j].key] == items[j].value
    {
      c := c[items[i].key := items[i].value];
    }
    Collected(items, m, c);
  }

  lemma {:induction false} Collected(items: seq<KV>, m: Content, c: Content)
    requires Lists(items, m)
    requires forall k :: k in c <==> exists j :: 0 <= j < |items| && items[j].key == k
    requires forall j :: 0 <= j < |items| ==> items[j].key in c && c[items[j].key] == items[j].value
    ensures c == m
  {
    forall k
      ensures Get(c, k) == Get(m, k)
    {
      if k in c {
        var j :| 0 <= j < |items| && items[j].key == k;
        assert items[j] in items;
      }
      if k in m {
        assert KV(k, m[k]) in items;
        var j :| 0 <= j < |items| && items[j] == KV(k, m[k]);
      }
    }
    SameContent(c, m);
  }

  lemma {:induction false} SameContent(c: Content, m: Content)
    requires forall k :: Get(c, k) == Get(m, k)
    ensures c == m
  {
    forall k
      ensures k in c <==> k in m
      ensures k in c ==> c[k] == m[k]
    {
      assert Get(c, k) == Get(m, k);
    }
  }

  /** Run the first waiting merge of level `l` and commit it; with nothing to read the merge throws and the task stays. */
  method Compact(p: Partition, l: nat, src: seq<seq<KV>>, epochs: seq<nat>) returns (thrown: bool)
    requires p.Valid() && Enabled(p.View(), MergeCommits(l)) && ReadsTables(p.tasks[l][0].inputs, src, epochs)
    modifies p
    ensures thrown <==> forall i :: 0 <= i < |src| ==> src[i] == []
    ensures p.Valid() && p.View() == if thrown then old(p.View()) else Apply(old(p.View()), MergeCommits(l))
  {
    hide Inv, Lists, Merged, IsMerge, Apply;
    var t := p.tasks[l][0];
    TablesAreSources(t.inputs, src, epochs);
    var r := KWayMerge(src, epochs, t.discard);
    if r.NothingToMerge? {
      return true;
    }
    MergeRefinesOverlay(t.inputs, src, epochs, t.discard, r.items);
    var content := Collect(r.items, Merged(t.inputs, t.discard));
    p.CommitTask(l, content);
    return false;
  }

  lemma {:induction false} TablesAreSources(ts: seq<Table>, src: seq<seq<KV>>, epochs: seq<nat>)
    requires ReadsTables(ts, src, epochs)
    ensures Sources(src, epochs)
  {
  }
}
