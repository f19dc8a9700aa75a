/** Reading a table from its first pair to its last, as merges and scans do: the next page is opened when one is
    used up. */
module TableReader {
  import opened Bytes
  import opened Block
  import opened BlockReader
  import opened Table
  import opened TableLookup

  /** Pages whose pairs can all be read back. */
  ghost predicate Legible(pages: seq<Bytes>, meta: seq<Bytes>, groups: seq<seq<Pair>>, sum: Bytes -> nat) {
    TableOf(pages, meta, groups, sum) && forall i :: 0 <= i < |groups| ==> AllClean(groups[i], GROUP)
  }

  /** A page can be opened at its first entry. */
  lemma {:induction false} PageOpens(pages: seq<Bytes>, meta: seq<Bytes>, groups: seq<seq<Pair>>, sum: Bytes -> nat, i: nat) returns (chunks: seq<Bytes>)
    requires Legible(pages, meta, groups, sum) && i < |groups|
    ensures |pages| == |groups| && groups[i] != [] && AllClean(groups[i], GROUP) && Readable(pages[i], groups[i], chunks, GROUP)
    ensures |pages[i]| == PAGE && Word(pages[i], PAGE - 8) == |groups[i]| && Offset(chunks, 0) == 0
  {
    hide AllClean, Word, Starts, Trailer, At;
    assert PageOf(pages[i], groups[i], meta[i], sum);
    chunks :| IsBlock(pages[i], groups[i], chunks, GROUP, sum);
    BlockReads(pages[i], groups[i], chunks, GROUP, sum, |Starts(chunks, GROUP)|, |Starts(chunks, GROUP)|);
    assert chunks[..0] == [];
  }

  class Reader {
    const pages: seq<Bytes>
    var it: Iterator
    var next: nat
    ghost const meta: seq<Bytes>
    ghost const groups: seq<seq<Pair>>
    ghost const sum: Bytes -> nat
    ghost var passed: nat

    /** `passed` pairs of the table lie behind the reader. */
    ghost predicate Valid()
      reads this, it
    {
      && Legible(pages, meta, groups, sum) && it.Valid() && it.start == 0 && it.group == GROUP
      && |pages| == |groups| && 1 <= next <= |pages|
      && it.ps == groups[next - 1] && it.count == |it.ps| && 1 <= it.kvIdx <= it.count + 1
      && passed == Start(groups, next - 1) + it.kvIdx - 1
      && (it.kvIdx == it.count + 1 ==> next == |pages|)
    }

    constructor (pages: seq<Bytes>, ghost meta: seq<Bytes>, ghost groups: seq<seq<Pair>>, ghost sum: Bytes -> nat)
      requires Legible(pages, meta, groups, sum) && pages != []
      ensures Valid() && fresh(it) && passed == 0 && this.pages == pages && this.groups == groups
    {
      hide Legible, AllClean, Readable, Word;
      TablePages(pages, meta, groups, sum);
      ghost var chunks := PageOpens(pages, meta, groups, sum, 0);
      assert Start(groups, 0) == 0;
      this.pages, this.meta, this.groups, this.sum := pages, meta, groups, sum;
      it := new Iterator(pages[0], 0, 0, Word(pages[0], PAGE - 8), GROUP, groups[0], chunks);
      next, passed := 1, 0;
    }

    predicate AtEnd()
      reads this, it
    {
      next == |pages| && it.AtEnd()
    }

    /** The reader stands at the next pair, or behind the last. */
    lemma {:induction false} Stands()
      requires Valid()
      ensures AtEnd() <==> passed == |Flat(groups)|
      ensures !AtEnd() ==> passed < |Flat(groups)| && Flat(groups)[passed] == Pair(it.key, it.value)
    {
      hide Flat, Legible, Iterator.Valid;
      if AtEnd() {
        StartsAtEnd(groups);
      } else {
        InPage();
        FlatAt(groups, next - 1, it.kvIdx - 1);
      }
    }

    lemma {:induction false} InPage()
      requires Valid() && !AtEnd()
      ensures it.kvIdx <= |groups[next - 1]| && groups[next - 1][it.kvIdx - 1] == Pair(it.key, it.value)
    {
    }

    /** Move to the next pair, opening the next page when this one is used up. */
    method Next()
      requires Valid() && !AtEnd()
      modifies this`it, this`next, this`passed, it
      ensures Valid() && (it == old(it) || fresh(it)) && passed == old(passed) + 1
    {
      hide Legible, AllClean, Readable, Word, Flat;
      passed := passed + 1;
      it.ReadNext();
      if !it.AtEnd() {
        return;
      }
      if next != |pages| {
        ghost var chunks := PageOpens(pages, meta, groups, sum, next);
        StartNext(groups, next - 1);
        it := new Iterator(pages[next], 0, 0, Word(pages[next], PAGE - 8), GROUP, groups[next], chunks);
        next := next + 1;
      }
    }
  }

  lemma {:induction false} TablePages(pages: seq<Bytes>, meta: seq<Bytes>, groups: seq<seq<Pair>>, sum: Bytes -> nat)
    requires Legible(pages, meta, groups, sum)
    ensures |pages| == |groups| && (pages == [] ==> Flat(groups) == [])
  {
  }

  lemma {:induction false} StartNext(groups: seq<seq<Pair>>, a: nat)
    requires a < |groups|
    ensures Start(groups, a + 1) == Start(groups, a) + |groups[a]|
  {
    assert groups[..a + 1][..a] == groups[..a];
  }

  lemma {:induction false} StartsAtEnd(groups: seq<seq<Pair>>)
    requires groups != []
    ensures Start(groups, |groups| - 1) + |groups[|groups| - 1]| == |Flat(groups)|
  {
  }

  /** Reading to the end yields all pairs of the table, in order. */
  method ReadTable(pages: seq<Bytes>, ghost meta: seq<Bytes>, ghost groups: seq<seq<Pair>>, ghost sum: Bytes -> nat) returns (ps: seq<Pair>)
    requires Legible(pages, meta, groups, sum)
    ensures ps == Flat(groups)
  {
    hide Legible, Flat, Iterator.Valid;
    TablePages(pages, meta, groups, sum);
    if pages == [] {
      return [];
    }
    var r := new Reader(pages, meta, groups, sum);
    ps := [];
    r.Stands();
    while !r.AtEnd()
      invariant r.Valid() && fresh(r) && fresh(r.it) && r.groups == groups && r.passed <= |Flat(groups)|
      invariant ps == Flat(groups)[..r.passed]
      invariant r.AtEnd() <==> r.passed == |Flat(groups)|
      decreases |Flat(groups)| - r.passed
    {
      r.Stands();
      ps := ps + [Pair(r.it.key, r.it.value)];
      r.Next();
      r.Stands();
    }
  }
}
