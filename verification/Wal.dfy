/** The write-ahead log: its records, reading them back, and replaying them. */
module Wal {
  import opened Arith
  import opened Bytes
  import opened Block
  import opened Table
  import opened Memtable

  datatype Record = Record(seqNr: nat, key: Bytes, value: Bytes)

  /** A record up to its checksum; the value size is cut to two bytes. */
  function Body(r: Record): Bytes {
    LittleEndian(r.seqNr, 8) + ([KeySize(|r.key|)] + (r.key + (LittleEndian(|r.value|, 2) + r.value)))
  }

  function Encoded(r: Record, sum: Bytes -> nat): Bytes {
    Body(r) + LittleEndian(sum(Body(r)), 4)
  }

  datatype Reading = Got(r: Record, size: nat) | Bad

  /** Read one record from the front of `s`; every field is bounds-checked, then the checksum compared. */
  function ReadOne(s: Bytes, sum: Bytes -> nat): (res: Reading)
    ensures res.Got? ==> 0 < res.size <= |s|
  {
    if |s| < 9 then Bad
    else
      var k: nat := s[8] as int + 1;
      if |s| < 11 + k then Bad
      else
        var v := FromLittleEndian(s[9 + k..11 + k]);
        if |s| < 15 + k + v then Bad
        else if FromLittleEndian(s[11 + k + v..15 + k + v]) != sum(s[..11 + k + v]) % 0x1_0000_0000 then Bad
        else Got(Record(FromLittleEndian(s[..8]), s[9..9 + k], s[11 + k..11 + k + v]), 15 + k + v)
  }

  /** The records of a log, and whether reading ended with an error. */
  function ReadLog(s: Bytes, sum: Bytes -> nat): (seq<Record>, bool) {
    if s == [] then ([], false)
    else
      match ReadOne(s, sum)
      case Bad => ([], true)
      case Got(r, n) => Prepend([r], ReadLog(s[n..], sum))
  }

  function Prepend(rs: seq<Record>, rest: (seq<Record>, bool)): (seq<Record>, bool) {
    (rs + rest.0, rest.1)
  }

  /** The loop over a log file. */
  method ReadFile(buffer: Bytes, sum: Bytes -> nat) returns (rs: seq<Record>, err: bool)
    ensures (rs, err) == ReadLog(buffer, sum)
  {
    hide ReadOne;
    rs := [];
    var pos := 0;
    assert buffer[0..] == buffer;
    PrependNothing(rs, ReadLog(buffer, sum));
    while pos < |buffer|
      invariant pos <= |buffer| && Prepend(rs, ReadLog(buffer[pos..], sum)) == ReadLog(buffer, sum)
    {
      PrependNothing(rs, ([], true));
      match ReadOne(buffer[pos..], sum) {
        case Bad => return rs, true;
        case Got(r, n) =>
          assert buffer[pos..][n..] == buffer[pos + n..];
          PrependTwice(rs, [r], ReadLog(buffer[pos + n..], sum));
          rs := rs + [r];
          pos := pos + n;
      }
    }
    assert buffer[pos..] == [];
    PrependNothing(rs, ([], false));
    return rs, false;
  }

  lemma {:induction false} PrependNothing(rs: seq<Record>, rest: (seq<Record>, bool))
    ensures rs == [] ==> Prepend(rs, rest) == rest
    ensures rest.0 == [] ==> Prepend(rs, rest) == (rs, rest.1)
  {
    assert rs + [] == rs && [] + rest.0 == rest.0;
  }

  lemma {:induction false} PrependTwice(a: seq<Record>, b: seq<Record>, rest: (seq<Record>, bool))
    ensures Prepend(a, Prepend(b, rest)) == Prepend(a + b, rest)
  {
    assert a + (b + rest.0) == a + b + rest.0;
  }

  lemma {:induction false} Pow256(n: nat)
    requires n == 8
    ensures Pow(256, n) == TWO_64 && Pow(256, n - 4) == 0x1_0000_0000 && Pow(256, n - 6) == 65536
  {
  }

  /** The fields of a record, where they stand. */
  lemma {:induction false} Fields(s: Bytes, r: Record, sum: Bytes -> nat)
    requires At(s, 0, Encoded(r, sum))
    ensures At(s, 0, LittleEndian(r.seqNr, 8)) && At(s, 8, [KeySize(|r.key|)]) && At(s, 9, r.key)
    ensures At(s, 9 + |r.key|, LittleEndian(|r.value|, 2)) && At(s, 11 + |r.key|, r.value)
    ensures At(s, 11 + |r.key| + |r.value|, LittleEndian(sum(Body(r)), 4))
    ensures |Body(r)| == 11 + |r.key| + |r.value| && At(s, 0, Body(r))
  {
    hide LittleEndian, At;
    var a, b, d := LittleEndian(r.seqNr, 8), [KeySize(|r.key|)], LittleEndian(|r.value|, 2);
    AtSplits(s, 0, Body(r), LittleEndian(sum(Body(r)), 4));
    AtSplits(s, 0, a, b + (r.key + (d + r.value)));
    AtSplits(s, 8, b, r.key + (d + r.value));
    AtSplits(s, 9, r.key, d + r.value);
    AtSplits(s, 9 + |r.key|, d, r.value);
  }

  /** A record comes back, whatever follows it, exactly when its value has fewer than 65536 bytes. */
  lemma {:induction false} ReadsBackIff(s: Bytes, r: Record, sum: Bytes -> nat)
    requires At(s, 0, Encoded(r, sum)) && GoodKey(r.key) && r.seqNr < TWO_64
    ensures ReadOne(s, sum) == Got(r, |Encoded(r, sum)|) <==> |r.value| < 65536
  {
    hide LittleEndian, FromLittleEndian, Pow, Body, KeySize;
    Fields(s, r, sum);
    Pow256(8);
    LittleEndianReads(r.seqNr, 8);
    LittleEndianReads(|r.value|, 2);
    LittleEndianReads(sum(Body(r)), 4);
    assert s[8] == s[8..9][0] == |r.key| - 1;
    assert s[..8] == s[0..8];
  }

  /** What is read is what was written: the bytes consumed are the encoding of the record, checksum included. */
  lemma {:induction false} ReadIsEncoded(s: Bytes, sum: Bytes -> nat)
    ensures ReadOne(s, sum).Got? ==>
              var r, n := ReadOne(s, sum).r, ReadOne(s, sum).size;
              Loggable(r) && n == |Encoded(r, sum)| && s[..n] == Encoded(r, sum)
  {
    hide LittleEndian, FromLittleEndian, Pow, KeySize;
    if ReadOne(s, sum).Got? {
      var r, n := ReadOne(s, sum).r, ReadOne(s, sum).size;
      var k, v := |r.key|, |r.value|;
      var a, d, c := s[..8], s[9 + k..11 + k], s[11 + k + v..15 + k + v];
      Pow256(8);
      LittleEndianBack(a, 8);
      LittleEndianBack(d, 2);
      BodyIs(s, r, a, d);
      assert s[..11 + k + v] == Body(r);
      FourBytes(c, sum(Body(r)));
      assert s[..n] == s[..11 + k + v] + c;
    }
  }

  lemma {:induction false} BodyIs(s: Bytes, r: Record, a: Bytes, d: Bytes)
    requires GoodKey(r.key) && |s| >= 11 + |r.key| + |r.value| && s[8] == |r.key| - 1
    requires a == s[..8] == LittleEndian(r.seqNr, 8) && r.key == s[9..9 + |r.key|]
    requires d == s[9 + |r.key|..11 + |r.key|] == LittleEndian(|r.value|, 2) && r.value == s[11 + |r.key|..11 + |r.key| + |r.value|]
    ensures s[..11 + |r.key| + |r.value|] == Body(r)
  {
    hide LittleEndian, KeySize;
    var k, v := |r.key|, |r.value|;
    assert s[..11 + k + v] == a + ([s[8]] + (r.key + (d + r.value)));
  }

  /** A log reads without an error exactly when it consists of whole encoded records; those are what is read. */
  lemma {:induction false} LogIff(s: Bytes, sum: Bytes -> nat)
    ensures !ReadLog(s, sum).1 <==> exists rs :: IsLog(s, rs, sum)
    ensures !ReadLog(s, sum).1 ==> IsLog(s, ReadLog(s, sum).0, sum)
  {
    LogSound(s, sum);
    if rs :| IsLog(s, rs, sum) {
      LogReads(rs, [], sum);
      assert Log(rs, sum) + [] == s;
      EmptyLog(sum);
    }
  }

  ghost predicate IsLog(s: Bytes, rs: seq<Record>, sum: Bytes -> nat) {
    s == Log(rs, sum) && forall i :: 0 <= i < |rs| ==> Loggable(rs[i])
  }

  lemma {:induction false} LogSound(s: Bytes, sum: Bytes -> nat)
    ensures !ReadLog(s, sum).1 ==> IsLog(s, ReadLog(s, sum).0, sum)
  {
    hide ReadOne, Encoded, Loggable;
    if s != [] {
      ReadIsEncoded(s, sum);
      if ReadOne(s, sum).Got? && !ReadLog(s, sum).1 {
        var r, n := ReadOne(s, sum).r, ReadOne(s, sum).size;
        LogSound(s[n..], sum);
        var rest := ReadLog(s[n..], sum).0;
        var rs := [r] + rest;
        assert rs[1..] == rest && s == s[..n] + s[n..];
        assert forall i :: 1 <= i < |rs| ==> rs[i] == rest[i - 1];
      }
    }
  }

  /** A record that is cut off is an error, for every checksum function. */
  lemma {:induction false} CutRecord(r: Record, sum: Bytes -> nat, c: nat)
    requires GoodKey(r.key) && |r.value| < 65536 && c < |Encoded(r, sum)|
    ensures ReadOne(Encoded(r, sum)[..c], sum) == Bad
  {
    hide LittleEndian, FromLittleEndian, Pow, Body, KeySize;
    var s, t := Encoded(r, sum), Encoded(r, sum)[..c];
    assert At(s, 0, s);
    Fields(s, r, sum);
    Pow256(8);
    LittleEndianReads(|r.value|, 2);
    assert s[8] == s[8..9][0] == |r.key| - 1;
    var k := |r.key|;
    assert c >= 11 + k ==> t[9 + k..11 + k] == s[9 + k..11 + k];
  }

  /** A record that the log can represent. */
  predicate Loggable(r: Record) {
    GoodKey(r.key) && r.seqNr < TWO_64 && |r.value| < 65536
  }

  function Log(rs: seq<Record>, sum: Bytes -> nat): Bytes {
    if rs == [] then [] else Encoded(rs[0], sum) + Log(rs[1..], sum)
  }

  /** Appended records are read in order, and reading goes on with whatever follows them. */
  lemma {:induction false} LogReads(rs: seq<Record>, tail: Bytes, sum: Bytes -> nat)
    requires forall i :: 0 <= i < |rs| ==> Loggable(rs[i])
    ensures ReadLog(Log(rs, sum) + tail, sum) == Prepend(rs, ReadLog(tail, sum))
  {
    hide Encoded, ReadOne;
    if rs == [] {
      assert Log(rs, sum) + tail == tail;
      PrependNothing(rs, ReadLog(tail, sum));
    } else {
      var e, s := Encoded(rs[0], sum), Log(rs, sum) + tail;
      var rest := Log(rs[1..], sum) + tail;
      assert s == e + rest;
      AtSplits(s, 0, e, rest);
      assert At(s, 0, s);
      ReadsBackIff(s, rs[0], sum);
      assert s[|e|..] == rest;
      LogReads(rs[1..], tail, sum);
      PrependTwice([rs[0]], rs[1..], ReadLog(tail, sum));
      assert [rs[0]] + rs[1..] == rs;
    }
  }

  /** A whole log reads back; one cut inside a record gives the records before it and then an error. */
  lemma {:induction false} LogRoundTrip(rs: seq<Record>, r: Record, c: nat, sum: Bytes -> nat)
    requires (forall i :: 0 <= i < |rs| ==> Loggable(rs[i])) && Loggable(r) && 0 < c < |Encoded(r, sum)|
    ensures ReadLog(Log(rs, sum), sum) == (rs, false)
    ensures ReadLog(Log(rs, sum) + Encoded(r, sum)[..c], sum) == (rs, true)
  {
    hide Encoded, ReadOne, Log;
    LogReads(rs, [], sum);
    assert Log(rs, sum) + [] == Log(rs, sum);
    LogReads(rs, Encoded(r, sum)[..c], sum);
    CutRecord(r, sum, c);
    PrependNothing(rs, ([], false));
    PrependNothing(rs, ([], true));
  }

  /** The records of all files, unless one of them ends in an error. */
  function AllRecords(files: seq<Bytes>, sum: Bytes -> nat): (seq<Record>, bool) {
    if files == [] then ([], false)
    else
      var n := |files| - 1;
      var front, last := AllRecords(files[..n], sum), ReadLog(files[n], sum);
      (front.0 + last.0, front.1 || last.1)
  }

  /** One log file for each writer thread. */
  function Logs(rss: seq<seq<Record>>, sum: Bytes -> nat): (files: seq<Bytes>)
    ensures |files| == |rss| && forall i :: 0 <= i < |rss| ==> files[i] == Log(rss[i], sum)
  {
    if rss == [] then [] else Logs(rss[..|rss| - 1], sum) + [Log(rss[|rss| - 1], sum)]
  }

  function Joined(rss: seq<seq<Record>>): seq<Record> {
    if rss == [] then [] else Joined(rss[..|rss| - 1]) + rss[|rss| - 1]
  }

  ghost predicate AllLoggable(rss: seq<seq<Record>>) {
    forall i, j :: 0 <= i < |rss| && 0 <= j < |rss[i]| ==> Loggable(rss[i][j])
  }

  /** The logs of all threads together give back all records, without an error. */
  lemma {:induction false} LogsReadBack(rss: seq<seq<Record>>, sum: Bytes -> nat)
    requires AllLoggable(rss)
    ensures AllRecords(Logs(rss, sum), sum) == (Joined(rss), false)
  {
    hide Log, ReadLog, Loggable;
    if rss != [] {
      var n := |rss| - 1;
      LogsReadBack(rss[..n], sum);
      var files := Logs(rss, sum);
      assert files[..n] == Logs(rss[..n], sum);
      LogReads(rss[n], [], sum);
      assert Log(rss[n], sum) + [] == Log(rss[n], sum);
      PrependNothing(rss[n], ([], false));
      assert ReadLog([], sum) == ([], false) by {
        EmptyLog(sum);
      }
    }
  }

  lemma {:induction false} EmptyLog(sum: Bytes -> nat)
    ensures ReadLog([], sum) == ([], false)
  {
  }

  /** A file cut inside a record fails the whole replay, whatever is in the other files. */
  lemma {:induction false} CutFileFails(files: seq<Bytes>, i: nat, rs: seq<Record>, r: Record, c: nat, sum: Bytes -> nat)
    requires i < |files| && (forall j :: 0 <= j < |rs| ==> Loggable(rs[j])) && Loggable(r) && 0 < c < |Encoded(r, sum)|
    requires files[i] == Log(rs, sum) + Encoded(r, sum)[..c]
    ensures AllRecords(files, sum).1
  {
    hide Log, ReadLog, Loggable, Encoded;
    var n := |files| - 1;
    if i < n {
      CutFileFails(files[..n], i, rs, r, c, sum);
    } else {
      LogRoundTrip(rs, r, c, sum);
    }
  }

  /** Insert `r` into records that ascend by sequence number. */
  function InsertBySeq(rs: seq<Record>, r: Record): seq<Record> {
    if rs == [] || rs[|rs| - 1].seqNr <= r.seqNr then rs + [r] else InsertBySeq(rs[..|rs| - 1], r) + [rs[|rs| - 1]]
  }

  function SortBySeq(rs: seq<Record>): seq<Record> {
    if rs == [] then [] else InsertBySeq(SortBySeq(rs[..|rs| - 1]), rs[|rs| - 1])
  }

  ghost predicate BySeq(rs: seq<Record>) {
    forall i, j :: 0 <= i < j < |rs| ==> rs[i].seqNr <= rs[j].seqNr
  }

  lemma {:induction false} InsertKeepsAll(rs: seq<Record>, r: Record)
    ensures multiset(InsertBySeq(rs, r)) == multiset(rs) + multiset{r}
  {
    if rs != [] && rs[|rs| - 1].seqNr > r.seqNr {
      InsertKeepsAll(rs[..|rs| - 1], r);
      assert rs == rs[..|rs| - 1] + [rs[|rs| - 1]];
    }
  }

  lemma {:induction false} InsertKeepsOrder(rs: seq<Record>, r: Record)
    requires BySeq(rs)
    ensures BySeq(InsertBySeq(rs, r))
  {
    if rs != [] && rs[|rs| - 1].seqNr > r.seqNr {
      var n := |rs| - 1;
      InsertKeepsOrder(rs[..n], r);
      forall i | 0 <= i < |InsertBySeq(rs[..n], r)|
        ensures InsertBySeq(rs[..n], r)[i].seqNr <= rs[n].seqNr
      {
        BelowLast(rs[..n], r, rs[n].seqNr, i);
      }
    }
  }

  lemma {:induction false} BelowLast(rs: seq<Record>, r: Record, top: nat, i: nat)
    requires (forall j :: 0 <= j < |rs| ==> rs[j].seqNr <= top) && r.seqNr <= top && i < |InsertBySeq(rs, r)|
    ensures InsertBySeq(rs, r)[i].seqNr <= top
  {
    if rs != [] && rs[|rs| - 1].seqNr > r.seqNr && i < |InsertBySeq(rs[..|rs| - 1], r)| {
      BelowLast(rs[..|rs| - 1], r, top, i);
    }
  }

  lemma {:induction false} SortBySeqIs(rs: seq<Record>)
    ensures BySeq(SortBySeq(rs)) && multiset(SortBySeq(rs)) == multiset(rs)
  {
    if rs != [] {
      var n := |rs| - 1;
      SortBySeqIs(rs[..n]);
      InsertKeepsOrder(SortBySeq(rs[..n]), rs[n]);
      InsertKeepsAll(SortBySeq(rs[..n]), rs[n]);
      assert rs == rs[..n] + [rs[n]];
    }
  }

  /** The contents after inserting records one after the other. */
  function Replayed(rs: seq<Record>): map<Bytes, Bytes> {
    if rs == [] then map[] else Replayed(rs[..|rs| - 1])[rs[|rs| - 1].key := rs[|rs| - 1].value]
  }

  /** The `i`-th record has the greatest sequence number of its key. */
  ghost predicate GreatestAt(rs: seq<Record>, i: int) {
    0 <= i < |rs| && forall j :: 0 <= j < |rs| && rs[j].key == rs[i].key ==> rs[j].seqNr <= rs[i].seqNr
  }

  ghost predicate DistinctSeqs(rs: seq<Record>) {
    forall i, j :: 0 <= i < j < |rs| ==> rs[i].seqNr != rs[j].seqNr
  }

  /** Replaying in sequence order leaves, for each key, the value of the record with the greatest sequence number. */
  lemma {:induction false} ReplayedIsGreatest(rs: seq<Record>, key: Bytes) returns (i: int)
    requires BySeq(rs)
    ensures key in Replayed(rs) <==> 0 <= i
    ensures 0 <= i ==> GreatestAt(rs, i) && rs[i].key == key && Replayed(rs)[key] == rs[i].value
    ensures i < 0 ==> forall j :: 0 <= j < |rs| ==> rs[j].key != key
  {
    i := -1;
    if rs != [] {
      var n := |rs| - 1;
      i := ReplayedIsGreatest(rs[..n], key);
      if rs[n].key == key {
        i := n;
      }
    }
  }

  /** `view` holds exactly the keys of `rs`, each with the value of its record of greatest sequence number. */
  ghost predicate Restores(rs: seq<Record>, view: map<Bytes, Bytes>) {
    && (forall i :: 0 <= i < |rs| ==> rs[i].key in view)
    && (forall k :: k in view ==> exists i :: GreatestAt(rs, i) && rs[i].key == k && view[k] == rs[i].value)
  }

  lemma {:induction false} ReplayRestores(rs: seq<Record>)
    requires BySeq(rs)
    ensures Restores(rs, Replayed(rs))
  {
    forall i | 0 <= i < |rs|
      ensures rs[i].key in Replayed(rs)
    {
      var _ := ReplayedIsGreatest(rs, rs[i].key);
    }
    forall k | k in Replayed(rs)
      ensures exists i :: GreatestAt(rs, i) && rs[i].key == k && Replayed(rs)[k] == rs[i].value
    {
      var _ := ReplayedIsGreatest(rs, k);
    }
  }

  lemma {:induction false} SameMembers(a: seq<Record>, b: seq<Record>, i: nat) returns (j: nat)
    requires multiset(a) == multiset(b) && i < |a|
    ensures j < |b| && b[j] == a[i]
  {
    assert a[i] in multiset(a);
    assert a[i] in multiset(b);
    j :| 0 <= j < |b| && b[j] == a[i];
  }

  /** The order of the records does not matter to what must be restored. */
  lemma {:induction false} RestoresPermuted(a: seq<Record>, b: seq<Record>, view: map<Bytes, Bytes>)
    requires multiset(a) == multiset(b) && Restores(a, view)
    ensures Restores(b, view)
  {
    forall i | 0 <= i < |b|
      ensures b[i].key in view
    {
      var _ := SameMembers(b, a, i);
    }
    forall k | k in view
      ensures exists i :: GreatestAt(b, i) && b[i].key == k && view[k] == b[i].value
    {
      var i :| GreatestAt(a, i) && a[i].key == k && view[k] == a[i].value;
      var j := SameMembers(a, b, i);
      forall x | 0 <= x < |b| && b[x].key == b[j].key
        ensures b[x].seqNr <= b[j].seqNr
      {
        var _ := SameMembers(b, a, x);
      }
      assert GreatestAt(b, j);
    }
  }

  /** Distinct ascending sequence numbers are at least as large as their positions. */
  lemma {:induction false} SeqsSpread(rs: seq<Record>, i: nat)
    requires i < |rs| && forall j, k :: 0 <= j < k < |rs| ==> rs[j].seqNr < rs[k].seqNr
    ensures i <= rs[i].seqNr
  {
    if i > 0 {
      SeqsSpread(rs, i - 1);
    }
  }

  lemma {:induction false} CountedOnce(a: seq<Record>, x: nat)
    requires DistinctSeqs(a) && x < |a|
    ensures multiset(a)[a[x]] == 1
  {
    assert a == a[..x] + [a[x]] + a[x + 1..];
    assert a[x] !in a[..x] && a[x] !in a[x + 1..];
  }

  lemma {:induction false} CountedTwice(b: seq<Record>, j: nat, k: nat)
    requires j < k < |b| && b[j] == b[k]
    ensures multiset(b)[b[j]] >= 2
  {
    assert b == b[..k] + [b[k]] + b[k + 1..];
    assert b[..k][j] == b[j];
  }

  lemma {:induction false} DistinctPermuted(a: seq<Record>, b: seq<Record>)
    requires multiset(a) == multiset(b) && DistinctSeqs(a) && BySeq(b)
    ensures forall j, k :: 0 <= j < k < |b| ==> b[j].seqNr < b[k].seqNr
  {
    forall j, k | 0 <= j < k < |b|
      ensures b[j].seqNr < b[k].seqNr
    {
      var x := SameMembers(b, a, j);
      var y := SameMembers(b, a, k);
      CountedOnce(a, x);
      if b[j] == b[k] {
        CountedTwice(b, j, k);
      }
    }
  }

  /** Read every file; an error in any of them gives up the whole replay. */
  method ReadAll(files: seq<Bytes>, sum: Bytes -> nat) returns (rs: seq<Record>, err: bool)
    ensures (rs, err) == AllRecords(files, sum)
  {
    hide ReadLog;
    rs, err := [], false;
    for i := 0 to |files|
      invariant (rs, err) == AllRecords(files[..i], sum)
    {
      var more, bad := ReadFile(files[i], sum);
      assert files[..i + 1][..i] == files[..i];
      rs, err := rs + more, err || bad;
    }
    assert files[..|files|] == files;
  }

  /** Replay all logs into a fresh memtable and set the sequence counter behind the greatest one logged; `null` is an error. */
  method Replay(files: seq<Bytes>, sum: Bytes -> nat) returns (t: Memtable?)
    ensures t == null <==> AllRecords(files, sum).1
    ensures t != null ==> fresh(t) && t.Shows() && Restores(AllRecords(files, sum).0, t.view)
    ensures t != null ==> forall r :: r in AllRecords(files, sum).0 ==> r.seqNr < t.seqNr
    ensures t != null && DistinctSeqs(AllRecords(files, sum).0) ==> t.Valid()
  {
    hide AllRecords, Restores, BySeq, Newest, Ordered, SortBySeq, Replayed, DistinctSeqs;
    var all, err := ReadAll(files, sum);
    if err {
      return null;
    }
    var rs := SortBySeq(all);
    SortedForReplay(all, rs);
    t := InsertAll(rs);
    if rs != [] {
      t.Restart(rs[|rs| - 1].seqNr + 1);
    }
  }

  /** What the threads logged is what replay restores. */
  method Recover(files: seq<Bytes>, ghost rss: seq<seq<Record>>, sum: Bytes -> nat) returns (t: Memtable?)
    requires AllLoggable(rss) && files == Logs(rss, sum)
    ensures t != null && fresh(t) && t.Shows() && Restores(Joined(rss), t.view)
    ensures DistinctSeqs(Joined(rss)) ==> t.Valid()
  {
    hide AllRecords, Restores, Logs, DistinctSeqs, Joined;
    LogsReadBack(rss, sum);
    t := Replay(files, sum);
  }

  lemma {:induction false} LastIsGreatest(all: seq<Record>, rs: seq<Record>, r: Record)
    requires multiset(all) == multiset(rs) && BySeq(rs) && r in all
    ensures rs != [] && r.seqNr <= rs[|rs| - 1].seqNr
  {
    var i :| 0 <= i < |all| && all[i] == r;
    var j := SameMembers(all, rs, i);
    assert j < |rs| - 1 ==> rs[j].seqNr <= rs[|rs| - 1].seqNr;
  }

  lemma {:induction false} CountSpread(all: seq<Record>, rs: seq<Record>)
    requires multiset(all) == multiset(rs) && BySeq(rs) && DistinctSeqs(all) && rs != []
    ensures |rs| <= rs[|rs| - 1].seqNr + 1
  {
    DistinctPermuted(all, rs);
    SeqsSpread(rs, |rs| - 1);
  }

  /** Records in sequence order restore the table, and the last of them has the greatest sequence number. */
  lemma {:induction false} SortedForReplay(all: seq<Record>, rs: seq<Record>)
    requires rs == SortBySeq(all)
    ensures Restores(all, Replayed(rs))
    ensures rs != [] && DistinctSeqs(all) ==> |rs| <= rs[|rs| - 1].seqNr + 1
    ensures forall r :: r in all ==> rs != [] && r.seqNr <= rs[|rs| - 1].seqNr
  {
    hide Restores, SortBySeq, Replayed, BySeq, DistinctSeqs;
    SortBySeqIs(all);
    ReplayRestores(rs);
    RestoresPermuted(rs, all, Replayed(rs));
    if rs != [] && DistinctSeqs(all) {
      CountSpread(all, rs);
    }
    forall r | r in all
      ensures rs != [] && r.seqNr <= rs[|rs| - 1].seqNr
    {
      LastIsGreatest(all, rs, r);
    }
  }

  /** Insert records in order. */
  method InsertAll(rs: seq<Record>) returns (t: Memtable)
    ensures fresh(t) && t.Valid() && t.view == Replayed(rs) && t.seqNr == |rs|
  {
    t := new Memtable();
    for i := 0 to |rs|
      invariant fresh(t) && t.Valid() && t.view == Replayed(rs[..i]) && t.seqNr == i
    {
      var _ := t.Insert(rs[i].key, rs[i].value);
      assert rs[..i + 1][..i] == rs[..i];
    }
    assert rs[..|rs|] == rs;
  }
}
