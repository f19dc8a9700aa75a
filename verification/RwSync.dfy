/** The protocol by which a flush waits until all writers have left. */
module RwSync {
  import opened Versions

  datatype Phase = Idle | Announced | Inside | Refused

  /**
   * The shared state and where every thread stands.  `scan` is the slot the flusher reads next, `drained` says
   * that some scan has found every slot empty, and `log` holds the writes made to the object, by writer.
   */
  datatype State = State(frozen: bool, counters: seq<nat>, phases: seq<Phase>, scan: Option<nat>, drained: bool, log: seq<nat>)

  /** Writers announce themselves, check the gate, and enter or withdraw; the flusher freezes and scans the slots one by one. */
  datatype Step =
    | Announce(w: nat)
    | Check(w: nat)
    | Withdraw(w: nat)
    | Write(w: nat)
    | Release(w: nat)
    | Freeze
    | StartScan
    | ScanSlot

  /** Every writer has a slot. */
  predicate Config(slots: seq<nat>, n: nat) {
    forall w :: 0 <= w < |slots| ==> slots[w] < n
  }

  predicate Shape(s: State, slots: seq<nat>, n: nat) {
    Config(slots, n) && |s.counters| == n && |s.phases| == |slots|
  }

  predicate Enabled(s: State, slots: seq<nat>, n: nat, a: Step)
    requires Shape(s, slots, n)
  {
    match a
    case Announce(w) => w < |slots| && s.phases[w] == Idle
    case Check(w) => w < |slots| && s.phases[w] == Announced
    case Withdraw(w) => w < |slots| && s.phases[w] == Refused
    case Write(w) => w < |slots| && s.phases[w] == Inside
    case Release(w) => w < |slots| && s.phases[w] == Inside
    case Freeze => true
    case StartScan => s.frozen && s.scan.None? && !s.drained
    case ScanSlot => s.scan.Some?
  }

  function Next(s: State, slots: seq<nat>, n: nat, a: Step): (t: State)
    requires Shape(s, slots, n) && Enabled(s, slots, n, a)
    ensures Shape(t, slots, n)
  {
    match a
    case Announce(w) => s.(phases := s.phases[w := Announced], counters := s.counters[slots[w] := 1])
    case Check(w) => s.(phases := s.phases[w := if s.frozen then Refused else Inside])
    case Withdraw(w) => s.(phases := s.phases[w := Idle], counters := s.counters[slots[w] := 0])
    case Write(w) => s.(log := s.log + [w])
    case Release(w) => s.(phases := s.phases[w := Idle], counters := s.counters[slots[w] := 0])
    case Freeze => s.(frozen := true)
    case StartScan => s.(scan := Some(0))
    case ScanSlot =>
      if s.scan.value >= n then s.(scan := None, drained := true)
      else if s.counters[s.scan.value] > 0 then s.(scan := None)
      else s.(scan := Some(s.scan.value + 1))
  }

  function Idles(k: nat): (r: seq<Phase>)
    ensures |r| == k && forall i :: 0 <= i < k ==> r[i] == Idle
  {
    if k == 0 then [] else Idles(k - 1) + [Idle]
  }

  function Zeros(k: nat): (r: seq<nat>)
    ensures |r| == k && forall i :: 0 <= i < k ==> r[i] == 0
  {
    if k == 0 then [] else Zeros(k - 1) + [0]
  }

  function Init(slots: seq<nat>, n: nat): State {
    State(false, Zeros(n), Idles(|slots|), None, false, [])
  }

  predicate Runs(s: State, slots: seq<nat>, n: nat, run: seq<Step>)
    decreases run
  {
    Shape(s, slots, n) && (run == [] || (Enabled(s, slots, n, run[0]) && Runs(Next(s, slots, n, run[0]), slots, n, run[1..])))
  }

  function After(s: State, slots: seq<nat>, n: nat, run: seq<Step>): (t: State)
    requires Runs(s, slots, n, run)
    ensures Shape(t, slots, n)
    decreases run
  {
    if run == [] then s else After(Next(s, slots, n, run[0]), slots, n, run[1..])
  }

  /** No two writers share a slot. */
  ghost predicate Unshared(slots: seq<nat>) {
    forall v, w :: 0 <= v < w < |slots| ==> slots[v] != slots[w]
  }

  /** Nobody is inside. */
  ghost predicate Empty(s: State) {
    forall w :: 0 <= w < |s.phases| ==> s.phases[w] != Inside
  }

  /** A counter is set exactly while its writer is not idle. */
  ghost predicate CounterTells(s: State, slots: seq<nat>, n: nat, w: int)
    requires Shape(s, slots, n) && 0 <= w < |slots|
  {
    s.counters[slots[w]] == if s.phases[w] == Idle then 0 else 1
  }

  /** A counter is set exactly while its writer is not idle, and behind the scan nobody is inside. */
  ghost predicate Inv(s: State, slots: seq<nat>, n: nat) {
    && Shape(s, slots, n)
    && (forall w :: 0 <= w < |slots| ==> CounterTells(s, slots, n, w))
    && (forall i :: 0 <= i < n && i !in slots ==> s.counters[i] == 0)
    && (s.scan.Some? ==> s.frozen && !s.drained && s.scan.value <= n)
    && (forall w :: 0 <= w < |slots| && s.scan.Some? && slots[w] < s.scan.value ==> s.phases[w] != Inside)
    && (s.drained ==> s.frozen && Empty(s))
  }

  lemma {:induction false} StepKeepsInv(s: State, slots: seq<nat>, n: nat, a: Step)
    requires Unshared(slots) && Inv(s, slots, n) && Enabled(s, slots, n, a)
    ensures Inv(Next(s, slots, n, a), slots, n)
    ensures s.drained ==> Next(s, slots, n, a).drained && Next(s, slots, n, a).log == s.log
    ensures s.frozen ==> Next(s, slots, n, a).frozen && Admitted(Next(s, slots, n, a)) <= Admitted(s)
  {
    if a.ScanSlot? && s.scan.value < n && s.counters[s.scan.value] == 0 {
      forall w | 0 <= w < |slots| && slots[w] == s.scan.value
        ensures s.phases[w] == Idle
      {
        assert CounterTells(s, slots, n, w);
      }
    }
    var t := Next(s, slots, n, a);
    forall w | 0 <= w < |slots|
      ensures CounterTells(t, slots, n, w)
    {
      assert CounterTells(s, slots, n, w);
    }
  }

  /** The writers inside. */
  ghost function Admitted(s: State): set<int> {
    set w | 0 <= w < |s.phases| && s.phases[w] == Inside
  }

  /** The writes of a run, in order. */
  function Writes(run: seq<Step>): seq<nat>
    decreases run
  {
    if run == [] then [] else (if run[0].Write? then [run[0].w] else []) + Writes(run[1..])
  }

  lemma {:induction false} RunKeepsInv(s: State, slots: seq<nat>, n: nat, run: seq<Step>)
    requires Unshared(slots) && Inv(s, slots, n) && Runs(s, slots, n, run)
    ensures Inv(After(s, slots, n, run), slots, n)
    ensures s.drained ==> After(s, slots, n, run).drained && After(s, slots, n, run).log == s.log
    ensures s.frozen ==> After(s, slots, n, run).frozen && Admitted(After(s, slots, n, run)) <= Admitted(s)
    decreases run
  {
    hide Inv, Admitted, Enabled;
    if run != [] {
      StepKeepsInv(s, slots, n, run[0]);
      RunKeepsInv(Next(s, slots, n, run[0]), slots, n, run[1..]);
    }
  }

  /** In every reachable state a counter tells whether its writer is active, and a slot of nobody is clear. */
  lemma {:induction false} CountersTell(slots: seq<nat>, n: nat, run: seq<Step>)
    requires Unshared(slots) && Config(slots, n) && Runs(Init(slots, n), slots, n, run)
    ensures
      var s := After(Init(slots, n), slots, n, run);
      && (forall w :: 0 <= w < |slots| ==> s.counters[slots[w]] == if s.phases[w] == Idle then 0 else 1)
      && (forall i :: 0 <= i < n && i !in slots ==> s.counters[i] == 0)
  {
    RunKeepsInv(Init(slots, n), slots, n, run);
    var s := After(Init(slots, n), slots, n, run);
    forall w | 0 <= w < |slots|
      ensures s.counters[slots[w]] == if s.phases[w] == Idle then 0 else 1
    {
      assert CounterTells(s, slots, n, w);
    }
  }

  lemma {:induction false} LogStep(s: State, slots: seq<nat>, n: nat, a: Step)
    requires Shape(s, slots, n) && Enabled(s, slots, n, a)
    ensures Next(s, slots, n, a).log == s.log + if a.Write? then [a.w] else []
  {
  }

  /** The log holds exactly the writes made, in order. */
  lemma {:induction false} LogIsWrites(s: State, slots: seq<nat>, n: nat, run: seq<Step>)
    requires Runs(s, slots, n, run)
    ensures After(s, slots, n, run).log == s.log + Writes(run)
    decreases run
  {
    hide Shape, Enabled, Next;
    if run != [] {
      LogStep(s, slots, n, run[0]);
      LogIsWrites(Next(s, slots, n, run[0]), slots, n, run[1..]);
      hide Runs, After;
      var first := if run[0].Write? then [run[0].w] else [];
      assert s.log + first + Writes(run[1..]) == s.log + (first + Writes(run[1..]));
    }
  }

  /** Until the freeze every idle writer gets in; from then on none does, and withdrawing clears its counter. */
  lemma {:induction false} Entering(s: State, slots: seq<nat>, n: nat, w: nat)
    requires Shape(s, slots, n) && w < |slots| && s.phases[w] == Idle
    ensures Runs(s, slots, n, [Announce(w), Check(w)])
    ensures After(s, slots, n, [Announce(w), Check(w)]).phases == s.phases[w := if s.frozen then Refused else Inside]
    ensures s.frozen ==> Runs(s, slots, n, [Announce(w), Check(w), Withdraw(w)])
    ensures s.frozen ==> After(s, slots, n, [Announce(w), Check(w), Withdraw(w)]) == s.(counters := s.counters[slots[w] := 0])
  {
    hide Runs, After;
    var s1 := Next(s, slots, n, Announce(w));
    var s2 := Next(s1, slots, n, Check(w));
    RunOfNone(s2, slots, n);
    FirstStep(s1, slots, n, [Check(w)], []);
    FirstStep(s, slots, n, [Announce(w), Check(w)], [Check(w)]);
    if s.frozen {
      var s3 := Next(s2, slots, n, Withdraw(w));
      RunOfNone(s3, slots, n);
      FirstStep(s2, slots, n, [Withdraw(w)], []);
      FirstStep(s1, slots, n, [Check(w), Withdraw(w)], [Withdraw(w)]);
      FirstStep(s, slots, n, [Announce(w), Check(w), Withdraw(w)], [Check(w), Withdraw(w)]);
      assert s3.phases == s.phases;
    }
  }

  lemma {:induction false} FirstStep(s: State, slots: seq<nat>, n: nat, run: seq<Step>, rest: seq<Step>)
    requires run != [] && run[1..] == rest && Shape(s, slots, n) && Enabled(s, slots, n, run[0])
    requires Runs(Next(s, slots, n, run[0]), slots, n, rest)
    ensures Runs(s, slots, n, run) && After(s, slots, n, run) == After(Next(s, slots, n, run[0]), slots, n, rest)
  {
  }

  lemma {:induction false} RunOfNone(s: State, slots: seq<nat>, n: nat)
    requires Shape(s, slots, n)
    ensures Runs(s, slots, n, []) && After(s, slots, n, []) == s
  {
  }

  // ---- The flusher's scan

  ghost predicate AllIdle(s: State) {
    forall w :: 0 <= w < |s.phases| ==> s.phases[w] == Idle
  }

  /** A scan that nobody interrupts: `any_active_writer`. */
  function ScanOn(s: State, slots: seq<nat>, n: nat): (t: State)
    requires Shape(s, slots, n) && (s.scan.Some? ==> s.scan.value <= n)
    ensures Shape(t, slots, n) && t.scan.None?
    decreases if s.scan.Some? then n + 1 - s.scan.value else 0
  {
    if s.scan.None? then s else ScanOn(Next(s, slots, n, ScanSlot), slots, n)
  }

  /** A scan finds what is left to scan clear, or stops at the first counter that is set. */
  lemma {:induction false} ScanOnIs(s: State, slots: seq<nat>, n: nat)
    requires Shape(s, slots, n) && s.scan.Some? && s.scan.value <= n && !s.drained
    ensures ScanOn(s, slots, n).drained <==> forall i :: s.scan.value <= i < n ==> s.counters[i] == 0
    ensures ScanOn(s, slots, n) == s.(scan := None, drained := ScanOn(s, slots, n).drained)
    decreases n - s.scan.value
  {
    var i, t := s.scan.value, Next(s, slots, n, ScanSlot);
    if i < n && s.counters[i] == 0 {
      ScanOnIs(t, slots, n);
    }
  }

  /** In every reachable frozen state, a scan without other steps ends with the object drained exactly when all writers are idle. */
  lemma {:induction false} ScanDrainsIff(slots: seq<nat>, n: nat, run: seq<Step>)
    requires Unshared(slots) && Config(slots, n) && Runs(Init(slots, n), slots, n, run)
    ensures
      var s := After(Init(slots, n), slots, n, run);
      s.frozen && s.scan.None? && !s.drained ==>
        Enabled(s, slots, n, StartScan) && (ScanOn(Next(s, slots, n, StartScan), slots, n).drained <==> AllIdle(s))
  {
    RunKeepsInv(Init(slots, n), slots, n, run);
    CountersTell(slots, n, run);
    var s := After(Init(slots, n), slots, n, run);
    hide Inv, After, Runs;
    if s.frozen && s.scan.None? && !s.drained {
      ScanOnIs(Next(s, slots, n, StartScan), slots, n);
      ClearIff(s, slots, n);
    }
  }

  lemma {:induction false} ClearIff(s: State, slots: seq<nat>, n: nat)
    requires Shape(s, slots, n)
    requires forall w :: 0 <= w < |slots| ==> s.counters[slots[w]] == if s.phases[w] == Idle then 0 else 1
    requires forall i :: 0 <= i < n && i !in slots ==> s.counters[i] == 0
    ensures (forall i :: 0 <= i < n ==> s.counters[i] == 0) <==> AllIdle(s)
  {
    if AllIdle(s) {
      forall i | 0 <= i < n
        ensures s.counters[i] == 0
      {
        if i in slots {
          var w :| 0 <= w < |slots| && slots[w] == i;
        }
      }
    }
  }

  function Weight(p: Phase): nat {
    match p
    case Idle => 0
    case Announced => 2
    case Inside => 1
    case Refused => 1
  }

  /** How many steps the writers still need to leave. */
  function Busy(ps: seq<Phase>): nat {
    if ps == [] then 0 else Busy(ps[..|ps| - 1]) + Weight(ps[|ps| - 1])
  }

  lemma {:induction false} BusyUpdate(ps: seq<Phase>, w: nat, p: Phase)
    requires w < |ps|
    ensures Busy(ps[w := p]) + Weight(ps[w]) == Busy(ps) + Weight(p)
  {
    var n := |ps| - 1;
    if w < n {
      BusyUpdate(ps[..n], w, p);
      assert ps[w := p][..n] == ps[..n][w := p];
    } else {
      assert ps[w := p][..n] == ps[..n];
    }
  }

  /** The next step of a writer that is not idle. */
  function Leave(p: Phase, w: nat): Step
    requires p != Idle
  {
    match p
    case Announced => Check(w)
    case Inside => Release(w)
    case Refused => Withdraw(w)
  }

  /** From every reachable frozen state the writers can leave, without any new announcement, and then all are idle. */
  lemma {:induction false} WritersCanLeave(s: State, slots: seq<nat>, n: nat) returns (run: seq<Step>)
    requires Shape(s, slots, n) && s.frozen
    ensures Runs(s, slots, n, run) && AllIdle(After(s, slots, n, run))
    ensures forall i :: 0 <= i < |run| ==> run[i].Check? || run[i].Withdraw? || run[i].Release?
    decreases Busy(s.phases)
  {
    run := [];
    if !AllIdle(s) {
      var w :| 0 <= w < |s.phases| && s.phases[w] != Idle;
      var a := Leave(s.phases[w], w);
      var t := Next(s, slots, n, a);
      BusyUpdate(s.phases, w, t.phases[w]);
      assert t.phases == s.phases[w := t.phases[w]];
      var rest := WritersCanLeave(t, slots, n);
      hide Runs, After;
      OneMore(s, slots, n, a, rest);
      run := [a] + rest;
    }
  }

  /**
   * With a slot of its own for every writer, once a scan has come back empty nobody is inside, nobody ever will be,
   * and no later step adds a write: the flusher sees all of them.
   */
  lemma {:induction false} DrainIsFinal(slots: seq<nat>, n: nat, run: seq<Step>, later: seq<Step>)
    requires Unshared(slots) && Config(slots, n) && Runs(Init(slots, n), slots, n, run)
    requires After(Init(slots, n), slots, n, run).drained && Runs(After(Init(slots, n), slots, n, run), slots, n, later)
    ensures var s := After(Init(slots, n), slots, n, run);
            Empty(s) && Empty(After(s, slots, n, later)) && After(s, slots, n, later).log == s.log
  {
    RunKeepsInv(Init(slots, n), slots, n, run);
    RunKeepsInv(After(Init(slots, n), slots, n, run), slots, n, later);
  }

  /** Some run ends with the object declared drained while a writer is inside. */
  ghost predicate Unsafe(slots: seq<nat>, n: nat, run: seq<Step>) {
    Runs(Init(slots, n), slots, n, run) && After(Init(slots, n), slots, n, run).drained && !Empty(After(Init(slots, n), slots, n, run))
  }

  /** Scanning slots that are all empty. */
  lemma {:induction false} ScanRuns(s: State, slots: seq<nat>, n: nat) returns (run: seq<Step>)
    requires Shape(s, slots, n) && s.scan.Some? && s.scan.value <= n && forall i :: 0 <= i < n ==> s.counters[i] == 0
    ensures Runs(s, slots, n, run) && After(s, slots, n, run).drained && After(s, slots, n, run).phases == s.phases
    decreases n - s.scan.value
  {
    var t := Next(s, slots, n, ScanSlot);
    if s.scan.value == n {
      run := [ScanSlot];
      assert run[1..] == [] && Runs(t, slots, n, []);
    } else {
      var rest := ScanRuns(t, slots, n);
      run := [ScanSlot] + rest;
      assert run[1..] == rest;
    }
  }

  lemma {:induction false} OneMore(s: State, slots: seq<nat>, n: nat, a: Step, rest: seq<Step>)
    requires Shape(s, slots, n) && Enabled(s, slots, n, a) && Runs(Next(s, slots, n, a), slots, n, rest)
    ensures Runs(s, slots, n, [a] + rest) && After(s, slots, n, [a] + rest) == After(Next(s, slots, n, a), slots, n, rest)
  {
    FirstStep(s, slots, n, [a] + rest, rest);
  }

  lemma {:induction false} RunsOn(s: State, slots: seq<nat>, n: nat, a: seq<Step>, b: seq<Step>)
    requires Runs(s, slots, n, a) && Runs(After(s, slots, n, a), slots, n, b)
    ensures Runs(s, slots, n, a + b) && After(s, slots, n, a + b) == After(After(s, slots, n, a), slots, n, b)
    decreases a
  {
    hide Shape;
    if a == [] {
      assert a + b == b;
    } else {
      RunsOn(Next(s, slots, n, a[0]), slots, n, a[1..], b);
      assert (a + b)[1..] == a[1..] + b;
    }
  }

  /** From every reachable frozen state the object can be drained: the wait of the flusher can always end. */
  lemma {:induction false} CanDrain(slots: seq<nat>, n: nat, run: seq<Step>) returns (more: seq<Step>)
    requires Unshared(slots) && Config(slots, n) && Runs(Init(slots, n), slots, n, run) && After(Init(slots, n), slots, n, run).frozen
    ensures Runs(After(Init(slots, n), slots, n, run), slots, n, more)
    ensures After(After(Init(slots, n), slots, n, run), slots, n, more).drained
  {
    var s := After(Init(slots, n), slots, n, run);
    RunKeepsInv(Init(slots, n), slots, n, run);
    var leave := WritersCanLeave(s, slots, n);
    RunKeepsInv(s, slots, n, leave);
    var t := After(s, slots, n, leave);
    hide Runs, After;
    var scan := IdleScan(t, slots, n);
    RunsOn(s, slots, n, leave, scan);
    more := leave + scan;
  }

  /** When all writers are idle, scanning drains the object. */
  lemma {:induction false} IdleScan(s: State, slots: seq<nat>, n: nat) returns (scan: seq<Step>)
    requires Inv(s, slots, n) && s.frozen && AllIdle(s)
    ensures Runs(s, slots, n, scan) && After(s, slots, n, scan).drained
  {
    forall w | 0 <= w < |slots|
      ensures s.counters[slots[w]] == 0
    {
      assert CounterTells(s, slots, n, w);
    }
    ClearIff(s, slots, n);
    if s.drained {
      scan := [];
      RunOfNone(s, slots, n);
    } else if s.scan.Some? {
      scan := ScanRuns(s, slots, n);
    } else {
      scan := ScanRuns(Next(s, slots, n, StartScan), slots, n);
      OneMore(s, slots, n, StartScan, scan);
      scan := [StartScan] + scan;
    }
  }

  /** Two writers in one slot: the first to leave clears the counter of the one still inside. */
  lemma {:induction false} SharedSlotIsUnsafe(slots: seq<nat>, n: nat, v: nat, w: nat) returns (run: seq<Step>)
    requires Config(slots, n) && v < w < |slots| && slots[v] == slots[w]
    ensures Unsafe(slots, n, run)
  {
    hide Runs, After;
    var s0 := Init(slots, n);
    var s1 := Next(s0, slots, n, Announce(v));
    var s2 := Next(s1, slots, n, Check(v));
    var s3 := Next(s2, slots, n, Announce(w));
    var s4 := Next(s3, slots, n, Check(w));
    var s5 := Next(s4, slots, n, Release(w));
    var s6 := Next(s5, slots, n, Freeze);
    var s7 := Next(s6, slots, n, StartScan);
    run := ScanRuns(s7, slots, n);
    OneMore(s6, slots, n, StartScan, run);
    run := [StartScan] + run;
    OneMore(s5, slots, n, Freeze, run);
    run := [Freeze] + run;
    OneMore(s4, slots, n, Release(w), run);
    run := [Release(w)] + run;
    OneMore(s3, slots, n, Check(w), run);
    run := [Check(w)] + run;
    OneMore(s2, slots, n, Announce(w), run);
    run := [Announce(w)] + run;
    OneMore(s1, slots, n, Check(v), run);
    run := [Check(v)] + run;
    OneMore(s0, slots, n, Announce(v), run);
    run := [Announce(v)] + run;
    assert After(s0, slots, n, run).phases[v] == Inside;
  }

  /** The drain is safe in every interleaving if and only if no two writers share a slot. */
  lemma {:induction false} DrainSafeIff(slots: seq<nat>, n: nat)
    requires Config(slots, n)
    ensures Unshared(slots) <==> forall run :: !Unsafe(slots, n, run)
  {
    if Unshared(slots) {
      forall run
        ensures !Unsafe(slots, n, run)
      {
        if Unsafe(slots, n, run) {
          RunKeepsInv(Init(slots, n), slots, n, run);
        }
      }
    } else {
      var v, w :| 0 <= v < w < |slots| && slots[v] == slots[w];
      var run := SharedSlotIsUnsafe(slots, n, v, w);
    }
  }

  /** Slots are thread indices modulo the configured number, so they are unshared exactly for that many threads at most. */
  lemma {:induction false} ThreadSlots(slots: seq<nat>, n: nat)
    requires n > 0 && forall w :: 0 <= w < |slots| ==> slots[w] == w % n
    ensures Config(slots, n) && (Unshared(slots) <==> |slots| <= n)
  {
    if n < |slots| {
      assert slots[0] == slots[n];
    } else {
      assert forall w :: 0 <= w < |slots| ==> slots[w] == w;
    }
  }
}
