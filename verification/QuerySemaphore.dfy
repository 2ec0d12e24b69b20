/** The channel concurrentQueries of both database backends, used as a counting semaphore. Most calls
    take one slot; GetSubDocument on a row that holds a reference, and the SQLite backend's
    DeleteRootDocumentVersion, take a second slot while they hold the first. */
module QuerySemaphore {

  datatype Kind = Flat | Nesting

  /** Wanting is a nesting call that holds its slot and has to get a second one. */
  datatype Phase = Waiting | Holding | Wanting | HoldingTwo | Leaving | Finished

  datatype Call = Call(kind: Kind, phase: Phase)

  type System = seq<Call>

  function Slots(phase: Phase): nat {
    match phase
    case Waiting => 0
    case Holding => 1
    case Wanting => 1
    case HoldingTwo => 2
    case Leaving => 1
    case Finished => 0
  }

  /** What one call may do next. A nesting call that finds no reference gives its slot back. */
  predicate CanGo(call: Call, next: Phase, free: bool) {
    match call.phase
    case Waiting => free && next == Holding
    case Holding => next == Finished || (call.kind == Nesting && next == Wanting)
    case Wanting => free && next == HoldingTwo
    case HoldingTwo => next == Leaving
    case Leaving => next == Finished
    case Finished => false
  }

  function Held(calls: System): nat {
    if calls == [] then 0 else Slots(calls[0].phase) + Held(calls[1..])
  }

  predicate Goes(calls: System, capacity: nat, i: nat, next: Phase) {
    i < |calls| && CanGo(calls[i], next, Held(calls) < capacity)
  }

  function Gone(calls: System, i: nat, next: Phase): System
    requires i < |calls|
  {
    calls[i := calls[i].(phase := next)]
  }

  ghost predicate Steps(calls: System, calls': System, capacity: nat) {
    exists i: nat, next :: Goes(calls, capacity, i, next) && calls' == Gone(calls, i, next)
  }

  function Start(kinds: seq<Kind>): System {
    seq(|kinds|, i requires 0 <= i < |kinds| => Call(kinds[i], Waiting))
  }

  ghost predicate Run(run: seq<System>, kinds: seq<Kind>, capacity: nat) {
    && run != [] && run[0] == Start(kinds)
    && forall i :: 0 <= i < |run| - 1 ==> Steps(run[i], run[i + 1], capacity)
  }

  ghost predicate Reachable(calls: System, kinds: seq<Kind>, capacity: nat) {
    exists run :: Run(run, kinds, capacity) && run[|run| - 1] == calls
  }

  predicate Unfinished(calls: System) {
    exists i :: 0 <= i < |calls| && calls[i].phase != Finished
  }

  ghost predicate Stuck(calls: System, capacity: nat) {
    Unfinished(calls) && forall i: nat, next :: !Goes(calls, capacity, i, next)
  }

  /** Nesting calls that hold a slot. */
  function InFlight(calls: System): nat {
    if calls == [] then 0
    else (if calls[0].kind == Nesting && Slots(calls[0].phase) > 0 then 1 else 0) + InFlight(calls[1..])
  }

  function NestingCount(kinds: seq<Kind>): nat {
    if kinds == [] then 0 else (if kinds[0] == Nesting then 1 else 0) + NestingCount(kinds[1..])
  }

  /** Only nesting calls reach the phases of a second slot. */
  ghost predicate Formed(calls: System) {
    forall i :: 0 <= i < |calls| && calls[i].kind == Flat ==> calls[i].phase in {Waiting, Holding, Finished}
  }

  // ---------- counting ----------

  lemma {:induction false} HeldUpdate(calls: System, i: nat, call: Call)
    requires i < |calls|
    ensures Held(calls[i := call]) == Held(calls) - Slots(calls[i].phase) + Slots(call.phase)
  {
    if i > 0 {
      assert calls[i := call][1..] == calls[1..][i - 1 := call];
      HeldUpdate(calls[1..], i - 1, call);
    }
  }

  /** When every call waits, wants or is done, the held slots are those of the wanting calls. */
  lemma {:induction false} HeldByWanting(calls: System)
    requires Formed(calls)
    requires forall i :: 0 <= i < |calls| ==> calls[i].phase in {Waiting, Wanting, Finished}
    ensures Held(calls) == InFlight(calls)
  {
    if calls != [] {
      assert Formed(calls[1..]);
      HeldByWanting(calls[1..]);
    }
  }

  lemma {:induction false} InFlightWithin(calls: System, kinds: seq<Kind>)
    requires |calls| == |kinds|
    requires forall i :: 0 <= i < |calls| ==> calls[i].kind == kinds[i]
    ensures InFlight(calls) <= NestingCount(kinds)
  {
    if calls != [] {
      InFlightWithin(calls[1..], kinds[1..]);
    }
  }

  // ---------- every run ----------

  ghost predicate Invariant(calls: System, kinds: seq<Kind>, capacity: nat) {
    && |calls| == |kinds|
    && (forall i :: 0 <= i < |calls| ==> calls[i].kind == kinds[i])
    && Formed(calls)
    && Held(calls) <= capacity
  }

  lemma {:induction false} StartHoldsNothing(kinds: seq<Kind>)
    ensures Held(Start(kinds)) == 0
  {
    if kinds != [] {
      assert Start(kinds)[1..] == Start(kinds[1..]);
      StartHoldsNothing(kinds[1..]);
    }
  }

  lemma StepKeepsInvariant(calls: System, calls': System, kinds: seq<Kind>, capacity: nat)
    requires Invariant(calls, kinds, capacity) && Steps(calls, calls', capacity)
    ensures Invariant(calls', kinds, capacity)
  {
    var i: nat, next :| Goes(calls, capacity, i, next) && calls' == Gone(calls, i, next);
    HeldUpdate(calls, i, calls[i].(phase := next));
  }

  /** The semaphore never gives out more slots than it has. */
  lemma {:induction false} RunKeepsInvariant(run: seq<System>, kinds: seq<Kind>, capacity: nat, i: nat)
    requires Run(run, kinds, capacity) && i < |run|
    ensures Invariant(run[i], kinds, capacity)
  {
    if i == 0 {
      StartHoldsNothing(kinds);
    } else {
      RunKeepsInvariant(run, kinds, capacity, i - 1);
      StepKeepsInvariant(run[i - 1], run[i], kinds, capacity);
    }
  }

  /** Progress from one state: fewer nesting calls in flight than slots means some call can go. */
  lemma Progress(calls: System, kinds: seq<Kind>, capacity: nat)
    requires Invariant(calls, kinds, capacity) && InFlight(calls) < capacity && Unfinished(calls)
    ensures exists i: nat, next :: Goes(calls, capacity, i, next)
  {
    if i :| 0 <= i < |calls| && calls[i].phase in {Holding, HoldingTwo, Leaving} {
      assert Goes(calls, capacity, i, if calls[i].phase == HoldingTwo then Leaving else Finished);
    } else {
      assert forall i :: 0 <= i < |calls| ==> calls[i].phase in {Waiting, Wanting, Finished};
      HeldByWanting(calls);
      var i :| 0 <= i < |calls| && calls[i].phase != Finished;
      assert Goes(calls, capacity, i, if calls[i].phase == Waiting then Holding else HoldingTwo);
    }
  }

  // ---------- remaining work ----------

  function Rank(call: Call): nat {
    match call.phase
    case Waiting => 5
    case Holding => 4
    case Wanting => 3
    case HoldingTwo => 2
    case Leaving => 1
    case Finished => 0
  }

  function Work(calls: System): nat {
    if calls == [] then 0 else Rank(calls[0]) + Work(calls[1..])
  }

  lemma {:induction false} WorkUpdate(calls: System, i: nat, call: Call)
    requires i < |calls|
    ensures Work(calls[i := call]) == Work(calls) - Rank(calls[i]) + Rank(call)
  {
    if i > 0 {
      assert calls[i := call][1..] == calls[1..][i - 1 := call];
      WorkUpdate(calls[1..], i - 1, call);
    }
  }

  /** Every step lowers the remaining work, so no run is longer than the work it starts with. */
  lemma {:induction false} RunsEnd(run: seq<System>, kinds: seq<Kind>, capacity: nat, i: nat)
    requires Run(run, kinds, capacity) && i < |run|
    ensures i + Work(run[i]) <= Work(Start(kinds))
  {
    if i > 0 {
      RunsEnd(run, kinds, capacity, i - 1);
      assert Steps(run[i - 1], run[i], capacity);
      var j: nat, next :| Goes(run[i - 1], capacity, j, next) && run[i] == Gone(run[i - 1], j, next);
      WorkUpdate(run[i - 1], j, run[i - 1][j].(phase := next));
    }
  }

  // ---------- exactly when no deadlock is reachable ----------

  lemma StartReachable(kinds: seq<Kind>, capacity: nat)
    ensures Reachable(Start(kinds), kinds, capacity)
  {
    assert Run([Start(kinds)], kinds, capacity);
  }

  lemma OneMoreStep(calls: System, kinds: seq<Kind>, capacity: nat, i: nat, next: Phase)
    requires Reachable(calls, kinds, capacity) && Goes(calls, capacity, i, next)
    ensures Reachable(Gone(calls, i, next), kinds, capacity)
  {
    var run :| Run(run, kinds, capacity) && run[|run| - 1] == calls;
    var longer := run + [Gone(calls, i, next)];
    assert Steps(calls, Gone(calls, i, next), capacity);
    forall k | 0 <= k < |longer| - 1 ensures Steps(longer[k], longer[k + 1], capacity) {
      if k < |run| - 1 {
        assert longer[k] == run[k] && longer[k + 1] == run[k + 1];
      }
    }
    assert Run(longer, kinds, capacity);
  }

  /** The calls of parked want their second slot, all others wait. */
  function Parked(kinds: seq<Kind>, parked: set<nat>): System {
    seq(|kinds|, i requires 0 <= i < |kinds| => Call(kinds[i], if i in parked then Wanting else Waiting))
  }

  lemma {:induction false} ParkedReachable(kinds: seq<Kind>, capacity: nat, parked: set<nat>)
    requires |parked| <= capacity
    requires forall i :: i in parked ==> i < |kinds| && kinds[i] == Nesting
    ensures Reachable(Parked(kinds, parked), kinds, capacity) && Held(Parked(kinds, parked)) == |parked|
    decreases parked
  {
    if parked == {} {
      assert Parked(kinds, parked) == Start(kinds);
      StartReachable(kinds, capacity);
      StartHoldsNothing(kinds);
    } else {
      var i :| i in parked;
      var fewer := Parked(kinds, parked - {i});
      ParkedReachable(kinds, capacity, parked - {i});
      OneMoreStep(fewer, kinds, capacity, i, Holding);
      var holding := Gone(fewer, i, Holding);
      OneMoreStep(holding, kinds, capacity, i, Wanting);
      assert Gone(holding, i, Wanting) == Parked(kinds, parked);
      assert Parked(kinds, parked) == fewer[i := Call(kinds[i], Wanting)];
      HeldUpdate(fewer, i, Call(kinds[i], Wanting));
    }
  }

  lemma {:induction false} EnoughNesting(kinds: seq<Kind>, n: nat) returns (parked: set<nat>)
    requires n <= NestingCount(kinds)
    ensures |parked| == n && forall i :: i in parked ==> i < |kinds| && kinds[i] == Nesting
  {
    if n == 0 {
      parked := {};
    } else {
      var first := if kinds[0] == Nesting then 1 else 0;
      var tail := EnoughNesting(kinds[1..], n - first);
      var shifted := Shifted(tail);
      assert forall i :: i in shifted ==> kinds[i] == kinds[1..][i - 1];
      parked := if kinds[0] == Nesting then shifted + {0} else shifted;
    }
  }

  lemma Shifted(s: set<nat>) returns (t: set<nat>)
    ensures |t| == |s| && forall i :: i in t <==> i > 0 && i - 1 in s
  {
    t := set i | i in s :: i + 1;
    ShiftKeepsSize(s, t);
  }

  lemma {:induction false} ShiftKeepsSize(s: set<nat>, t: set<nat>)
    requires forall i: nat :: i in s <==> i + 1 in t
    requires 0 !in t
    ensures |t| == |s|
    decreases s
  {
    if s == {} {
      assert forall j: nat :: j in t ==> j == 0 || j - 1 in s;
      assert t == {};
    } else {
      var i :| i in s;
      assert i + 1 in t;
      ShiftKeepsSize(s - {i}, t - {i + 1});
    }
  }

  /** A deadlock is reachable exactly when some call is issued and at least as many nesting calls as the
      semaphore has slots. */
  lemma DeadlockFreeExactly(kinds: seq<Kind>, capacity: nat)
    ensures (forall calls :: Reachable(calls, kinds, capacity) ==> !Stuck(calls, capacity))
            <==> NestingCount(kinds) < capacity || kinds == []
  {
    if kinds == [] {
      forall calls | Reachable(calls, kinds, capacity) ensures !Stuck(calls, capacity) {
        var run :| Run(run, kinds, capacity) && run[|run| - 1] == calls;
        RunKeepsInvariant(run, kinds, capacity, |run| - 1);
      }
    } else if capacity == 0 {
      StartReachable(kinds, capacity);
      StartHoldsNothing(kinds);
      assert Start(kinds)[0].phase == Waiting;
      assert Stuck(Start(kinds), capacity);
    } else if NestingCount(kinds) < capacity {
      forall calls | Reachable(calls, kinds, capacity) ensures !Stuck(calls, capacity) {
        var run :| Run(run, kinds, capacity) && run[|run| - 1] == calls;
        RunKeepsInvariant(run, kinds, capacity, |run| - 1);
        InFlightWithin(calls, kinds);
        if Unfinished(calls) {
          Progress(calls, kinds, capacity);
        }
      }
    } else {
      var parked := EnoughNesting(kinds, capacity);
      ParkedReachable(kinds, capacity, parked);
      var i :| i in parked;
      assert Parked(kinds, parked)[i].phase == Wanting;
      assert Stuck(Parked(kinds, parked), capacity);
    }
  }
}
