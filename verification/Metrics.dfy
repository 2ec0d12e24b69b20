/** common/metrics.go: the state counters and gauges that every state write updates. */
module Metrics {
  import opened Common

  datatype Labels = Labels(model: string, fwversion: string, client: string, feature: string)

  /** One counter of the four per-state vectors. */
  datatype Key = Key(state: int, labels: Labels)

  /** inc and dec are the increment and decrement counters, gauge the state gauges. */
  datatype Counters = Counters(inc: map<Key, int>, dec: map<Key, int>, gauge: map<Key, int>)

  const NO_COUNTS := Counters(map[], map[], map[])

  function At(m: map<Key, int>, k: Key): int {
    if k in m then m[k] else 0
  }

  function Bump(m: map<Key, int>, k: Key, n: int): map<Key, int> {
    m[k := At(m, k) + n]
  }

  /** The decrement functions of the four states are not alike: only PendingDownloadDec and
      InDeploymentDec lower the gauge. */
  predicate GaugeFalls(state: int) {
    state == PENDING_DOWNLOAD || state == IN_DEPLOYMENT
  }

  function Decremented(c: Counters, k: Key): Counters {
    c.(dec := Bump(c.dec, k, 1), gauge := if GaugeFalls(k.state) then Bump(c.gauge, k, -1) else c.gauge)
  }

  function Incremented(c: Counters, k: Key): Counters {
    c.(inc := Bump(c.inc, k, 1), gauge := Bump(c.gauge, k, 1))
  }

  /** UpdateStateMetrics as a function of the counters. */
  function Recorded(c: Counters, oldState: int, newState: int, labels: Labels): Counters {
    if oldState == newState then c
    else
      var c1 := if IsState(oldState) then Decremented(c, Key(oldState, labels)) else c;
      if IsState(newState) then Incremented(c1, Key(newState, labels)) else c1
  }

  // ---------- sums over all label sets ----------

  ghost function SumAt(m: map<Key, int>, s: int): int
    decreases m
  {
    if m == map[] then 0
    else
      var k :| k in m;
      (if k.state == s then m[k] else 0) + SumAt(m - {k}, s)
  }

  lemma {:induction false} SumAtWithout(m: map<Key, int>, s: int, k: Key)
    requires k in m
    ensures SumAt(m, s) == (if k.state == s then m[k] else 0) + SumAt(m - {k}, s)
    decreases m
  {
    var j :| j in m && SumAt(m, s) == (if j.state == s then m[j] else 0) + SumAt(m - {j}, s);
    if j != k {
      SumAtWithout(m - {j}, s, k);
      SumAtWithout(m - {k}, s, j);
      assert m - {j} - {k} == m - {k} - {j};
    }
  }

  lemma SumAtBump(m: map<Key, int>, s: int, k: Key, n: int)
    ensures SumAt(Bump(m, k, n), s) == SumAt(m, s) + (if k.state == s then n else 0)
  {
    var b := Bump(m, k, n);
    SumAtWithout(b, s, k);
    assert b - {k} == m - {k};
    if k in m {
      SumAtWithout(m, s, k);
    } else {
      assert m - {k} == m;
    }
  }

  /** Increments minus decrements of state s, summed over all label sets. */
  ghost function Net(c: Counters, s: int): int {
    SumAt(c.inc, s) - SumAt(c.dec, s)
  }

  function Indicator(b: bool): int {
    if b then 1 else 0
  }

  /** How much one state write moves the net count of state s. */
  function NetChange(oldState: int, newState: int, s: int): int {
    if oldState == newState then 0 else Indicator(newState == s) - Indicator(oldState == s)
  }

  lemma RecordedNet(c: Counters, oldState: int, newState: int, labels: Labels, s: int)
    requires IsState(s)
    ensures Net(Recorded(c, oldState, newState, labels), s) == Net(c, s) + NetChange(oldState, newState, s)
  {
    SumAtBump(c.inc, s, Key(newState, labels), 1);
    SumAtBump(c.dec, s, Key(oldState, labels), 1);
  }

  /** A gauge is increments minus decrements for the two states whose decrement lowers it, and
      the number of increments alone for Deployed and Failure. */
  ghost predicate GaugesAgree(c: Counters) {
    forall k: Key :: At(c.gauge, k) == At(c.inc, k) - (if GaugeFalls(k.state) then At(c.dec, k) else 0)
  }

  lemma DecrementedGauges(c: Counters, k: Key)
    requires GaugesAgree(c)
    ensures GaugesAgree(Decremented(c, k))
  {
  }

  lemma IncrementedGauges(c: Counters, k: Key)
    requires GaugesAgree(c)
    ensures GaugesAgree(Incremented(c, k))
  {
  }

  class AppMetrics {
    var counts: Counters

    constructor ()
      ensures counts == NO_COUNTS
    {
      counts := NO_COUNTS;
    }

    method Decrement(k: Key)
      modifies this
      ensures counts == Decremented(old(counts), k)
      ensures old(GaugesAgree(counts)) ==> GaugesAgree(counts)
    {
      if GaugesAgree(counts) {
        DecrementedGauges(counts, k);
      }
      if GaugeFalls(k.state) {
        counts := counts.(gauge := Bump(counts.gauge, k, -1));
      }
      counts := counts.(dec := Bump(counts.dec, k, 1));
    }

    method Increment(k: Key)
      modifies this
      ensures counts == Incremented(old(counts), k)
      ensures old(GaugesAgree(counts)) ==> GaugesAgree(counts)
    {
      if GaugesAgree(counts) {
        IncrementedGauges(counts, k);
      }
      counts := counts.(gauge := Bump(counts.gauge, k, 1));
      counts := counts.(inc := Bump(counts.inc, k, 1));
    }

    method UpdateStateMetrics(oldState: int, newState: int, labels: Labels)
      modifies this
      ensures counts == Recorded(old(counts), oldState, newState, labels)
      ensures forall s :: IsState(s) ==> Net(counts, s) == Net(old(counts), s) + NetChange(oldState, newState, s)
      ensures old(GaugesAgree(counts)) ==> GaugesAgree(counts)
    {
      ghost var before := counts;
      if oldState != newState {
        if IsState(oldState) {
          Decrement(Key(oldState, labels));
        }
        if IsState(newState) {
          Increment(Key(newState, labels));
        }
      }
      forall s | IsState(s) ensures Net(counts, s) == Net(before, s) + NetChange(oldState, newState, s) {
        RecordedNet(before, oldState, newState, labels, s);
      }
    }
  }
}
