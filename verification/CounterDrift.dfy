/** How far the state counters and the rows of a device come apart over a batch of state writes: a
    write counts its row out of the state it passes, not out of the state the row has. */
module CounterDrift {
  import opened Common
  import opened Metrics
  import opened Store

  /** The ids of rows in state s. */
  function Among(ids: set<string>, rows: Rows, s: int): set<string> {
    set id | id in ids && StateOf(rows, id) == s
  }

  /** The rows of ids are written, each passing the old state that shown shows (0 when it shows no
      such row), and the rows of removed are deleted without telling the counters. */
  datatype StateWrites = StateWrites(ids: set<string>, shown: Rows, removed: set<string>)

  const NO_WRITES := StateWrites({}, map[], {})

  /** How much the writes move the drift of state s, from rows. */
  function Movement(w: StateWrites, rows: Rows, s: int): int {
    |Among(w.ids, rows, s)| - |Among(w.ids, w.shown, s)| + |Among(w.removed, rows, s)|
  }

  ghost predicate DriftMoves(devices: map<string, Device>, counts: Counters, devices': map<string, Device>,
                             counts': Counters, mac: string, w: StateWrites, rows: Rows) {
    forall s :: IsState(s) ==>
      Drift(devices', counts', mac, s) == Drift(devices, counts, mac, s) + Movement(w, rows, s)
  }

  lemma NothingMoves(rows: Rows, shown: Rows, s: int)
    ensures Movement(StateWrites({}, shown, {}), rows, s) == 0
  {
    assert Among({}, rows, s) == {} && Among({}, shown, s) == {};
  }

  lemma NothingMovesYet(devices: map<string, Device>, counts: Counters, mac: string, shown: Rows, rows: Rows)
    ensures DriftMoves(devices, counts, devices, counts, mac, StateWrites({}, shown, {}), rows)
  {
    forall s | IsState(s) ensures Movement(StateWrites({}, shown, {}), rows, s) == 0 {
      NothingMoves(rows, shown, s);
    }
  }

  lemma AmongOneMore(ids: set<string>, rows: Rows, s: int, id: string)
    requires id !in ids
    ensures |Among(ids + {id}, rows, s)| == |Among(ids, rows, s)| + Indicator(StateOf(rows, id) == s)
  {
    if StateOf(rows, id) == s {
      assert Among(ids + {id}, rows, s) == Among(ids, rows, s) + {id};
    } else {
      assert Among(ids + {id}, rows, s) == Among(ids, rows, s);
    }
  }

  /** One more row of the batch is written. */
  lemma OneMoreWrite(devices: map<string, Device>, counts: Counters, devices1: map<string, Device>, counts1: Counters,
                     devices2: map<string, Device>, counts2: Counters, mac: string, ids: set<string>, shown: Rows,
                     rows: Rows, id: string)
    requires id !in ids
    requires DriftMoves(devices, counts, devices1, counts1, mac, StateWrites(ids, shown, {}), rows)
    requires DriftShifts(devices1, counts1, devices2, counts2, mac, StateOf(rows, id), StateOf(shown, id))
    ensures DriftMoves(devices, counts, devices2, counts2, mac, StateWrites(ids + {id}, shown, {}), rows)
  {
    forall s | IsState(s)
      ensures Movement(StateWrites(ids + {id}, shown, {}), rows, s)
           == Movement(StateWrites(ids, shown, {}), rows, s)
              + Indicator(StateOf(rows, id) == s) - Indicator(StateOf(shown, id) == s)
    {
      AmongOneMore(ids, rows, s, id);
      AmongOneMore(ids, shown, s, id);
    }
  }

  lemma RemovalCount(rows: Rows, removed: set<string>, s: int)
    requires IsState(s)
    ensures |InState(rows, s)| == |InState(rows - removed, s)| + |Among(removed, rows, s)|
  {
    assert InState(rows, s) == InState(rows - removed, s) + Among(removed, rows, s);
  }

  /** Deleting rows takes them out of their states; the counters do not hear of it. */
  lemma RemovalDrifts(devices: map<string, Device>, counts: Counters, devices': map<string, Device>, mac: string,
                      removed: set<string>)
    requires DeviceOf(devices', mac).rows == DeviceOf(devices, mac).rows - removed
    ensures DriftMoves(devices, counts, devices', counts, mac, StateWrites({}, map[], removed),
                       DeviceOf(devices, mac).rows)
  {
    var rows := DeviceOf(devices, mac).rows;
    forall s | IsState(s)
      ensures Drift(devices', counts, mac, s)
           == Drift(devices, counts, mac, s) + Movement(StateWrites({}, map[], removed), rows, s)
    {
      NothingMoves(rows, map[], s);
      RemovalCount(rows, removed, s);
    }
  }

  /** A batch of writes, then a batch of deletions of other rows. */
  lemma WritesThenRemoval(devices: map<string, Device>, counts: Counters, devices1: map<string, Device>,
                          counts1: Counters,
                          devices2: map<string, Device>, counts2: Counters, mac: string, ids: set<string>, shown: Rows,
                          removed: set<string>, rows: Rows, rows1: Rows)
    requires DriftMoves(devices, counts, devices1, counts1, mac, StateWrites(ids, shown, {}), rows)
    requires DriftMoves(devices1, counts1, devices2, counts2, mac, StateWrites({}, map[], removed), rows1)
    requires forall id :: id in removed ==> StateOf(rows1, id) == StateOf(rows, id)
    ensures DriftMoves(devices, counts, devices2, counts2, mac, StateWrites(ids, shown, removed), rows)
  {
    forall s | IsState(s)
      ensures Movement(StateWrites(ids, shown, removed), rows, s)
           == Movement(StateWrites(ids, shown, {}), rows, s) + Movement(StateWrites({}, map[], removed), rows1, s)
    {
      assert Among(removed, rows1, s) == Among(removed, rows, s);
      assert Among({}, rows, s) == {} && Among({}, rows1, s) == {} && Among({}, map[], s) == {};
    }
  }

  // ---------- when nothing comes apart ----------

  /** Every write passes the state its row has, and no deleted row is in a state. */
  ghost predicate Truthful(w: StateWrites, rows: Rows) {
    && (forall id :: id in w.ids ==> Clip(StateOf(w.shown, id)) == Clip(StateOf(rows, id)))
    && (forall id :: id in w.removed ==> !IsState(StateOf(rows, id)))
  }

  /** A write that passes a wrong state either knows of none, or missed that the row got deployed. */
  ghost predicate OneWay(w: StateWrites, rows: Rows) {
    forall id :: id in w.ids ==>
      || Clip(StateOf(w.shown, id)) == Clip(StateOf(rows, id))
      || Clip(StateOf(w.shown, id)) == 0
      || StateOf(rows, id) == DEPLOYED
  }

  /** Errors of that kind cannot cancel: the drift stays exactly when every write is truthful. */
  lemma DriftStaysExactly(w: StateWrites, rows: Rows)
    requires OneWay(w, rows)
    ensures (forall s :: IsState(s) ==> Movement(w, rows, s) == 0) <==> Truthful(w, rows)
  {
    if Truthful(w, rows) {
      forall s | IsState(s) ensures Movement(w, rows, s) == 0 {
        assert Among(w.ids, rows, s) == Among(w.ids, w.shown, s);
        assert Among(w.removed, rows, s) == {};
      }
    } else {
      UntruthfulMoves(w, rows);
    }
  }

  /** So counters and rows of the device keep together exactly when every write is truthful. */
  lemma TruthKeepsDriftExactly(devices: map<string, Device>, counts: Counters, devices': map<string, Device>,
                               counts': Counters, mac: string, w: StateWrites, rows: Rows)
    requires DriftMoves(devices, counts, devices', counts', mac, w, rows)
    ensures Truthful(w, rows) ==> SameDrift(devices, counts, devices', counts', mac)
    ensures OneWay(w, rows) && SameDrift(devices, counts, devices', counts', mac) ==> Truthful(w, rows)
  {
    if Truthful(w, rows) || OneWay(w, rows) {
      DriftStaysExactly(w, rows);
    }
  }

  /** Deleting rows keeps counters and rows together exactly when none of them is in a state. */
  lemma RemovalDriftsExactly(devices: map<string, Device>, counts: Counters, devices': map<string, Device>, mac: string,
                             removed: set<string>)
    requires DeviceOf(devices', mac).rows == DeviceOf(devices, mac).rows - removed
    ensures SameDrift(devices, counts, devices', counts, mac)
            <==> forall id :: id in removed ==> !IsState(StateOf(DeviceOf(devices, mac).rows, id))
  {
    RemovalDrifts(devices, counts, devices', mac, removed);
    TruthKeepsDriftExactly(devices, counts, devices', counts, mac, StateWrites({}, map[], removed),
                           DeviceOf(devices, mac).rows);
  }

  /** A batch of writes that shows every stored row it writes, with its state, is truthful. */
  lemma ShownWritesAreTruthful(ids: set<string>, shown: Rows, rows: Rows)
    requires forall id :: id in shown ==> Clip(shown[id].GetState()) == Clip(StateOf(rows, id))
    requires ids * rows.Keys <= shown.Keys
    ensures Truthful(StateWrites(ids, shown, {}), rows)
  {
    forall id | id in ids ensures Clip(StateOf(shown, id)) == Clip(StateOf(rows, id)) {
      assert id in rows ==> id in ids * rows.Keys;
    }
  }

  lemma UntruthfulMoves(w: StateWrites, rows: Rows)
    requires OneWay(w, rows) && !Truthful(w, rows)
    ensures exists s :: IsState(s) && Movement(w, rows, s) != 0
  {
    SubsetSize(Among(w.ids, w.shown, DEPLOYED), Among(w.ids, rows, DEPLOYED));
    if Movement(w, rows, DEPLOYED) == 0 {
      // no row was deployed behind a write's back, so every error is a state that was not known
      assert Among(w.ids, w.shown, DEPLOYED) == Among(w.ids, rows, DEPLOYED);
      forall id | id in w.ids && StateOf(rows, id) == DEPLOYED ensures StateOf(w.shown, id) == DEPLOYED {
        assert id in Among(w.ids, rows, DEPLOYED);
      }
      var id :| (id in w.ids && Clip(StateOf(w.shown, id)) != Clip(StateOf(rows, id)))
             || (id in w.removed && IsState(StateOf(rows, id)));
      var s := StateOf(rows, id);
      SubsetSize(Among(w.ids, w.shown, s), Among(w.ids, rows, s));
      if id in w.removed && IsState(s) {
        assert id in Among(w.removed, rows, s);
      } else {
        assert id in Among(w.ids, rows, s) && id !in Among(w.ids, w.shown, s);
      }
    }
  }

  lemma SubsetSize(a: set<string>, b: set<string>)
    ensures a <= b ==> |a| <= |b| && (|a| == |b| ==> a == b)
  {
    if a <= b {
      assert b == a + (b - a);
    }
  }
}
