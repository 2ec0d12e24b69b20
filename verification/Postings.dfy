/** http/document_handler.go: what a POST to several devices leaves behind, and how far it moves the counters
    from the rows: one old state, taken from a header, is passed for all of them. */
module Postings {
  import opened Common
  import opened Metrics
  import opened Store
  import opened Steps
  import opened StateCounters

  /** A header that should hold an integer. */
  datatype NumberHeader = Absent | Number(i: int) | Garbage

  function Text(bytes: Bytes): string {
    seq(|bytes|, i requires 0 <= i < |bytes| => bytes[i] as int as char)
  }

  /** A POST without a version header gets the hash of its body for version. */
  function PostVersion(cfg: Config, body: Bytes, versionHeader: string): string {
    if |versionHeader| == 0 then cfg.murmur(Text(body)) else versionHeader
  }

  function HeaderNumber(header: NumberHeader): Option<int> {
    if header.Number? then Some(header.i) else None
  }

  function PostRecord(cfg: Config, body: Bytes, versionHeader: string, stateHeader: StateHeader,
                      expiryHeader: NumberHeader, now: nat): SubDocument {
    PostedRecord(body, PostVersion(cfg, body, versionHeader), stateHeader, HeaderNumber(expiryHeader), now)
  }

  /** Posting the same record twice is posting it once, so a device listed twice does not matter. */
  lemma PostedTwice(cfg: Config, dev: Device, id: string, d: SubDocument, now: int)
    ensures Posted(cfg, Posted(cfg, dev, id, d, now), id, d, now) == Posted(cfg, dev, id, d, now)
  {
    var rows := RowWritten(dev, id, d).rows;
    assert rows[id := Upsert(rows[id], d)] == rows;
  }

  /** The devices after a record went to all of ids, the others untouched. */
  ghost predicate PostedTo(cfg: Config, before: map<string, Device>, ids: seq<string>, id: string, d: SubDocument,
                           now: int, after: map<string, Device>) {
    forall mac ::
      DeviceOf(after, mac)
      == if mac in ids then Posted(cfg, DeviceOf(before, mac), id, d, now) else DeviceOf(before, mac)
  }

  /** The versions answered are the ones stored, for exactly the devices of ids. */
  ghost predicate AnswersStored(versions: map<string, string>, ids: seq<string>, devices: map<string, Device>) {
    && (forall mac :: mac in versions <==> mac in ids)
    && (forall mac :: mac in versions ==>
        DeviceOf(devices, mac).root.Some? && DeviceOf(devices, mac).root.value.version == versions[mac])
  }

  lemma PostedOneMore(cfg: Config, before: map<string, Device>, ids: seq<string>, id: string, d: SubDocument, now: int,
                      devices: map<string, Device>, mac: string)
    requires PostedTo(cfg, before, ids, id, d, now, devices)
    ensures PostedTo(cfg, before, ids + [mac], id, d, now,
                     devices[mac := Posted(cfg, DeviceOf(devices, mac), id, d, now)])
  {
    PostedTwice(cfg, DeviceOf(before, mac), id, d, now);
  }

  lemma AnswersOneMore(versions: map<string, string>, ids: seq<string>, devices: map<string, Device>,
                       devices': map<string, Device>, mac: string, version: string)
    requires AnswersStored(versions, ids, devices) && OnlyChanged(devices, devices', mac)
    requires DeviceOf(devices', mac).root.Some? && DeviceOf(devices', mac).root.value.version == version
    ensures AnswersStored(versions[mac := version], ids + [mac], devices')
  {
  }

  // ---------- the counters over the devices of one POST ----------

  /** The state of the row when the turn of device i comes: the stored one, or the one posted to it before. */
  function TurnState(before: map<string, Device>, ids: seq<string>, i: nat, id: string, d: SubDocument): int
    requires i < |ids|
  {
    if ids[i] in ids[..i] then d.GetState() else StateOf(DeviceOf(before, ids[i]).rows, id)
  }

  lemma TurnStateIsStored(cfg: Config, before: map<string, Device>, ids: seq<string>, i: nat, id: string,
                          d: SubDocument, now: int, devices: map<string, Device>)
    requires i < |ids| && d.state.Some? && PostedTo(cfg, before, ids[..i], id, d, now, devices)
    ensures StateOf(DeviceOf(devices, ids[i]).rows, id) == TurnState(before, ids, i, id, d)
  {
    assert DeviceOf(devices, ids[i])
        == if ids[i] in ids[..i] then Posted(cfg, DeviceOf(before, ids[i]), id, d, now) else DeviceOf(before, ids[i]);
  }

  /** The old state of the header is that of every device when its turn comes. */
  ghost predicate OldStateTrue(before: map<string, Device>, ids: seq<string>, id: string, d: SubDocument,
                               oldState: int) {
    forall i :: 0 <= i < |ids| ==> Clip(oldState) == Clip(TurnState(before, ids, i, id, d))
  }

  /** How far the first n writes move the counter of state s from the rows in it. */
  function Moved(before: map<string, Device>, ids: seq<string>, n: nat, id: string, d: SubDocument, oldState: int,
                 s: int): int
    requires n <= |ids|
  {
    if n == 0 then 0
    else
      Moved(before, ids, n - 1, id, d, oldState, s)
      + Indicator(TurnState(before, ids, n - 1, id, d) == s) - Indicator(oldState == s)
  }

  ghost predicate BalanceMoved(before: map<string, Device>, counts: Counters, after: map<string, Device>,
                               counts': Counters, ids: seq<string>, n: nat, id: string, d: SubDocument, oldState: int)
    requires n <= |ids|
  {
    forall s :: IsState(s) ==>
      Net(counts', s) - Total(after, s)
      == Net(counts, s) - Total(before, s) + Moved(before, ids, n, id, d, oldState, s)
  }

  /** One more device is written. */
  lemma OneMoreTurn(before: map<string, Device>, counts: Counters, devices: map<string, Device>, counts1: Counters,
                    devices': map<string, Device>, counts2: Counters, ids: seq<string>, i: nat, id: string,
                    d: SubDocument, oldState: int)
    requires i < |ids| && BalanceMoved(before, counts, devices, counts1, ids, i, id, d, oldState)
    requires OnlyChanged(devices, devices', ids[i])
    requires DriftShifts(devices, counts1, devices', counts2, ids[i], TurnState(before, ids, i, id, d), oldState)
    ensures BalanceMoved(before, counts, devices', counts2, ids, i + 1, id, d, oldState)
  {
    forall s | IsState(s)
      ensures Net(counts2, s) - Total(devices', s)
           == Net(counts, s) - Total(before, s) + Moved(before, ids, i + 1, id, d, oldState, s)
    {
      BalanceFollowsDrift(devices, counts1, devices', counts2, ids[i], s);
    }
  }

  /** All devices are passed one old state, so that errors cannot cancel: the counter of that state only falls
      behind its rows, and the others only run ahead. */
  lemma {:induction false} ErrorsAddUp(before: map<string, Device>, ids: seq<string>, n: nat, id: string,
                                       d: SubDocument, oldState: int, s: int)
    requires n <= |ids| && IsState(s)
    ensures oldState == s ==> Moved(before, ids, n, id, d, oldState, s) <= 0
    ensures oldState != s ==> Moved(before, ids, n, id, d, oldState, s) >= 0
    ensures Moved(before, ids, n, id, d, oldState, s) == 0
            <==> forall i :: 0 <= i < n ==> (oldState == s <==> TurnState(before, ids, i, id, d) == s)
  {
    if n > 0 {
      ErrorsAddUp(before, ids, n - 1, id, d, oldState, s);
    }
  }

  lemma NothingMovedExactly(before: map<string, Device>, ids: seq<string>, id: string, d: SubDocument, oldState: int)
    ensures (forall s :: IsState(s) ==> Moved(before, ids, |ids|, id, d, oldState, s) == 0)
            <==> OldStateTrue(before, ids, id, d, oldState)
  {
    if OldStateTrue(before, ids, id, d, oldState) {
      forall s | IsState(s) ensures Moved(before, ids, |ids|, id, d, oldState, s) == 0 {
        forall i | 0 <= i < |ids| ensures oldState == s <==> TurnState(before, ids, i, id, d) == s {
          assert Clip(oldState) == Clip(TurnState(before, ids, i, id, d));
        }
        ErrorsAddUp(before, ids, |ids|, id, d, oldState, s);
      }
    } else {
      var i :| 0 <= i < |ids| && Clip(oldState) != Clip(TurnState(before, ids, i, id, d));
      var s := if IsState(oldState) then oldState else TurnState(before, ids, i, id, d);
      ErrorsAddUp(before, ids, |ids|, id, d, oldState, s);
      assert Moved(before, ids, |ids|, id, d, oldState, s) != 0;
    }
  }

  /** So the counters follow the rows of the store exactly when the header is right for every turn. */
  lemma BalanceKeptExactly(before: map<string, Device>, counts: Counters, after: map<string, Device>,
                           counts': Counters, ids: seq<string>, id: string, d: SubDocument, oldState: int)
    requires BalanceMoved(before, counts, after, counts', ids, |ids|, id, d, oldState)
    ensures SameBalance(before, counts, after, counts') <==> OldStateTrue(before, ids, id, d, oldState)
  {
    NothingMovedExactly(before, ids, id, d, oldState);
  }

  /** The counters after the first n devices. */
  ghost predicate BalancesSoFar(before: map<string, Device>, counts: Counters, after: map<string, Device>,
                                counts': Counters, metrics: bool, ids: seq<string>, n: nat, id: string,
                                d: SubDocument, oldState: int)
    requires n <= |ids|
  {
    && (d.state.None? ==> SameBalance(before, counts, after, counts'))
    && (d.state.Some? && metrics ==> BalanceMoved(before, counts, after, counts', ids, n, id, d, oldState))
  }

  lemma BalancesFromHere(before: map<string, Device>, counts: Counters, metrics: bool, ids: seq<string>, id: string,
                         d: SubDocument, oldState: int)
    ensures BalancesSoFar(before, counts, before, counts, metrics, ids, 0, id, d, oldState)
  {
  }

  /** What a POST promises of the counters: they follow the rows when it writes no state, and exactly when the
      header is right for every turn when it does. */
  ghost predicate Balances(before: map<string, Device>, counts: Counters, after: map<string, Device>,
                           counts': Counters, metrics: bool, ids: seq<string>, id: string, d: SubDocument,
                           oldState: int) {
    && (d.state.None? ==> SameBalance(before, counts, after, counts'))
    && (d.state.Some? && metrics ==>
          (SameBalance(before, counts, after, counts') <==> OldStateTrue(before, ids, id, d, oldState)))
  }

  lemma BalancesAtLast(before: map<string, Device>, counts: Counters, after: map<string, Device>, counts': Counters,
                       metrics: bool, ids: seq<string>, id: string, d: SubDocument, oldState: int)
    requires BalancesSoFar(before, counts, after, counts', metrics, ids, |ids|, id, d, oldState)
    ensures Balances(before, counts, after, counts', metrics, ids, id, d, oldState)
  {
    if d.state.Some? && metrics {
      BalanceKeptExactly(before, counts, after, counts', ids, id, d, oldState);
    }
  }
}
