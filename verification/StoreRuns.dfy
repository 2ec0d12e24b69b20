/** Runs of the service over the whole store: any requests, to any devices, and the state counters with them. */
module StoreRuns {
  import opened Common
  import opened Metrics
  import opened Store
  import opened Steps
  import opened Machine
  import opened StateCounters
  import opened Postings
  import ErrorFree

  /** What the service is asked. The macs of a POST are the device of the path followed by those of the query. */
  datatype Request =
    | Posting(macs: seq<string>, id: string, body: Bytes, versionHeader: string, stateHeader: StateHeader,
              expiryHeader: NumberHeader, oldStateHeader: NumberHeader, metricsAgent: string, now: nat)
    | DeletingSub(mac: string, id: string, now: nat)
    | DeletingDoc(mac: string, now: nat)
    | Fetching(mac: string, req: GetRequest, reply: UpstreamReply, now: nat)
    | Reporting(mac: string, m: EventMessage, metricsAgent: string, now: nat)
    | Poking(mac: string, metricsAgent: string, broker: BrokerReply, now: nat)
    | Precooking(mac: string, tag: string, now: nat)
  {
    predicate WellFormed() {
      (Posting? ==> macs != []) && (Fetching? ==> req.WellFormed())
    }
  }

  /** A request as it was served: under a reference table, with the version map attributed to the device. */
  datatype Call = Call(request: Request, refs: map<Bytes, Bytes>, deviceVersions: Versions)

  /** What a call does to one device of the store. */
  function StepFor(cfg: Config, call: Call, mac: string): Option<Step> {
    match call.request
    case Posting(macs, id, body, versionHeader, stateHeader, expiryHeader, _, _, now) =>
      if body == [] || expiryHeader.Garbage? || mac !in macs then None
      else Some(Post(id, body, PostVersion(cfg, body, versionHeader), stateHeader, HeaderNumber(expiryHeader), now))
    case DeletingSub(m, id, now) => if mac == m then Some(DeleteSub(id, now)) else None
    case DeletingDoc(m, now) => if mac == m then Some(DeleteDoc(now)) else None
    case Fetching(m, req, reply, now) =>
      if mac == m then Some(Get(req, call.deviceVersions, call.refs, reply, now)) else None
    case Reporting(m, message, _, now) => if mac == m then Some(Report(message, now)) else None
    case Poking(m, _, broker, now) => if mac == m then Some(Poke(broker, now)) else None
    case Precooking(m, tag, now) => if mac == m then Some(Precook(call.refs, tag, now)) else None
  }

  ghost predicate Progresses(cfg: Config, dev: Device, step: Option<Step>, dev': Device)
    requires cfg.Valid()
  {
    if step.None? then dev' == dev else Enabled(dev, step.value) && dev' == Next(cfg, dev, step.value)
  }

  /** When a call tells the counters the truth: a POST that writes a state passes that of each row in turn, a
      DELETE deletes no row in a state, and a config request is truthful about its rows. */
  ghost predicate TruthfulCall(cfg: Config, devices: map<string, Device>, call: Call)
    requires cfg.Valid()
  {
    match call.request
    case Posting(macs, id, body, versionHeader, stateHeader, expiryHeader, oldStateHeader, _, now) =>
      var d := PostRecord(cfg, body, versionHeader, stateHeader, expiryHeader, now);
      body == [] || expiryHeader.Garbage? || !TimesAccepted(d) || d.state.None?
      || OldStateTrue(devices, macs, id, d, HeaderNumber(oldStateHeader).GetOr(0))
    case DeletingSub(mac, id, _) => !IsState(StateOf(DeviceOf(devices, mac).rows, id))
    case DeletingDoc(mac, _) =>
      var rows := DeviceOf(devices, mac).rows;
      forall id :: id in rows ==> !IsState(StateOf(rows, id))
    case Fetching(mac, req, reply, now) =>
      GetIsTruthful(cfg, call.refs, DeviceOf(devices, mac), req, call.deviceVersions, reply, now)
    case _ => true
  }

  datatype Moment = Moment(devices: map<string, Device>, counts: Counters)

  /** What serving a call does: every device takes its step or stays, and the balance of counters and rows
      stays exactly when the call was truthful. */
  ghost predicate Performed(cfg: Config, before: Moment, call: Call, after: Moment)
    requires cfg.Valid()
  {
    && (forall mac ::
          Progresses(cfg, DeviceOf(before.devices, mac), StepFor(cfg, call, mac), DeviceOf(after.devices, mac)))
    && (cfg.metrics ==>
          (SameBalance(before.devices, before.counts, after.devices, after.counts)
           <==> TruthfulCall(cfg, before.devices, call)))
  }

  /** A call to one device. */
  lemma PerformedOnDevice(cfg: Config, before: Moment, call: Call, after: Moment, mac: string, step: Step)
    requires cfg.Valid() && OnlyChanged(before.devices, after.devices, mac)
    requires forall m :: StepFor(cfg, call, m) == if m == mac then Some(step) else None
    requires Enabled(DeviceOf(before.devices, mac), step)
    requires DeviceOf(after.devices, mac) == Next(cfg, DeviceOf(before.devices, mac), step)
    requires cfg.metrics ==>
               (SameDrift(before.devices, before.counts, after.devices, after.counts, mac)
                <==> TruthfulCall(cfg, before.devices, call))
    ensures Performed(cfg, before, call, after)
  {
    OneDeviceKeepsBalance(before.devices, before.counts, after.devices, after.counts, mac);
  }

  /** A POST, refused or not. */
  lemma PerformedOnAll(cfg: Config, before: Moment, call: Call, after: Moment)
    requires cfg.Valid() && call.request.Posting?
    requires
      var r := call.request;
      var d := PostRecord(cfg, r.body, r.versionHeader, r.stateHeader, r.expiryHeader, r.now);
      if r.body == [] || r.expiryHeader.Garbage? || !TimesAccepted(d) then after == before
      else
        && PostedTo(cfg, before.devices, r.macs, r.id, d, r.now, after.devices)
        && Balances(before.devices, before.counts, after.devices, after.counts, cfg.metrics, r.macs, r.id, d,
                    HeaderNumber(r.oldStateHeader).GetOr(0))
    ensures Performed(cfg, before, call, after)
  {
  }

  /** A run from the empty store. */
  ghost predicate StoreRun(cfg: Config, moments: seq<Moment>, calls: seq<Call>)
    requires cfg.Valid()
  {
    && |moments| == |calls| + 1
    && moments[0] == Moment(map[], NO_COUNTS)
    && forall k :: 0 <= k < |calls| ==> Performed(cfg, moments[k], calls[k], moments[k + 1])
  }

  /** Increments minus decrements of every state are the rows in it. */
  ghost predicate CountersAreTotals(m: Moment) {
    forall s :: IsState(s) ==> Net(m.counts, s) == Total(m.devices, s)
  }

  /** As long as every call is truthful, the counters are the totals. */
  lemma {:induction false} TruthfulCallsKeepTotals(cfg: Config, moments: seq<Moment>, calls: seq<Call>, i: nat)
    requires cfg.Valid() && cfg.metrics && StoreRun(cfg, moments, calls) && i < |moments|
    requires forall k :: 0 <= k < i ==> TruthfulCall(cfg, moments[k].devices, calls[k])
    ensures CountersAreTotals(moments[i])
  {
    if i > 0 {
      TruthfulCallsKeepTotals(cfg, moments, calls, i - 1);
      assert Performed(cfg, moments[i - 1], calls[i - 1], moments[i]);
    }
  }

  /** Conservation, exactly: over any run the counters are the totals at every moment if and only if every call
      was truthful. */
  lemma CountersAreTotalsExactly(cfg: Config, moments: seq<Moment>, calls: seq<Call>)
    requires cfg.Valid() && cfg.metrics && StoreRun(cfg, moments, calls)
    ensures (forall i :: 0 <= i < |moments| ==> CountersAreTotals(moments[i]))
            <==> forall k :: 0 <= k < |calls| ==> TruthfulCall(cfg, moments[k].devices, calls[k])
  {
    if forall k :: 0 <= k < |calls| ==> TruthfulCall(cfg, moments[k].devices, calls[k]) {
      forall i | 0 <= i < |moments| ensures CountersAreTotals(moments[i]) {
        TruthfulCallsKeepTotals(cfg, moments, calls, i);
      }
    } else {
      var k :| 0 <= k < |calls| && !TruthfulCall(cfg, moments[k].devices, calls[k]);
      assert Performed(cfg, moments[k], calls[k], moments[k + 1]);
      assert !(CountersAreTotals(moments[k]) && CountersAreTotals(moments[k + 1]));
    }
  }

  // ---------- what holds of one device holds of the store ----------

  lemma DeviceProgresses(cfg: Config, moments: seq<Moment>, calls: seq<Call>, k: nat, mac: string)
    requires cfg.Valid() && StoreRun(cfg, moments, calls) && k < |calls|
    ensures Progresses(cfg, DeviceOf(moments[k].devices, mac), StepFor(cfg, calls[k], mac),
                       DeviceOf(moments[k + 1].devices, mac))
  {
    assert Performed(cfg, moments[k], calls[k], moments[k + 1]);
  }

  lemma ProgressKeepsIndex(cfg: Config, dev: Device, step: Option<Step>, dev': Device)
    requires cfg.Valid() && !cfg.upstream && Indexed(cfg, dev) && Progresses(cfg, dev, step, dev')
    requires step.Some? ==> DeleteSeesAll(dev, step.value)
    ensures Indexed(cfg, dev')
  {
    if step.Some? {
      NextKeepsIndex(cfg, dev, step.value);
    }
  }

  /** No DELETE that reaches the device finds another row expired, unless the hash is blind to it. */
  ghost predicate DeletesSeeAll(cfg: Config, moments: seq<Moment>, calls: seq<Call>, mac: string)
    requires |moments| == |calls| + 1
  {
    forall k :: 0 <= k < |calls| && StepFor(cfg, calls[k], mac).Some? ==>
      DeleteSeesAll(DeviceOf(moments[k].devices, mac), StepFor(cfg, calls[k], mac).value)
  }

  /** Without upstream, and while no DELETE of a subdocument hides an expired row, the root version of every
      device is the hash of its rows at every moment. */
  lemma {:induction false} StoreIsIndexed(cfg: Config, moments: seq<Moment>, calls: seq<Call>, i: nat, mac: string)
    requires cfg.Valid() && !cfg.upstream && StoreRun(cfg, moments, calls) && i < |moments|
    requires DeletesSeeAll(cfg, moments, calls, mac)
    ensures Indexed(cfg, DeviceOf(moments[i].devices, mac))
  {
    if i == 0 {
      assert ContentVersions(map[]) == map[];
    } else {
      StoreIsIndexed(cfg, moments, calls, i - 1, mac);
      DeviceProgresses(cfg, moments, calls, i - 1, mac);
      ProgressKeepsIndex(cfg, DeviceOf(moments[i - 1].devices, mac), StepFor(cfg, calls[i - 1], mac),
                         DeviceOf(moments[i].devices, mac));
    }
  }

  lemma ProgressKeepsClean(cfg: Config, dev: Device, step: Option<Step>, dev': Device)
    requires cfg.Valid() && ErrorFree.AllClean(dev.rows) && Progresses(cfg, dev, step, dev')
    requires step.Some? ==> ErrorFree.ErrorCodesNatural(step.value)
    ensures ErrorFree.AllClean(dev'.rows)
  {
    if step.Some? {
      ErrorFree.NextClean(cfg, dev, step.value);
    }
  }

  /** Reports from the device carry no negative error code. */
  ghost predicate ReportsNatural(cfg: Config, calls: seq<Call>, mac: string) {
    forall k :: 0 <= k < |calls| && StepFor(cfg, calls[k], mac).Some? ==>
      ErrorFree.ErrorCodesNatural(StepFor(cfg, calls[k], mac).value)
  }

  lemma CallKeepsClean(cfg: Config, moments: seq<Moment>, calls: seq<Call>, k: nat, mac: string)
    requires cfg.Valid() && StoreRun(cfg, moments, calls) && k < |calls| && ReportsNatural(cfg, calls, mac)
    requires ErrorFree.AllClean(DeviceOf(moments[k].devices, mac).rows)
    ensures ErrorFree.AllClean(DeviceOf(moments[k + 1].devices, mac).rows)
  {
    DeviceProgresses(cfg, moments, calls, k, mac);
    ProgressKeepsClean(cfg, DeviceOf(moments[k].devices, mac), StepFor(cfg, calls[k], mac),
                       DeviceOf(moments[k + 1].devices, mac));
  }

  /** Then a deployed row of the device carries no error at any moment. */
  lemma {:induction false} StoreIsErrorFree(cfg: Config, moments: seq<Moment>, calls: seq<Call>, i: nat, mac: string)
    requires cfg.Valid() && StoreRun(cfg, moments, calls) && i < |moments|
    requires ReportsNatural(cfg, calls, mac)
    ensures ErrorFree.AllClean(DeviceOf(moments[i].devices, mac).rows)
  {
    if i > 0 {
      StoreIsErrorFree(cfg, moments, calls, i - 1, mac);
      CallKeepsClean(cfg, moments, calls, i - 1, mac);
    }
  }
}
