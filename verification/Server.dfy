/** http/router.go and kafka/consumer.go: one request after the other. Each handler is proved to be a step of the
    runs in StoreRuns. */
module Server {
  import opened Store
  import opened Machine
  import opened Handlers
  import opened StoreRuns
  import Service

  ghost function Now(c: DatabaseClient): Moment
    reads c`devices, c.metrics
  {
    Moment(c.devices, c.metrics.counts)
  }

  method ServePost(c: DatabaseClient, request: Request) returns (ghost call: Call)
    requires c.cfg.Valid() && request.Posting? && request.WellFormed()
    modifies c`devices, c.metrics
    ensures call == Call(request, c.refs, map[])
    ensures Performed(c.cfg, old(Now(c)), call, Now(c))
  {
    var _, _ :=
      PostSubDocument(c, request.macs, request.id, request.body, request.versionHeader, request.stateHeader,
                      request.expiryHeader, request.oldStateHeader, request.metricsAgent, request.now);
    call := Call(request, c.refs, map[]);
    PerformedOnAll(c.cfg, old(Now(c)), call, Now(c));
  }

  method ServeDelete(c: DatabaseClient, request: Request) returns (ghost call: Call)
    requires c.cfg.Valid() && (request.DeletingSub? || request.DeletingDoc?)
    modifies c`devices, c.metrics
    ensures call == Call(request, c.refs, map[])
    ensures Performed(c.cfg, old(Now(c)), call, Now(c))
  {
    call := Call(request, c.refs, map[]);
    match request {
      case DeletingSub(mac, id, now) =>
        DeleteSubDocument(c, mac, id, now);
        PerformedOnDevice(c.cfg, old(Now(c)), call, Now(c), mac, DeleteSub(id, now));
      case DeletingDoc(mac, now) =>
        DeleteDocument(c, mac, now);
        PerformedOnDevice(c.cfg, old(Now(c)), call, Now(c), mac, DeleteDoc(now));
    }
  }

  method ServeGet(c: DatabaseClient, request: Request) returns (ghost call: Call)
    requires c.cfg.Valid() && request.Fetching? && request.WellFormed()
    modifies c`devices, c.metrics
    ensures call.request == request && call.refs == c.refs
    ensures Performed(c.cfg, old(Now(c)), call, Now(c))
  {
    var _, deviceVersions := BuildWebconfigResponse(c, request.mac, request.req, request.reply, request.now);
    call := Call(request, c.refs, deviceVersions);
    PerformedOnDevice(c.cfg, old(Now(c)), call, Now(c), request.mac,
                      Get(request.req, deviceVersions, c.refs, request.reply, request.now));
  }

  method ServeDevice(c: DatabaseClient, request: Request) returns (ghost call: Call)
    requires c.cfg.Valid() && (request.Reporting? || request.Poking? || request.Precooking?)
    modifies c`devices, c.metrics
    ensures call == Call(request, c.refs, map[])
    ensures Performed(c.cfg, old(Now(c)), call, Now(c))
  {
    call := Call(request, c.refs, map[]);
    match request {
      case Reporting(mac, m, metricsAgent, now) =>
        var _ := Service.UpdateDocumentState(c, mac, m, metricsAgent, now);
        PerformedOnDevice(c.cfg, old(Now(c)), call, Now(c), mac, Report(m, now));
      case Poking(mac, metricsAgent, broker, now) =>
        var _ := PokeMqtt(c, mac, metricsAgent, broker, now);
        PerformedOnDevice(c.cfg, old(Now(c)), call, Now(c), mac, Poke(broker, now));
      case Precooking(mac, tag, now) =>
        var _ := SupplementaryPrecook(c, mac, tag, now);
        PerformedOnDevice(c.cfg, old(Now(c)), call, Now(c), mac, Precook(c.refs, tag, now));
    }
  }

  /** Whatever is asked, serving it is one step of a run. */
  method Serve(c: DatabaseClient, request: Request) returns (ghost call: Call)
    requires c.cfg.Valid() && request.WellFormed()
    modifies c`devices, c.metrics
    ensures call.request == request && call.refs == c.refs
    ensures Performed(c.cfg, old(Now(c)), call, Now(c))
  {
    if request.Posting? {
      call := ServePost(c, request);
    } else if request.DeletingSub? || request.DeletingDoc? {
      call := ServeDelete(c, request);
    } else if request.Fetching? {
      call := ServeGet(c, request);
    } else {
      call := ServeDevice(c, request);
    }
  }
}
