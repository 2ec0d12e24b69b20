/** http/document_handler.go, http/multipart.go, http/poke_handler.go and
    http/supplementary_handler.go: the request handlers over the store. */
module Handlers {
  import opened Common
  import opened RootDocuments
  import opened Documents
  import opened Store
  import opened Metrics
  import opened CounterDrift
  import opened StateCounters
  import opened Steps
  import opened Service
  import opened Postings
  import RootHash

  // ---------- POST and DELETE ----------

  method UpdateRootVersion(c: DatabaseClient, mac: string, doc: Document) returns (version: string)
    modifies c`devices
    ensures version == HashOf(c.cfg, doc.docmap)
    ensures c.devices
            == old(c.devices)[mac := old(c.Dev(mac)).(root := Some(WithVersion(old(c.Dev(mac)).root, version)))]
  {
    var versions := doc.CollectVersions();
    version := RootHash.HashRootVersion(c.cfg.murmur, versions);
    c.SetRootDocumentVersion(mac, version);
  }

  method PostToDevice(c: DatabaseClient, mac: string, id: string, d: SubDocument, oldState: int, labels: Labels,
                      now: nat)
    returns (version: string)
    requires TimesAccepted(d)
    modifies c`devices, c.metrics
    ensures c.devices == old(c.devices)[mac := Posted(c.cfg, old(c.Dev(mac)), id, d, now)]
    ensures c.Dev(mac).root == Some(WithVersion(old(c.Dev(mac)).root, version))
    ensures c.cfg.metrics && d.state.Some? ==>
              && (SameDrift(old(c.devices), old(c.metrics.counts), c.devices, c.metrics.counts, mac)
                  <==> Clip(oldState) == Clip(StateOf(old(c.Dev(mac)).rows, id)))
              && DriftShifts(old(c.devices), old(c.metrics.counts), c.devices, c.metrics.counts, mac,
                             StateOf(old(c.Dev(mac)).rows, id), oldState)
    ensures d.state.None? ==> SameDrift(old(c.devices), old(c.metrics.counts), c.devices, c.metrics.counts, mac)
  {
    var _ := c.SetSubDocument(mac, id, d, oldState, labels);
    ghost var devices := c.devices;
    var doc := c.GetDocument(mac, true, now);
    doc.SetSubDocument(id, d);
    version := UpdateRootVersion(c, mac, doc);
    SameStatesSameDrift(devices, c.metrics.counts, c.devices, mac);
  }

  /** One device of that loop. */
  method PostToNext(c: DatabaseClient, ghost before: map<string, Device>, ghost counts: Counters,
                    deviceIds: seq<string>, i: nat, id: string, d: SubDocument, oldState: int, metricsAgent: string,
                    now: nat)
    returns (version: string)
    requires TimesAccepted(d) && i < |deviceIds|
    requires PostedTo(c.cfg, before, deviceIds[..i], id, d, now, c.devices)
    requires BalancesSoFar(before, counts, c.devices, c.metrics.counts, c.cfg.metrics, deviceIds, i, id, d, oldState)
    modifies c`devices, c.metrics
    ensures PostedTo(c.cfg, before, deviceIds[..i] + [deviceIds[i]], id, d, now, c.devices)
    ensures OnlyChanged(old(c.devices), c.devices, deviceIds[i])
    ensures c.Dev(deviceIds[i]).root == Some(WithVersion(old(c.Dev(deviceIds[i])).root, version))
    ensures BalancesSoFar(before, counts, c.devices, c.metrics.counts, c.cfg.metrics, deviceIds, i + 1, id, d,
                          oldState)
  {
    var mac := deviceIds[i];
    PostedOneMore(c.cfg, before, deviceIds[..i], id, d, now, c.devices, mac);
    var labels := c.GetRootDocumentLabels(mac);
    version := PostToDevice(c, mac, id, d, oldState, labels.(client := metricsAgent), now);
    if d.state.None? {
      OneDeviceKeepsBalance(old(c.devices), old(c.metrics.counts), c.devices, c.metrics.counts, mac);
    } else if c.cfg.metrics {
      TurnStateIsStored(c.cfg, before, deviceIds, i, id, d, now, old(c.devices));
      OneMoreTurn(before, counts, old(c.devices), old(c.metrics.counts), c.devices, c.metrics.counts, deviceIds, i, id,
                  d, oldState);
    }
  }

  /** The loop of PostSubDocumentHandler over the devices. */
  method PostToDevices(c: DatabaseClient, deviceIds: seq<string>, id: string, d: SubDocument, oldState: int,
                       metricsAgent: string, now: nat)
    returns (rootVersions: map<string, string>)
    requires TimesAccepted(d)
    modifies c`devices, c.metrics
    ensures PostedTo(c.cfg, old(c.devices), deviceIds, id, d, now, c.devices)
    ensures AnswersStored(rootVersions, deviceIds, c.devices)
    ensures Balances(old(c.devices), old(c.metrics.counts), c.devices, c.metrics.counts, c.cfg.metrics, deviceIds, id,
                     d, oldState)
  {
    rootVersions := map[];
    BalancesFromHere(c.devices, c.metrics.counts, c.cfg.metrics, deviceIds, id, d, oldState);
    for i := 0 to |deviceIds|
      invariant PostedTo(c.cfg, old(c.devices), deviceIds[..i], id, d, now, c.devices)
      invariant AnswersStored(rootVersions, deviceIds[..i], c.devices)
      invariant BalancesSoFar(old(c.devices), old(c.metrics.counts), c.devices, c.metrics.counts, c.cfg.metrics,
                              deviceIds, i, id, d, oldState)
    {
      var mac := deviceIds[i];
      ghost var devices := c.devices;
      var rootVersion :=
        PostToNext(c, old(c.devices), old(c.metrics.counts), deviceIds, i, id, d, oldState, metricsAgent, now);
      AnswersOneMore(rootVersions, deviceIds[..i], devices, c.devices, mac, rootVersion);
      rootVersions := rootVersions[mac := rootVersion];
      assert deviceIds[..i + 1] == deviceIds[..i] + [mac];
    }
    assert deviceIds[..|deviceIds|] == deviceIds;
    BalancesAtLast(old(c.devices), old(c.metrics.counts), c.devices, c.metrics.counts, c.cfg.metrics, deviceIds, id, d,
                   oldState);
  }

  /** The record a POST writes; None is an expiry header that is no integer. */
  method ReadPostHeaders(cfg: Config, body: Bytes, versionHeader: string, stateHeader: StateHeader,
                         expiryHeader: NumberHeader, now: nat)
    returns (r: Option<SubDocument>)
    ensures r == if expiryHeader.Garbage? then None
                 else Some(PostRecord(cfg, body, versionHeader, stateHeader, expiryHeader, now))
  {
    var version := versionHeader;
    if |version| == 0 {
      version := cfg.murmur(Text(body));
    }
    var state := Some(PENDING_DOWNLOAD);
    match stateHeader {
      case StateNull => state := None;
      case StateNumber(i) => state := Some(i);
      case _ =>
    }
    var d := SubDocument(body, Some(version), state, Some(now), Some(0), Some(""), None);
    match expiryHeader {
      case Garbage => return None;
      case Number(i) => d := d.(expiry := Some(i));
      case Absent =>
    }
    r := Some(d);
  }

  /** deviceIds is the device of the path followed by those of the query. The old state comes from a
      header, 0 when it is absent or no integer. */
  method PostSubDocument(c: DatabaseClient, deviceIds: seq<string>, id: string, body: Bytes, versionHeader: string,
                         stateHeader: StateHeader, expiryHeader: NumberHeader, oldStateHeader: NumberHeader,
                         metricsAgent: string, now: nat)
    returns (status: int, rootVersions: map<string, string>)
    requires deviceIds != []
    modifies c`devices, c.metrics
    ensures status == if body == [] || expiryHeader.Garbage? then 400
                      else if expiryHeader.Number? && expiryHeader.i < 0 then 500 else 200
    ensures status != 200 ==>
              c.devices == old(c.devices) && c.metrics.counts == old(c.metrics.counts) && rootVersions == map[]
    ensures status == 200 ==>
              PostedTo(c.cfg, old(c.devices), deviceIds, id,
                       PostRecord(c.cfg, body, versionHeader, stateHeader, expiryHeader, now), now, c.devices)
              && AnswersStored(rootVersions, deviceIds, c.devices)
    ensures status == 200 ==>
              var d := PostRecord(c.cfg, body, versionHeader, stateHeader, expiryHeader, now);
              Balances(old(c.devices), old(c.metrics.counts), c.devices, c.metrics.counts, c.cfg.metrics, deviceIds,
                       id, d, HeaderNumber(oldStateHeader).GetOr(0))
  {
    rootVersions := map[];
    if |body| == 0 {
      return 400, rootVersions;
    }
    var read := ReadPostHeaders(c.cfg, body, versionHeader, stateHeader, expiryHeader, now);
    if read.None? {
      return 400, rootVersions;
    }
    var d := read.value;
    var oldState := if oldStateHeader.Number? then oldStateHeader.i else 0;
    if d.expiry.Some? && d.expiry.value < 0 {
      // the first SetSubDocument refuses the record
      var labels := c.GetRootDocumentLabels(deviceIds[0]);
      var ok := c.SetSubDocument(deviceIds[0], id, d, oldState, labels);
      return 500, rootVersions;
    }
    rootVersions := PostToDevices(c, deviceIds, id, d, oldState, metricsAgent, now);
    status := 200;
  }

  /** The end of both DELETE handlers. */
  method Reindex(c: DatabaseClient, mac: string, now: nat)
    modifies c`devices
    ensures c.devices == old(c.devices)[mac := Reindexed(c.cfg, old(c.Dev(mac)), now)]
  {
    var doc := c.GetDocument(mac, false, now);
    if doc.docmap == map[] {
      c.DeleteRootDocumentVersion(mac);
    } else {
      var _ := UpdateRootVersion(c, mac, doc);
    }
  }

  method DeleteSubDocument(c: DatabaseClient, mac: string, id: string, now: nat)
    modifies c`devices
    ensures c.devices == old(c.devices)[mac := DeletedSubDocument(c.cfg, old(c.Dev(mac)), id, now)]
    ensures SameDrift(old(c.devices), c.metrics.counts, c.devices, c.metrics.counts, mac)
            <==> !IsState(StateOf(old(c.Dev(mac)).rows, id))
  {
    c.DeleteSubDocument(mac, id);
    Reindex(c, mac, now);
    RemovalDriftsExactly(old(c.devices), c.metrics.counts, c.devices, mac, {id});
  }

  method DeleteDocument(c: DatabaseClient, mac: string, now: nat)
    modifies c`devices
    ensures c.devices == old(c.devices)[mac := DeletedDocument(c.cfg, old(c.Dev(mac)), now)]
    ensures SameDrift(old(c.devices), c.metrics.counts, c.devices, c.metrics.counts, mac)
            <==> forall id :: id in old(c.Dev(mac)).rows ==> !IsState(StateOf(old(c.Dev(mac)).rows, id))
  {
    c.DeleteDocument(mac);
    Reindex(c, mac, now);
    RemovalDriftsExactly(old(c.devices), c.metrics.counts, c.devices, mac, old(c.Dev(mac)).rows.Keys);
  }

  // ---------- GET config ----------

  method FilterOutput(c: DatabaseClient, document: Document) returns (r: Document)
    requires c.cfg.Valid() && document.rootDocument.Some?
    ensures r == document || fresh(r)
    ensures r.rootDocument == document.rootDocument
    ensures r.docmap == BitmapFiltered(c.cfg, document.docmap, document.rootDocument.value.bitmap)
  {
    if c.cfg.filterByBitmap {
      r := document.FilterByBitmap(c.cfg.indexes, c.cfg.exemptIds);
    } else {
      r := document;
    }
  }

  /** BuildWebconfigResponse after BuildGetDocument, with upstream switched off. */
  method RespondWithoutUpstream(c: DatabaseClient, mac: string, built: Document?, oldRoot: Option<RootDoc>,
                                newRoot: RootDoc, postUpstream: bool, error: GetError, mget: bool, now: nat,
                                ghost b: Built)
    returns (r: Response)
    requires c.cfg.Valid() && c.Dev(mac) == b.dev && error == b.error && postUpstream == b.postUpstream
             && newRoot == b.newRoot
    requires error == NoError <==> built != null
    requires built != null ==> built.docmap == b.doc && built.rootDocument == Some(b.docRoot)
    requires postUpstream ==> built != null && oldRoot == Some(b.docRoot)
    requires forall id :: id in b.doc ==> b.doc[id].state.Some?
    modifies built, c`devices, c.metrics
    ensures (c.Dev(mac), r) == AnswerWithoutUpstream(c.cfg, c.refs, b, mget, now)
    ensures OnlyChanged(old(c.devices), c.devices, mac)
    ensures c.cfg.metrics ==>
              DriftMoves(old(c.devices), old(c.metrics.counts), c.devices, c.metrics.counts, mac,
                         StateWritesWithoutUpstream(c.cfg, c.refs, b, mget, now), b.dev.rows)
  {
    RefusalMovesNothing(c.devices, c.metrics.counts, mac, c.cfg, c.refs, b, mget, now);
    if error == RootLocked {
      return Refusal(409);
    }
    if postUpstream {
      var rdoc := new RootDocument(oldRoot.value);
      var device := new RootDocument(newRoot);
      rdoc.UpdateMetadata(device);
      built.SetRootDocument(Some(rdoc.record));
    }
    if error == DocNotFound {
      return Refusal(404);
    }
    if built.docmap == map[] {
      return Refusal(304);
    }
    built.DeleteSubDocuments(c.cfg.blockedIds);
    var document := LoadRefSubDocuments(c, built);
    document := FilterOutput(c, document);
    assert document.docmap == Delivered(c.cfg, c.refs, b);
    r := SendDocument(c, mac, document, mget, now);
  }

  /** The filtered document goes to the device, and its rows are in deployment. */
  method SendDocument(c: DatabaseClient, mac: string, document: Document, mget: bool, now: nat) returns (r: Response)
    requires forall id :: id in document.docmap ==> document.docmap[id].state.Some?
    modifies c`devices, c.metrics
    ensures r == if document.docmap == map[] then Refusal(404)
                 else Response(200, document.RootVersion(), Parts(document.docmap))
    ensures
      var writes := if mget then map[] else InDeploymentWrites(document.docmap, now);
      && c.Dev(mac) == (if document.docmap == map[] || mget then old(c.Dev(mac))
                        else old(c.Dev(mac)).(rows := WriteAll(old(c.Dev(mac)).rows, writes)))
      && (c.cfg.metrics ==>
            DriftMoves(old(c.devices), old(c.metrics.counts), c.devices, c.metrics.counts, mac,
                       if mget then NO_WRITES else StateWrites(writes.Keys, document.docmap, {}), old(c.Dev(mac)).rows))
    ensures OnlyChanged(old(c.devices), c.devices, mac)
  {
    NothingMovesYet(c.devices, c.metrics.counts, mac, map[], c.Dev(mac).rows);
    if document.docmap == map[] {
      assert InDeploymentWrites(map[], now).Keys == {};
      return Refusal(404);
    }
    if !mget {
      UpdateDocumentStateIndeployment(c, mac, document, now);
    }
    r := Response(200, document.RootVersion(), Parts(document.docmap));
  }

  /** An answer without a document writes no state. */
  lemma RefusalMovesNothing(devices: map<string, Device>, counts: Counters, mac: string, cfg: Config,
                            refs: map<Bytes, Bytes>, b: Built, mget: bool, now: int)
    requires cfg.Valid()
    ensures b.error != NoError || b.doc == map[] ==>
              DriftMoves(devices, counts, devices, counts, mac, StateWritesWithoutUpstream(cfg, refs, b, mget, now),
                         b.dev.rows)
  {
    if b.error != NoError || b.doc == map[] {
      var w := StateWritesWithoutUpstream(cfg, refs, b, mget, now);
      assert b.doc == map[] ==> Delivered(cfg, refs, b) == map[];
      assert w == StateWrites({}, w.shown, {});
      NothingMovesYet(devices, counts, mac, w.shown, b.dev.rows);
    }
  }

  /** BuildWebconfigResponse after BuildGetDocument, with upstream switched on. */
  method RespondWithUpstream(c: DatabaseClient, mac: string, built: Document?, oldRoot: Option<RootDoc>,
                             newRoot: RootDoc, postUpstream: bool, deviceVersions: Versions, error: GetError,
                             mget: bool, reply: UpstreamReply, now: nat, ghost b: Built)
    returns (r: Response)
    requires c.cfg.Valid() && c.Dev(mac) == b.dev && error == b.error && postUpstream == b.postUpstream
    requires newRoot == b.newRoot && oldRoot == b.oldRoot
    requires error == NoError <==> built != null
    requires built != null ==> built.docmap == b.doc && built.rootDocument == Some(b.docRoot)
    requires built == null ==> b.doc == map[] && b.docRoot == NO_ROOT
    requires forall id :: id in b.doc ==> b.doc[id].state.Some?
    modifies built, c`devices, c.metrics
    ensures (c.Dev(mac), r) == AnswerWithUpstream(c.cfg, c.refs, b, mget, deviceVersions, reply, now)
    ensures OnlyChanged(old(c.devices), c.devices, mac)
    ensures c.cfg.metrics ==>
              DriftMoves(old(c.devices), old(c.metrics.counts), c.devices, c.metrics.counts, mac,
                         StateWritesWithUpstream(c.cfg, c.refs, b, mget, deviceVersions, reply, now), b.dev.rows)
  {
    NothingMovesYet(c.devices, c.metrics.counts, mac, map[], b.dev.rows);
    if error == RootLocked {
      return Refusal(409);
    }
    var goUpstream := postUpstream;
    if error == DocNotFound {
      goUpstream := true;
    }
    var document := built;
    if document == null {
      document := new Document(Some(NO_ROOT));
    }
    if mget {
      goUpstream := false;
    }
    if !goUpstream {
      r := RespondLocally(c, mac, document, mget, now, b);
      return;
    }
    if document.docmap != map[] {
      document := FilterOutput(c, document);
    }
    match reply {
      case Refused(code) => return Refusal(code);
      case Unreachable => return Refusal(500);
      case Unparsable => return Response(500, "", Parts(document.docmap));
      case Replied(etag, parts, skip) =>
        r := WriteBack(c, mac, document, oldRoot, newRoot, deviceVersions, etag, parts, skip, now);
    }
  }

  method RespondLocally(c: DatabaseClient, mac: string, built: Document, mget: bool, now: nat, ghost b: Built)
    returns (r: Response)
    requires c.cfg.Valid() && c.Dev(mac) == b.dev && built.docmap == b.doc && built.rootDocument == Some(b.docRoot)
    requires forall id :: id in b.doc ==> b.doc[id].state.Some?
    modifies c`devices, c.metrics
    ensures (c.Dev(mac), r) == AnsweredLocally(c.cfg, c.refs, b, mget, now)
    ensures OnlyChanged(old(c.devices), c.devices, mac)
    ensures mget ==> c.devices == old(c.devices) && c.metrics.counts == old(c.metrics.counts)
    ensures c.cfg.metrics && !mget ==>
              var doc := BitmapFiltered(c.cfg, WithReferences(c.refs, b.doc), b.docRoot.bitmap);
              DriftMoves(old(c.devices), old(c.metrics.counts), c.devices, c.metrics.counts, mac,
                         StateWrites(InDeploymentWrites(doc, now).Keys, doc, {}), b.dev.rows)
  {
    var document := built;
    var status := 304;
    if document.docmap != map[] {
      document := LoadRefSubDocuments(c, document);
      document := FilterOutput(c, document);
      status := 200;
    } else if document.RootVersion() == "" {
      status := 404;
    }
    if mget {
      return Response(status, document.RootVersion(), Parts(document.docmap));
    }
    UpdateDocumentStateIndeployment(c, mac, document, now);
    if document.docmap == map[] {
      status := 304;
    }
    r := Response(status, document.RootVersion(), Parts(document.docmap));
  }

  lemma PartsHaveNoExpiry(parts: seq<Multipart>)
    ensures NoNegativeExpiry(FromParts(parts))
  {
  }

  /** The end of BuildWebconfigResponse: the upstream answer is stored, filtered and returned. */
  method WriteBack(c: DatabaseClient, mac: string, document: Document, oldRoot: Option<RootDoc>, newRoot: RootDoc,
                   deviceVersions: Versions, etag: string, parts: seq<Multipart>, skip: bool, now: nat)
    returns (r: Response)
    requires c.cfg.Valid()
    modifies c`devices, c.metrics
    ensures (c.Dev(mac), r)
            == WrittenBack(c.cfg, c.refs, old(c.Dev(mac)), document.docmap, document.RootVersion(), oldRoot, newRoot,
                                           deviceVersions, etag, parts, skip, now)
    ensures OnlyChanged(old(c.devices), c.devices, mac)
    ensures c.cfg.metrics ==>
              DriftMoves(old(c.devices), old(c.metrics.counts), c.devices, c.metrics.counts, mac,
                         if skip || (newRoot.bitmap == 0 && oldRoot.None?) then NO_WRITES
                         else UpstreamStateWrites(FromParts(parts), document.docmap, false, deviceVersions, now),
                         old(c.Dev(mac)).rows)
  {
    NothingMovesYet(c.devices, c.metrics.counts, mac, map[], c.Dev(mac).rows);
    var bitmap := 0;
    if newRoot.bitmap != 0 {
      bitmap := newRoot.bitmap;
    } else {
      if oldRoot.None? {
        return Refusal(CRASHED);
      }
      if oldRoot.value.bitmap != 0 {
        bitmap := oldRoot.value.bitmap;
      }
    }
    var finalDocument := FinalDocument(NO_ROOT.(bitmap := bitmap, version := etag), parts);
    if !skip {
      WriteDocumentFromUpstream(c, mac, etag, finalDocument, document, false, deviceVersions, now);
    }
    r := SendFromUpstream(c, finalDocument, etag, bitmap, deviceVersions);
  }

  method FinalDocument(root: RootDoc, parts: seq<Multipart>) returns (d: Document)
    ensures fresh(d) && d.docmap == FromParts(parts) && d.rootDocument == Some(root)
    ensures NoNegativeExpiry(d.docmap)
  {
    d := new Document(Some(root));
    d.SetSubDocuments(parts);
    PartsHaveNoExpiry(parts);
    assert map[] + FromParts(parts) == FromParts(parts);
  }

  method SendFromUpstream(c: DatabaseClient, finalDocument: Document, etag: string, bitmap: int,
                          deviceVersions: Versions) returns (r: Response)
    requires c.cfg.Valid() && finalDocument.rootDocument == Some(NO_ROOT.(bitmap := bitmap, version := etag))
    ensures r == SentFromUpstream(c.cfg, c.refs, finalDocument.docmap, etag, bitmap, deviceVersions)
  {
    var filtered := finalDocument.FilterForGet(deviceVersions);
    filtered.DeleteSubDocuments(c.cfg.blockedIds);
    filtered := FilterOutput(c, filtered);
    if filtered.docmap == map[] {
      return Response(304, etag, map[]);
    }
    var loaded := LoadRefSubDocuments(c, filtered);
    r := Response(200, etag, Parts(loaded.docmap));
  }

  method BuildFactoryResetResponse(c: DatabaseClient, mac: string, meta: RootDoc, reply: UpstreamReply, now: nat)
    returns (r: Response)
    requires c.cfg.Valid()
    modifies c`devices, c.metrics
    ensures (c.Dev(mac), r) == FactoryReset(c.cfg, c.refs, old(c.Dev(mac)), meta, reply, now)
    ensures OnlyChanged(old(c.devices), c.devices, mac)
    ensures c.cfg.metrics ==>
              DriftMoves(old(c.devices), old(c.metrics.counts), c.devices, c.metrics.counts, mac,
                         ResetStateWrites(c.cfg, old(c.Dev(mac)), reply, now), old(c.Dev(mac)).rows)
  {
    var rootDocument := PreprocessRootDocument(c, mac, meta);
    SameStatesSameDrift(old(c.devices), c.metrics.counts, c.devices, mac);
    r := ResetRows(c, mac, rootDocument, reply, now);
  }

  /** The rest of a reset, once the root document is stored. */
  method ResetRows(c: DatabaseClient, mac: string, rootDocument: RootDoc, reply: UpstreamReply, now: nat)
    returns (r: Response)
    requires c.cfg.Valid()
    modifies c`devices, c.metrics
    ensures (c.Dev(mac), r) == RowsReset(c.cfg, c.refs, old(c.Dev(mac)), rootDocument, reply, now)
    ensures OnlyChanged(old(c.devices), c.devices, mac)
    ensures c.cfg.metrics ==>
              DriftMoves(old(c.devices), old(c.metrics.counts), c.devices, c.metrics.counts, mac,
                         ResetStateWrites(c.cfg, old(c.Dev(mac)), reply, now), old(c.Dev(mac)).rows)
  {
    NothingMovesYet(c.devices, c.metrics.counts, mac, map[], c.Dev(mac).rows);
    var document := c.GetDocument(mac, false, now);
    if document.docmap == map[] {
      return Refusal(404);
    }
    document.SetRootDocument(Some(rootDocument));
    if !c.cfg.upstream {
      DropRows(c, mac);
      return Refusal(404);
    }
    match reply {
      case Refused(code) => return Refusal(code);
      case Unreachable => return Refusal(500);
      case Unparsable => return Response(500, "", Parts(document.docmap));
      case Replied(etag, parts, skip) =>
        r := ReplaceFromUpstream(c, mac, document, rootDocument, etag, parts, skip, now);
    }
  }

  method DropRows(c: DatabaseClient, mac: string)
    modifies c`devices
    ensures c.devices == old(c.devices)[mac := old(c.Dev(mac)).(rows := map[])]
    ensures DriftMoves(old(c.devices), c.metrics.counts, c.devices, c.metrics.counts, mac,
                       StateWrites({}, map[], old(c.Dev(mac)).rows.Keys), old(c.Dev(mac)).rows)
  {
    c.DeleteDocument(mac);
    RemovalDrifts(old(c.devices), c.metrics.counts, c.devices, mac, old(c.Dev(mac)).rows.Keys);
  }

  method ReplaceFromUpstream(c: DatabaseClient, mac: string, document: Document, rootDocument: RootDoc, etag: string,
                             parts: seq<Multipart>, skip: bool, now: nat) returns (r: Response)
    requires c.cfg.Valid() && document.rootDocument == Some(rootDocument)
    modifies c`devices, c.metrics
    ensures (c.Dev(mac), r)
            == ResetFromUpstream(c.cfg, c.refs, old(c.Dev(mac)), document.docmap, rootDocument, etag, parts, skip, now)
    ensures OnlyChanged(old(c.devices), c.devices, mac)
    ensures c.cfg.metrics ==>
              DriftMoves(old(c.devices), old(c.metrics.counts), c.devices, c.metrics.counts, mac,
                         if skip then NO_WRITES
                         else UpstreamStateWrites(FromParts(parts) - Keyed(c.cfg.blockedIds), document.docmap, true,
                                                  map[], now),
                         old(c.Dev(mac)).rows)
  {
    NothingMovesYet(c.devices, c.metrics.counts, mac, map[], c.Dev(mac).rows);
    var finalDocument := FinalDocument(rootDocument.(version := etag), parts);
    finalDocument.DeleteSubDocuments(c.cfg.blockedIds);
    if !skip {
      WriteDocumentFromUpstream(c, mac, etag, finalDocument, document, true, map[], now);
    }
    if finalDocument.docmap == map[] {
      return Response(404, etag, map[]);
    }
    finalDocument := LoadRefSubDocuments(c, finalDocument);
    finalDocument := FilterOutput(c, finalDocument);
    r := Response(200, etag, Parts(finalDocument.docmap));
  }

  ghost predicate HasShape(built: Built) {
    && (forall id :: id in built.doc ==> built.doc[id].state.Some?)
    && (built.error != NoError ==> built.doc == map[] && built.docRoot == NO_ROOT && !built.postUpstream)
    && (built.postUpstream ==> built.oldRoot == Some(built.docRoot))
  }

  lemma SelectedShape(cfg: Config, dev: Device, readable: Rows, cloud: RootDoc, compared: RootComparison,
                      device: RootDoc, dv: Versions, corrected: Rows, now: int)
    requires forall id :: id in readable ==> readable[id].state.Some?
    ensures HasShape(Selected(cfg, dev, readable, cloud, compared, device, dv, corrected, now))
  {
  }

  lemma BuiltShape(cfg: Config, dev: Device, req: GetRequest, dv: Versions, now: int)
    ensures HasShape(BuiltDocument(cfg, dev, req, dv, now))
  {
    var readable := ReadDocument(dev.rows, false, now);
    var device := req.meta.(version := Lookup(dv, "root", ""));
    var cloud := dev.root.GetOr(req.meta);
    SelectedShape(cfg, BuiltDevice(cfg, dev, req, dv, now), readable, cloud,
                  if req.mget then VersionOnlyChanged else cloud.Compare(device), device, dv,
                  if cfg.stateCorrection then Corrections(readable, dv, now) else map[], now);
  }

  /** A primary request that is no factory reset; deviceVersions is what the service attributed to the
      device. After the correction every state write passes the state its document shows. */
  method BuildConfigResponse(c: DatabaseClient, mac: string, req: GetRequest, reply: UpstreamReply, now: nat)
    returns (r: Response, ghost deviceVersions: Versions)
    requires c.cfg.Valid() && req.WellFormed() && !req.FactoryReset()
    modifies c`devices, c.metrics
    ensures (c.Dev(mac), r) == Got(c.cfg, c.refs, old(c.Dev(mac)), req, deviceVersions, reply, now)
    ensures DeviceVersions(req, old(c.Dev(mac)).rows, now, deviceVersions)
    ensures OnlyChanged(old(c.devices), c.devices, mac)
    ensures c.cfg.metrics ==>
              DriftMoves(old(c.devices), old(c.metrics.counts), c.devices, c.metrics.counts, mac,
                         GetStateWrites(c.cfg, c.refs, old(c.Dev(mac)), req, deviceVersions, reply, now),
                         BuiltDocument(c.cfg, old(c.Dev(mac)), req, deviceVersions, now).dev.rows)
  {
    var document, oldRoot, newRoot, dv, postUpstream, messages, error := BuildGetDocument(c, mac, req, now);
    deviceVersions := dv;
    ghost var b := BuiltDocument(c.cfg, old(c.Dev(mac)), req, dv, now);
    BuiltShape(c.cfg, old(c.Dev(mac)), req, dv, now);
    if c.cfg.upstream {
      r := RespondWithUpstream(c, mac, document, oldRoot, newRoot, postUpstream, dv, error, req.mget, reply, now, b);
    } else {
      r := RespondWithoutUpstream(c, mac, document, oldRoot, newRoot, postUpstream, error, req.mget, now, b);
    }
  }

  /** MultipartConfigHandler's primary request. The state counters follow the rows exactly when every
      state write after the correction passes the state its row has, and no deleted row is in a state. */
  method BuildWebconfigResponse(c: DatabaseClient, mac: string, req: GetRequest, reply: UpstreamReply, now: nat)
    returns (r: Response, ghost deviceVersions: Versions)
    requires c.cfg.Valid() && req.WellFormed()
    modifies c`devices, c.metrics
    ensures (c.Dev(mac), r) == Got(c.cfg, c.refs, old(c.Dev(mac)), req, deviceVersions, reply, now)
    ensures !req.FactoryReset() ==> DeviceVersions(req, old(c.Dev(mac)).rows, now, deviceVersions)
    ensures OnlyChanged(old(c.devices), c.devices, mac)
    ensures c.cfg.metrics ==>
              (SameDrift(old(c.devices), old(c.metrics.counts), c.devices, c.metrics.counts, mac) <==>
               GetIsTruthful(c.cfg, c.refs, old(c.Dev(mac)), req, deviceVersions, reply, now))
  {
    ghost var rows;
    if req.versions == ["NONE"] || req.versions == ["NONE-REBOOT"] {
      deviceVersions := map[];
      r := BuildFactoryResetResponse(c, mac, req.meta, reply, now);
      rows := old(c.Dev(mac)).rows;
    } else {
      r, deviceVersions := BuildConfigResponse(c, mac, req, reply, now);
      rows := BuiltDocument(c.cfg, old(c.Dev(mac)), req, deviceVersions, now).dev.rows;
    }
    GetIsOneWay(c.cfg, c.refs, old(c.Dev(mac)), req, deviceVersions, reply, now);
    if c.cfg.metrics {
      TruthKeepsDriftExactly(old(c.devices), old(c.metrics.counts), c.devices, c.metrics.counts, mac,
                             GetStateWrites(c.cfg, c.refs, old(c.Dev(mac)), req, deviceVersions, reply, now), rows);
    }
  }

  // ---------- poke and precook ----------

  /** None is not-found. */
  method BuildMqttSendDocument(c: DatabaseClient, mac: string, now: nat) returns (r: Option<Document>)
    ensures r.Some? ==> fresh(r.value)
    ensures (if r.Some? then Some(r.value.docmap) else None) == PokeDocument(c.cfg, c.Dev(mac), now)
  {
    var document := c.GetDocument(mac, false, now);
    if document.docmap == map[] {
      return None;
    }
    var filtered := document.FilterForMqttSend();
    if filtered.docmap == map[] {
      return Some(filtered);
    }
    filtered.DeleteSubDocuments(c.cfg.blockedIds);
    var root := c.GetRootDocument(mac);
    if root.None? {
      return None;
    }
    filtered.SetRootDocument(root);
    r := Some(filtered);
  }

  method PokeMqtt(c: DatabaseClient, mac: string, metricsAgent: string, reply: BrokerReply, now: nat)
    returns (status: int)
    modifies c`devices, c.metrics
    ensures (c.Dev(mac), status) == Poked(c.cfg, old(c.Dev(mac)), reply, now)
    ensures OnlyChanged(old(c.devices), c.devices, mac)
    ensures c.cfg.metrics ==> SameDrift(old(c.devices), old(c.metrics.counts), c.devices, c.metrics.counts, mac)
  {
    var built := BuildMqttSendDocument(c, mac, now);
    if built.None? {
      return 404;
    }
    if built.value.docmap == map[] {
      return 204;
    }
    match reply {
      case RefusedBy(code) => return code;
      case NoBroker => return 500;
      case Taken =>
    }
    var states := built.value.CollectStates();
    UpdateStatesInBatch(c, mac, metricsAgent, states, now);
    status := 202;
  }

  /** The stored telemetry row is on its way: its state, and the columns that are cleared with it. */
  method MarkPrecooked(c: DatabaseClient, mac: string, subdoc: SubDocument, now: nat)
    requires "telemetry" in c.Dev(mac).rows
    requires subdoc == View(c.Dev(mac).rows["telemetry"]).(payload := subdoc.payload)
    modifies c`devices, c.metrics
    ensures c.devices == old(c.devices)[mac := old(c.Dev(mac)).(
              rows := old(c.Dev(mac)).rows["telemetry" := PrecookRow(old(c.Dev(mac)).rows["telemetry"], now)])]
    ensures c.cfg.metrics ==> SameDrift(old(c.devices), old(c.metrics.counts), c.devices, c.metrics.counts, mac)
  {
    var labels := c.GetRootDocumentLabels(mac);
    var _ := c.SetSubDocument(mac, "telemetry", StateRecord(IN_DEPLOYMENT, now, Some(0), Some("")), subdoc.GetState(),
                              labels);
    ghost var devices := c.devices;
    c.DeleteSubDocumentColumns(mac, "telemetry", subdoc.expiry.Some?, subdoc.errorCode.Some?,
                               subdoc.errorDetails.Some?);
    assert c.Dev(mac).rows["telemetry"] == PrecookRow(old(c.Dev(mac)).rows["telemetry"], now);
    assert c.Dev(mac).rows == old(c.Dev(mac)).rows["telemetry" := PrecookRow(old(c.Dev(mac)).rows["telemetry"], now)];
    assert c.devices == old(c.devices)[mac := c.Dev(mac)];
    SameStatesSameDrift(devices, c.metrics.counts, c.devices, mac);
    assert SameDrift(devices, c.metrics.counts, c.devices, c.metrics.counts, mac);
  }

  /** tag is the random root version the source draws. */
  method SupplementaryPrecook(c: DatabaseClient, mac: string, tag: string, now: nat) returns (r: PrecookResult)
    modifies c`devices, c.metrics
    ensures (c.Dev(mac), r) == PrecookStep(c.cfg, c.refs, old(c.Dev(mac)), tag, now)
    ensures OnlyChanged(old(c.devices), c.devices, mac)
    ensures c.cfg.metrics ==> SameDrift(old(c.devices), old(c.metrics.counts), c.devices, c.metrics.counts, mac)
  {
    ghost var dev := c.Dev(mac);
    if !c.cfg.precook {
      return GoOn;
    }
    var read := c.GetSubDocument(mac, "telemetry");
    if read.None? {
      return GoOn;
    }
    var subdoc := read.value;
    var state := subdoc.GetState();
    if state == DEPLOYED {
      if subdoc.expiry.Some? {
        if subdoc.expiry.value <= now {
          return GoOn;
        }
      }
      return Precooked(Refusal(304));
    }
    if state == PENDING_DOWNLOAD || state == IN_DEPLOYMENT || state == FAILURE {
      if |subdoc.payload| > 0 {
        MarkPrecooked(c, mac, subdoc, now);
        return Precooked(Response(200, tag, Parts(map["telemetry" := subdoc])));
      }
    }
    r := GoOn;
  }
}
