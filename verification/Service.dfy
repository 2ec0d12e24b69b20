/** db/service.go and db/cloud_input_mqtt.go: the service functions over the store. Each method is
    proved to leave the device that Steps describes, whatever order it visits a map in, and, where it
    passes every row's own old state, to keep the state counters and the rows together. */
module Service {
  import opened Common
  import opened RootDocuments
  import opened Documents
  import opened Store
  import opened Metrics
  import opened CounterDrift
  import opened Steps

  // ---------- the device's version map ----------

  /** None is the mismatch of the two list lengths. */
  method ParseVersionMap(req: GetRequest) returns (r: Option<Versions>)
    ensures r.None? <==> req.Mismatched()
    ensures r.Some? ==> r.value == if req.docs == [] then map[] else Zip(req.docs, req.versions)
  {
    if |req.docs| == 0 {
      return Some(map[]);
    }
    if |req.docs| != |req.versions| {
      return None;
    }
    var m: Versions := map[];
    for i := 0 to |req.docs|
      invariant m == Zip(req.docs[..i], req.versions[..i])
    {
      m := m[req.docs[i] := req.versions[i]];
      assert req.docs[..i + 1][..i] == req.docs[..i] && req.versions[..i + 1][..i] == req.versions[..i];
    }
    assert req.docs[..|req.docs|] == req.docs && req.versions[..|req.docs|] == req.versions;
    r := Some(m);
  }

  /** The stored versions are inverted in any order, a later key replacing an earlier one. */
  method RebuildDeviceVersionMap(versions: seq<string>, cloud: Versions) returns (m: Versions)
    requires versions != []
    ensures Rebuilt(versions, cloud, m)
  {
    var rev: Versions := map[];
    var todo := cloud.Keys;
    while todo != {}
      invariant todo <= cloud.Keys
      invariant forall v :: v in rev ==> rev[v] in cloud && cloud[rev[v]] == v
      invariant forall id :: id in cloud && id !in todo ==> cloud[id] in rev
      decreases todo
    {
      var id :| id in todo;
      rev := rev[cloud[id] := id];
      todo := todo - {id};
    }
    m := map["root" := versions[0]];
    for i := 0 to |versions|
      invariant m == map["root" := versions[0]] +
                     map id | id in cloud && cloud[id] in versions[..i] && cloud[id] in rev
                         && rev[cloud[id]] == id :: cloud[id]
    {
      var v := versions[i];
      assert versions[..i + 1] == versions[..i] + [v];
      if v in rev {
        m := m[rev[v] := v];
      }
    }
    assert versions[..|versions|] == versions;
    assert Reverses(rev, cloud);
  }

  // ---------- state writes ----------

  /** The document shows each row's stored state. */
  ghost predicate ShowsStates(doc: Rows, rows: Rows) {
    forall id :: id in doc ==> Clip(doc[id].GetState()) == Clip(StateOf(rows, id))
  }

  lemma ReadShowsStates(rows: Rows, includeExpired: bool, now: int)
    ensures ShowsStates(ReadDocument(rows, includeExpired, now), rows)
    ensures forall id :: id in ReadDocument(rows, includeExpired, now) ==>
              ReadDocument(rows, includeExpired, now)[id].state.Some?
  {
  }

  method UpdateDocumentStateIndeployment(c: DatabaseClient, mac: string, d: Document, now: nat)
    requires forall id :: id in d.docmap ==> d.docmap[id].state.Some?
    modifies c`devices, c.metrics
    ensures c.Dev(mac) == old(c.Dev(mac)).(rows := WriteAll(old(c.Dev(mac)).rows, InDeploymentWrites(d.docmap, now)))
    ensures OnlyChanged(old(c.devices), c.devices, mac)
    ensures c.cfg.metrics && ShowsStates(d.docmap, old(c.Dev(mac)).rows) ==>
              SameDrift(old(c.devices), old(c.metrics.counts), c.devices, c.metrics.counts, mac)
    ensures c.cfg.metrics ==>
              DriftMoves(old(c.devices), old(c.metrics.counts), c.devices, c.metrics.counts, mac,
                         StateWrites(InDeploymentWrites(d.docmap, now).Keys, d.docmap, {}), old(c.Dev(mac)).rows)
  {
    ghost var dev := c.Dev(mac);
    ghost var writes := InDeploymentWrites(d.docmap, now);
    var labels := c.GetRootDocumentLabels(mac);
    var todo := d.docmap.Keys;
    WriteAllEnds(dev.rows, writes, todo);
    NothingMovesYet(c.devices, c.metrics.counts, mac, d.docmap, dev.rows);
    assert writes.Keys - todo == {};
    while todo != {}
      invariant todo <= d.docmap.Keys
      invariant c.Dev(mac) == dev.(rows := WriteAll(dev.rows, writes - todo))
      invariant OnlyChanged(old(c.devices), c.devices, mac)
      invariant c.cfg.metrics ==>
                  DriftMoves(old(c.devices), old(c.metrics.counts), c.devices, c.metrics.counts, mac,
                             StateWrites(writes.Keys - todo, d.docmap, {}), dev.rows)
      decreases todo
    {
      var id :| id in todo;
      var subdoc := d.docmap[id];
      WriteAllStep(dev.rows, writes, todo, id);
      KeysStep(writes.Keys, todo, id);
      if subdoc.state.value != DEPLOYED && subdoc.state.value != IN_DEPLOYMENT {
        ghost var devices, counts := c.devices, c.metrics.counts;
        var _ := c.SetSubDocument(mac, id, StateRecord(IN_DEPLOYMENT, now, Some(0), Some("")), subdoc.state.value,
                                  labels);
        if c.cfg.metrics {
          OneMoreWrite(old(c.devices), old(c.metrics.counts), devices, counts, c.devices, c.metrics.counts, mac,
                       writes.Keys - todo, d.docmap, dev.rows, id);
        }
      }
      todo := todo - {id};
    }
    if c.cfg.metrics {
      assert writes.Keys - {} == writes.Keys;
      TruthKeepsDriftExactly(old(c.devices), old(c.metrics.counts), c.devices, c.metrics.counts, mac,
                             StateWrites(writes.Keys, d.docmap, {}), dev.rows);
    }
  }

  /** One more key of a batch is done. */
  lemma KeysStep(keys: set<string>, todo: set<string>, id: string)
    requires id in todo
    ensures id in keys ==> id !in keys - todo && keys - (todo - {id}) == keys - todo + {id}
    ensures id !in keys ==> keys - (todo - {id}) == keys - todo
  {
  }

  method UpdateStatesInBatch(c: DatabaseClient, mac: string, metricsAgent: string, states: map<string, int>, now: nat)
    modifies c`devices, c.metrics
    ensures c.Dev(mac) == old(c.Dev(mac)).(rows := WriteAll(old(c.Dev(mac)).rows, PokeWrites(states, now)))
    ensures OnlyChanged(old(c.devices), c.devices, mac)
    ensures c.cfg.metrics
            && (forall id :: id in states ==> Clip(states[id]) == Clip(StateOf(old(c.Dev(mac)).rows, id))) ==>
              SameDrift(old(c.devices), old(c.metrics.counts), c.devices, c.metrics.counts, mac)
  {
    ghost var dev := c.Dev(mac);
    ghost var writes := PokeWrites(states, now);
    var todo := states.Keys;
    WriteAllEnds(dev.rows, writes, todo);
    while todo != {}
      invariant todo <= states.Keys
      invariant c.Dev(mac) == dev.(rows := WriteAll(dev.rows, writes - todo))
      invariant OnlyChanged(old(c.devices), c.devices, mac)
      invariant c.cfg.metrics && (forall id :: id in states ==> Clip(states[id]) == Clip(StateOf(dev.rows, id))) ==>
                  SameDrift(old(c.devices), old(c.metrics.counts), c.devices, c.metrics.counts, mac)
      decreases todo
    {
      var id :| id in todo;
      WriteAllStep(dev.rows, writes, todo, id);
      var labels := c.GetRootDocumentLabels(mac);
      var _ := c.SetSubDocument(mac, id, StateRecord(IN_DEPLOYMENT, now, None, None), states[id],
                                labels.(client := metricsAgent));
      todo := todo - {id};
    }
  }

  /** The rootdoc branch of UpdateDocumentState. */
  method UpdateAllForHttp304(c: DatabaseClient, mac: string, doc: Document, labels: Labels, now: nat)
    returns (updated: set<string>)
    requires ShowsStates(doc.docmap, c.Dev(mac).rows)
    requires forall id :: id in doc.docmap ==> doc.docmap[id].state.Some?
    modifies c`devices, c.metrics
    ensures updated == Http304Writes(doc.docmap, now).Keys
    ensures c.Dev(mac) == old(c.Dev(mac)).(rows := WriteAll(old(c.Dev(mac)).rows, Http304Writes(doc.docmap, now)))
    ensures OnlyChanged(old(c.devices), c.devices, mac)
    ensures c.cfg.metrics ==> SameDrift(old(c.devices), old(c.metrics.counts), c.devices, c.metrics.counts, mac)
  {
    ghost var dev := c.Dev(mac);
    ghost var writes := Http304Writes(doc.docmap, now);
    updated := {};
    var todo := doc.docmap.Keys;
    WriteAllEnds(dev.rows, writes, todo);
    while todo != {}
      invariant todo <= doc.docmap.Keys
      invariant forall id :: id in updated <==> id in writes && id !in todo
      invariant c.Dev(mac) == dev.(rows := WriteAll(dev.rows, writes - todo))
      invariant OnlyChanged(old(c.devices), c.devices, mac)
      invariant c.cfg.metrics ==> SameDrift(old(c.devices), old(c.metrics.counts), c.devices, c.metrics.counts, mac)
      decreases todo
    {
      var id :| id in todo;
      var oldSubdoc := doc.docmap[id];
      WriteAllStep(dev.rows, writes, todo, id);
      if oldSubdoc.NeedsUpdateForHttp304() {
        updated := updated + {id};
        var _ := c.SetSubDocument(mac, id, StateRecord(DEPLOYED, now, Some(0), Some("")), oldSubdoc.state.value,
                                  labels);
      }
      todo := todo - {id};
    }
  }

  method UpdateDocumentState(c: DatabaseClient, mac: string, m: EventMessage, metricsAgent: string, now: nat)
    returns (r: ReportResult)
    modifies c`devices, c.metrics
    ensures (c.Dev(mac), r) == Reported(c.cfg, old(c.Dev(mac)), m, now)
    ensures OnlyChanged(old(c.devices), c.devices, mac)
    ensures c.cfg.metrics ==> SameDrift(old(c.devices), old(c.metrics.counts), c.devices, c.metrics.counts, mac)
  {
    if m.reports {
      return Done({});
    }
    var labels := c.GetRootDocumentLabels(mac);
    labels := labels.(client := metricsAgent);
    if m.httpStatusCode.Some? {
      if m.httpStatusCode.value != 304 {
        return Done({});
      }
      var doc := c.GetDocument(mac, false, now);
      if doc.docmap == map[] {
        return NotFound;
      }
      ReadShowsStates(c.Dev(mac).rows, false, now);
      var updated := UpdateAllForHttp304(c, mac, doc, labels, now);
      return Done(updated);
    }
    if m.applicationStatus.None? || m.namespace.None? {
      return IllFormatted;
    }
    var state := FAILURE;
    var errorCode, errorDetails := m.errorCode, m.errorDetails;
    if m.applicationStatus.value == "success" {
      state := DEPLOYED;
      errorCode := Some(0);
      errorDetails := Some("");
    } else if m.applicationStatus.value == "pending" {
      return StillPending;
    }
    var targetGroupId := m.namespace.value;
    var read := c.GetSubDocument(mac, targetGroupId);
    if read.None? {
      return NotFound;
    }
    var subdoc := read.value;
    var oldState := 0;
    if subdoc.state.Some? {
      oldState := subdoc.state.value;
      if oldState < DEPLOYED || oldState > FAILURE {
        return InvalidState;
      }
    }
    if subdoc.version.Some? && m.version.Some? {
      if subdoc.version.value != m.version.value {
        return Done({});
      }
    }
    if subdoc.updatedTime.Some? {
      if subdoc.updatedTime.value < 0 {
        assert false;
      }
    }
    var newSubdoc := StateRecord(state, now, errorCode, errorDetails);
    if c.cfg.precook && targetGroupId == "telemetry" && state == DEPLOYED && c.cfg.precookTtlDays > 0 {
      newSubdoc := newSubdoc.(expiry := Some(now + c.cfg.precookTtlDays * MS_PER_DAY));
    }
    if m.metricsAgent.Some? {
      labels := labels.(client := m.metricsAgent.value);
    }
    assert newSubdoc == ReportRecord(c.cfg, m, now);
    var _ := c.SetSubDocument(mac, targetGroupId, newSubdoc, oldState, labels);
    r := Done({});
  }

  // ---------- upstream write-back ----------

  method UpdateSubDocument(c: DatabaseClient, mac: string, id: string, newSubdoc: SubDocument,
                           oldSubdoc: Option<SubDocument>, deviceVersions: Versions, now: nat)
    requires newSubdoc.expiry.GetOr(0) >= 0
    modifies c`devices, c.metrics
    ensures
      var agreed := id in deviceVersions && oldSubdoc.Some? && newSubdoc.version == Some(deviceVersions[id]) &&
                    oldSubdoc.value.GetVersion() == deviceVersions[id];
      c.Dev(mac) == if agreed then old(c.Dev(mac)) else RowWritten(old(c.Dev(mac)), id, UpstreamRecord(newSubdoc, now))
    ensures OnlyChanged(old(c.devices), c.devices, mac)
    ensures c.cfg.metrics
            && Clip(if oldSubdoc.Some? then oldSubdoc.value.GetState() else 0)
               == Clip(StateOf(old(c.Dev(mac)).rows, id)) ==>
              SameDrift(old(c.devices), old(c.metrics.counts), c.devices, c.metrics.counts, mac)
    ensures
      if id in deviceVersions && oldSubdoc.Some? && newSubdoc.version == Some(deviceVersions[id]) &&
         oldSubdoc.value.GetVersion() == deviceVersions[id]
      then c.devices == old(c.devices) && c.metrics.counts == old(c.metrics.counts)
      else c.cfg.metrics ==>
             DriftShifts(old(c.devices), old(c.metrics.counts), c.devices, c.metrics.counts, mac,
                         StateOf(old(c.Dev(mac)).rows, id),
                         if oldSubdoc.Some? then oldSubdoc.value.GetState() else 0)
  {
    var oldState := 0;
    if oldSubdoc.Some? && oldSubdoc.value.state.Some? {
      oldState := oldSubdoc.value.state.value;
    }
    var labels := c.GetRootDocumentLabels(mac);
    var oldVersion := "";
    if oldSubdoc.Some? && oldSubdoc.value.version.Some? {
      oldVersion := oldSubdoc.value.version.value;
    }
    if id in deviceVersions {
      if newSubdoc.version.Some? {
        if deviceVersions[id] == newSubdoc.version.value && oldSubdoc.Some? && deviceVersions[id] == oldVersion {
          return;
        }
      }
    }
    var written := newSubdoc.(updatedTime := Some(now));
    written := written.(state := Some(IN_DEPLOYMENT));
    written := written.(errorCode := Some(0));
    written := written.(errorDetails := Some(""));
    var _ := c.SetSubDocument(mac, id, written, oldState, labels);
  }

  /** The new document shows no stored time that an upsert would refuse; its parts carry none. */
  ghost predicate NoNegativeExpiry(doc: Rows) {
    forall id :: id in doc ==> doc[id].expiry.GetOr(0) >= 0
  }

  /** The first loop of WriteDocumentFromUpstream; left is what it leaves of oldMap. */
  method UpdateSubDocuments(c: DatabaseClient, mac: string, newDoc: Document, d: Document, deviceVersions: Versions,
                            now: nat)
    returns (left: set<string>)
    requires NoNegativeExpiry(newDoc.docmap)
    modifies c`devices, c.metrics
    ensures left == d.docmap.Keys - newDoc.docmap.Keys
    ensures c.Dev(mac)
            == old(c.Dev(mac)).(
                 rows := WriteAll(old(c.Dev(mac)).rows, UpstreamWrites(newDoc.docmap, d.docmap, deviceVersions, now)))
    ensures OnlyChanged(old(c.devices), c.devices, mac)
    ensures c.cfg.metrics ==>
              DriftMoves(old(c.devices), old(c.metrics.counts), c.devices, c.metrics.counts, mac,
                         StateWrites(UpstreamWrites(newDoc.docmap, d.docmap, deviceVersions, now).Keys, d.docmap, {}),
                         old(c.Dev(mac)).rows)
  {
    ghost var dev := c.Dev(mac);
    ghost var writes := UpstreamWrites(newDoc.docmap, d.docmap, deviceVersions, now);
    left := d.docmap.Keys;
    var todo := newDoc.docmap.Keys;
    WriteAllEnds(dev.rows, writes, todo);
    NothingMovesYet(c.devices, c.metrics.counts, mac, d.docmap, dev.rows);
    assert writes.Keys - todo == {};
    while todo != {}
      invariant todo <= newDoc.docmap.Keys
      invariant left == d.docmap.Keys - (newDoc.docmap.Keys - todo)
      invariant c.Dev(mac) == dev.(rows := WriteAll(dev.rows, writes - todo))
      invariant OnlyChanged(old(c.devices), c.devices, mac)
      invariant c.cfg.metrics ==>
                  DriftMoves(old(c.devices), old(c.metrics.counts), c.devices, c.metrics.counts, mac,
                             StateWrites(writes.Keys - todo, d.docmap, {}), dev.rows)
      decreases todo
    {
      var id :| id in todo;
      WriteAllStep(dev.rows, writes, todo, id);
      KeysStep(writes.Keys, todo, id);
      var oldSubdoc := if id in d.docmap then Some(d.docmap[id]) else None;
      ghost var devices, counts := c.devices, c.metrics.counts;
      UpdateSubDocument(c, mac, id, newDoc.docmap[id], oldSubdoc, deviceVersions, now);
      if c.cfg.metrics && id in writes {
        OneMoreWrite(old(c.devices), old(c.metrics.counts), devices, counts, c.devices, c.metrics.counts, mac,
                     writes.Keys - todo, d.docmap, dev.rows, id);
      }
      left := left - {id};
      todo := todo - {id};
    }
    assert writes.Keys - {} == writes.Keys;
  }

  method DeleteSubDocuments(c: DatabaseClient, mac: string, ids: set<string>)
    modifies c`devices
    ensures c.Dev(mac) == old(c.Dev(mac)).(rows := old(c.Dev(mac)).rows - ids)
    ensures OnlyChanged(old(c.devices), c.devices, mac)
    ensures DriftMoves(old(c.devices), c.metrics.counts, c.devices, c.metrics.counts, mac, StateWrites({}, map[], ids),
                       old(c.Dev(mac)).rows)
  {
    ghost var dev := c.Dev(mac);
    var todo := ids;
    assert dev.rows - {} == dev.rows;
    while todo != {}
      invariant todo <= ids
      invariant c.Dev(mac) == dev.(rows := dev.rows - (ids - todo))
      invariant OnlyChanged(old(c.devices), c.devices, mac)
      decreases todo
    {
      var id :| id in todo;
      c.DeleteSubDocument(mac, id);
      assert dev.rows - (ids - todo) - {id} == dev.rows - (ids - (todo - {id}));
      todo := todo - {id};
    }
    assert ids - {} == ids;
    RemovalDrifts(old(c.devices), c.metrics.counts, c.devices, mac, ids);
  }

  method WriteDocumentFromUpstream(c: DatabaseClient, mac: string, etag: string, newDoc: Document, d: Document,
                                   toDelete: bool, deviceVersions: Versions, now: nat)
    requires NoNegativeExpiry(newDoc.docmap)
    modifies c`devices, c.metrics
    ensures c.Dev(mac)
            == WrittenFromUpstream(old(c.Dev(mac)), etag, newDoc.docmap, d.docmap, d.RootVersion(), toDelete,
                                   deviceVersions, now)
    ensures OnlyChanged(old(c.devices), c.devices, mac)
    ensures c.cfg.metrics && !toDelete && ShowsStates(d.docmap, old(c.Dev(mac)).rows)
            && old(c.Dev(mac)).rows.Keys <= d.docmap.Keys ==>
              SameDrift(old(c.devices), old(c.metrics.counts), c.devices, c.metrics.counts, mac)
    ensures c.cfg.metrics ==>
              DriftMoves(old(c.devices), old(c.metrics.counts), c.devices, c.metrics.counts, mac,
                         UpstreamStateWrites(newDoc.docmap, d.docmap, toDelete, deviceVersions, now),
                         old(c.Dev(mac)).rows)
  {
    ghost var rows, ids := c.Dev(mac).rows, UpstreamWrites(newDoc.docmap, d.docmap, deviceVersions, now).Keys;
    if d.RootVersion() != etag {
      c.SetRootDocumentVersion(mac, etag);
    }
    SameStatesSameDrift(old(c.devices), c.metrics.counts, c.devices, mac);
    var oldMap := UpdateSubDocuments(c, mac, newDoc, d, deviceVersions, now);
    ghost var devices, counts := c.devices, c.metrics.counts;
    if toDelete {
      DeleteSubDocuments(c, mac, oldMap);
      if c.cfg.metrics {
        WritesThenRemoval(old(c.devices), old(c.metrics.counts), devices, counts, c.devices, c.metrics.counts, mac,
                          ids, d.docmap, oldMap, rows, DeviceOf(devices, mac).rows);
      }
    } else if c.cfg.metrics && ShowsStates(d.docmap, rows) && rows.Keys <= d.docmap.Keys {
      ShownWritesAreTruthful(ids, d.docmap, rows);
      TruthKeepsDriftExactly(old(c.devices), old(c.metrics.counts), c.devices, c.metrics.counts, mac,
                             StateWrites(ids, d.docmap, {}), rows);
    }
  }

  // ---------- root documents and references ----------

  method PreprocessRootDocument(c: DatabaseClient, mac: string, meta: RootDoc) returns (rootDocument: RootDoc)
    modifies c`devices
    ensures rootDocument == if old(c.Dev(mac)).root.None? then meta else Updated(old(c.Dev(mac)).root.value, meta)
    ensures c.Dev(mac) == old(c.Dev(mac)).(root := Some(StoredRoot(old(c.Dev(mac)).root, rootDocument)))
    ensures OnlyChanged(old(c.devices), c.devices, mac)
  {
    var deviceRootDocument := new RootDocument(meta);
    var stored := c.GetRootDocument(mac);
    var cloudRootDocument: RootDocument;
    if stored.None? {
      cloudRootDocument := deviceRootDocument.Clone();
    } else {
      cloudRootDocument := new RootDocument(stored.value);
      cloudRootDocument.Update(deviceRootDocument);
    }
    c.SetRootDocument(mac, cloudRootDocument.record);
    rootDocument := cloudRootDocument.record;
  }

  method LoadRefSubDocuments(c: DatabaseClient, document: Document) returns (newDocument: Document)
    ensures fresh(newDocument)
    ensures newDocument.rootDocument == document.rootDocument
    ensures newDocument.docmap == WithReferences(c.refs, document.docmap)
  {
    newDocument := new Document(document.rootDocument);
    var todo := document.docmap.Keys;
    while todo != {}
      invariant todo <= document.docmap.Keys
      invariant newDocument.rootDocument == document.rootDocument
      invariant newDocument.docmap == map id | id in document.docmap && id !in todo
                && Resolvable(c.refs, document.docmap[id].payload) ::
                                        document.docmap[id].(payload := Resolved(c.refs, document.docmap[id].payload))
      decreases todo
    {
      var id :| id in todo;
      var subdoc := document.docmap[id];
      var refId := RefId(subdoc.payload);
      if refId.Some? {
        var referenced := Referenced(c.refs, refId.value);
        if referenced.Some? {
          newDocument.SetSubDocument(id, subdoc.(payload := referenced.value));
        }
      } else {
        newDocument.SetSubDocument(id, subdoc);
      }
      todo := todo - {id};
    }
  }

  // ---------- BuildGetDocument ----------

  /** Its part that reads, creates, compares and updates the root document. device is the header's
      root document with the root version the device names. */
  method ReadAndStoreRoot(c: DatabaseClient, mac: string, req: GetRequest, device: RootDoc)
    returns (cloud: RootDoc, compared: RootComparison)
    requires req.WellFormed() && device == req.meta.(version := device.version)
    modifies c`devices
    ensures cloud == old(c.Dev(mac)).root.GetOr(req.meta)
    ensures compared == if req.mget then VersionOnlyChanged else cloud.Compare(device)
    ensures c.Dev(mac) == old(c.Dev(mac)).(root := BuiltRoot(old(c.Dev(mac)), req))
    ensures OnlyChanged(old(c.devices), c.devices, mac)
  {
    var stored := c.GetRootDocument(mac);
    if stored.None? {
      c.SetRootDocument(mac, device.(version := ""));
      cloud := device.(version := "");
    } else {
      cloud := stored.value;
    }
    if req.mget {
      compared := VersionOnlyChanged;
    } else {
      compared := cloud.Compare(device);
    }
    if !cloud.SameMetadata(device) {
      c.SetRootDocument(mac, device.(version := ""));
    }
  }

  /** Its state correction loop. The loop edits copies: document keeps the states it was read with.
      messages holds, for every corrected row, the version announced as a success. */
  method CorrectStates(c: DatabaseClient, mac: string, document: Document, deviceVersions: Versions, labels: Labels,
                       now: nat)
    returns (messages: Versions)
    requires ShowsStates(document.docmap, c.Dev(mac).rows) && NoNegativeExpiry(document.docmap)
    requires forall id :: id in document.docmap ==>
               document.docmap[id].errorCode.Some? && document.docmap[id].errorDetails.Some?
    modifies c`devices, c.metrics
    ensures Announce(messages, Corrections(document.docmap, deviceVersions, now))
    ensures c.Dev(mac)
            == old(c.Dev(mac)).(
                 rows := WriteAll(old(c.Dev(mac)).rows, Corrections(document.docmap, deviceVersions, now)))
    ensures OnlyChanged(old(c.devices), c.devices, mac)
    ensures c.cfg.metrics ==> SameDrift(old(c.devices), old(c.metrics.counts), c.devices, c.metrics.counts, mac)
  {
    ghost var dev := c.Dev(mac);
    ghost var writes := Corrections(document.docmap, deviceVersions, now);
    messages := map[];
    var todo := document.docmap.Keys;
    WriteAllEnds(dev.rows, writes, todo);
    while todo != {}
      invariant todo <= document.docmap.Keys
      invariant forall id :: id in messages <==> id in writes && id !in todo
      invariant forall id :: id in messages ==> messages[id] == writes[id].GetVersion()
      invariant c.Dev(mac) == dev.(rows := WriteAll(dev.rows, writes - todo))
      invariant OnlyChanged(old(c.devices), c.devices, mac)
      invariant c.cfg.metrics ==> SameDrift(old(c.devices), old(c.metrics.counts), c.devices, c.metrics.counts, mac)
      decreases todo
    {
      var id :| id in todo;
      var subdocument := document.docmap[id];
      WriteAllStep(dev.rows, writes, todo, id);
      var wrong := StoredStateIsWrong(subdocument, id, deviceVersions);
      if wrong {
        CorrectRow(c, mac, id, subdocument, labels, now);
        messages := messages[id := subdocument.GetVersion()];
      }
      todo := todo - {id};
    }
  }

  method StoredStateIsWrong(subdocument: SubDocument, id: string, deviceVersions: Versions) returns (wrong: bool)
    ensures wrong <==> NeedsCorrection(subdocument, id, deviceVersions)
  {
    var cloudVersion := subdocument.GetVersion();
    var cloudState := subdocument.GetState();
    if |cloudVersion| == 0 {
      return false;
    }
    wrong := cloudVersion == Lookup(deviceVersions, id, "") && cloudState >= PENDING_DOWNLOAD && cloudState <= FAILURE;
  }

  method CorrectRow(c: DatabaseClient, mac: string, id: string, subdocument: SubDocument, labels: Labels, now: nat)
    requires subdocument.errorCode.Some? && subdocument.errorDetails.Some? && subdocument.expiry.GetOr(0) >= 0
    modifies c`devices, c.metrics
    ensures c.Dev(mac) == RowWritten(old(c.Dev(mac)), id, Corrected(subdocument, now))
    ensures OnlyChanged(old(c.devices), c.devices, mac)
    ensures c.cfg.metrics && Clip(subdocument.GetState()) == Clip(StateOf(old(c.Dev(mac)).rows, id)) ==>
              SameDrift(old(c.devices), old(c.metrics.counts), c.devices, c.metrics.counts, mac)
  {
    var corrected := CorrectRecord(subdocument, now);
    var _ := c.SetSubDocument(mac, id, corrected, subdocument.GetState(), labels);
  }

  method CorrectRecord(subdocument: SubDocument, now: nat) returns (r: SubDocument)
    requires subdocument.errorCode.Some? && subdocument.errorDetails.Some?
    ensures r == Corrected(subdocument, now)
  {
    r := subdocument.(state := Some(DEPLOYED));
    r := r.(updatedTime := Some(now));
    if subdocument.errorCode.value > 0 {
      r := r.(errorCode := Some(0));
    }
    if |subdocument.errorDetails.value| > 0 {
      r := r.(errorDetails := Some(""));
    }
  }

  lemma ReadShowsTimesAndErrors(rows: Rows, now: int)
    ensures NoNegativeExpiry(ReadDocument(rows, false, now))
    ensures forall id :: id in ReadDocument(rows, false, now) ==>
              ReadDocument(rows, false, now)[id].errorCode.Some?
                  && ReadDocument(rows, false, now)[id].errorDetails.Some?
  {
  }

  /** Its part that finds the device's version map, reading the document when the header's lists do
      not match; None is not-found. */
  method FindDeviceVersions(c: DatabaseClient, mac: string, req: GetRequest, now: nat)
    returns (document: Document?, r: Option<Versions>)
    requires req.WellFormed()
    ensures document != null ==> fresh(document)
    ensures r.None? <==> req.Mismatched() && ReadDocument(c.Dev(mac).rows, false, now) == map[]
    ensures r.Some? ==> DeviceVersions(req, c.Dev(mac).rows, now, r.value)
    ensures document != null ==> document.docmap == ReadDocument(c.Dev(mac).rows, false, now)
    ensures r.Some? && document == null ==> !req.Mismatched()
    ensures document != null ==> req.Mismatched()
  {
    document := null;
    r := ParseVersionMap(req);
    if r.None? {
      document := c.GetDocument(mac, false, now);
      if document.docmap == map[] {
        return document, None;
      }
      var cloudVersions := document.CollectVersions();
      var rebuilt := RebuildDeviceVersionMap(req.versions, cloudVersions);
      r := Some(rebuilt);
    }
  }

  /** Its middle: the root document, then the corrections when they are switched on. */
  method StoreRootAndCorrect(c: DatabaseClient, mac: string, req: GetRequest, device: RootDoc, early: Document?,
                             deviceVersions: Versions, now: nat)
    returns (document: Document?, cloud: RootDoc, compared: RootComparison, messages: Versions)
    requires req.WellFormed() && device == req.meta.(version := device.version)
    requires early != null ==> early.docmap == ReadDocument(c.Dev(mac).rows, false, now)
    modifies c`devices, c.metrics
    ensures document != null && document != early ==> fresh(document)
    ensures document != null ==> document.docmap == ReadDocument(old(c.Dev(mac)).rows, false, now)
    ensures document == null <==> early == null && !c.cfg.stateCorrection
    ensures cloud == old(c.Dev(mac)).root.GetOr(req.meta)
    ensures compared == if req.mget then VersionOnlyChanged else cloud.Compare(device)
    ensures c.Dev(mac)
            == Device(BuiltRows(c.cfg, old(c.Dev(mac)).rows, deviceVersions, now), BuiltRoot(old(c.Dev(mac)), req))
    ensures Announce(messages, if c.cfg.stateCorrection
                               then Corrections(ReadDocument(old(c.Dev(mac)).rows, false, now), deviceVersions, now)
                               else map[])
    ensures OnlyChanged(old(c.devices), c.devices, mac)
    ensures c.cfg.metrics ==> SameDrift(old(c.devices), old(c.metrics.counts), c.devices, c.metrics.counts, mac)
  {
    messages := map[];
    document := early;
    cloud, compared := ReadAndStoreRoot(c, mac, req, device);
    if c.cfg.stateCorrection {
      if document == null {
        document := c.GetDocument(mac, false, now);
      }
      ReadShowsStates(c.Dev(mac).rows, false, now);
      ReadShowsTimesAndErrors(c.Dev(mac).rows, now);
      messages := CorrectStates(c, mac, document, deviceVersions,
                                Labels(req.meta.modelName, req.meta.firmwareVersion, "unknown", "unknown"), now);
    }
  }

  /** Its end: the document is read unless it was read before, and filtered for the device. */
  method SelectDocument(c: DatabaseClient, mac: string, early: Document?, cloud: RootDoc, compared: RootComparison,
                        device: RootDoc, deviceVersions: Versions, ghost readable: Rows, ghost corrected: Rows,
                        now: nat)
    returns (document: Document?, postUpstream: bool, error: GetError)
    requires early != null ==> early.docmap == readable
    requires early == null ==> readable == ReadDocument(c.Dev(mac).rows, false, now) && !c.cfg.stateCorrection
    requires early != null && readable == map[] ==> c.cfg.stateCorrection
    modifies early
    ensures document != null && document != early ==> document != null ==> fresh(document)
    ensures
      var built := Selected(c.cfg, c.Dev(mac), readable, cloud, compared, device, deviceVersions, corrected, now);
      && error == built.error && postUpstream == built.postUpstream
      && (error == NoError <==> document != null)
      && (document != null ==> document.docmap == built.doc && document.rootDocument == Some(built.docRoot))
  {
    if cloud.Locked(now) {
      if c.cfg.lockRootDocument {
        return null, false, RootLocked;
      }
    }
    if compared.RootEquals? {
      document := new Document(Some(cloud));
      return document, false, NoError;
    }
    document := early;
    if document == null {
      document := c.GetDocument(mac, false, now);
      if document.docmap == map[] {
        return null, false, DocNotFound;
      }
    }
    document.SetRootDocument(Some(cloud));
    if compared.MetaChanged? {
      return document, true, NoError;
    }
    document := document.FilterForGet(deviceVersions);
    document.DeleteSubDocuments(c.cfg.blockedIds);
    return document, false, NoError;
  }

  /** Everything BuildGetDocument leaves and returns but the document itself. */
  ghost predicate Returned(built: Built, dev: Device, oldRoot: Option<RootDoc>, newRoot: RootDoc, postUpstream: bool,
                           messages: Versions, error: GetError) {
    && dev == built.dev && oldRoot == built.oldRoot && newRoot == built.newRoot
    && postUpstream == built.postUpstream && error == built.error && Announce(messages, built.corrected)
  }

  lemma SelectedReturns(cfg: Config, dev: Device, readable: Rows, cloud: RootDoc, compared: RootComparison,
                        device: RootDoc, dv: Versions, corrected: Rows, now: int, messages: Versions)
    requires Announce(messages, corrected)
    ensures var built := Selected(cfg, dev, readable, cloud, compared, device, dv, corrected, now);
            Returned(built, dev, Some(cloud), device, built.postUpstream, messages, built.error)
  {
  }

  lemma BuiltIsSelected(cfg: Config, dev: Device, req: GetRequest, dv: Versions, now: int)
    requires !(req.Mismatched() && ReadDocument(dev.rows, false, now) == map[])
    ensures
      var device := req.meta.(version := Lookup(dv, "root", ""));
      var cloud := dev.root.GetOr(req.meta);
      var readable := ReadDocument(dev.rows, false, now);
      BuiltDocument(cfg, dev, req, dv, now) ==
      Selected(cfg, Device(BuiltRows(cfg, dev.rows, dv, now), BuiltRoot(dev, req)), readable, cloud,
               if req.mget then VersionOnlyChanged else cloud.Compare(device), device, dv,
               if cfg.stateCorrection then Corrections(readable, dv, now) else map[], now)
  {
  }

  /** deviceVersions is the map the service attributes to the device; document is null on an error. */
  method BuildGetDocument(c: DatabaseClient, mac: string, req: GetRequest, now: nat)
    returns (document: Document?, oldRoot: Option<RootDoc>, newRoot: RootDoc, deviceVersions: Versions,
             postUpstream: bool, messages: Versions, error: GetError)
    requires req.WellFormed()
    modifies c`devices, c.metrics
    ensures document != null ==> fresh(document)
    ensures Returned(BuiltDocument(c.cfg, old(c.Dev(mac)), req, deviceVersions, now), c.Dev(mac), oldRoot, newRoot,
                     postUpstream, messages, error)
    ensures error == NoError <==> document != null
    ensures document != null ==> document.docmap == BuiltDocument(c.cfg, old(c.Dev(mac)), req, deviceVersions, now).doc
    ensures document != null ==>
              document.rootDocument == Some(BuiltDocument(c.cfg, old(c.Dev(mac)), req, deviceVersions, now).docRoot)
    ensures DeviceVersions(req, old(c.Dev(mac)).rows, now, deviceVersions)
    ensures OnlyChanged(old(c.devices), c.devices, mac)
    ensures c.cfg.metrics ==> SameDrift(old(c.devices), old(c.metrics.counts), c.devices, c.metrics.counts, mac)
  {
    newRoot := req.meta;
    messages := map[];
    var found;
    document, found := FindDeviceVersions(c, mac, req, now);
    if found.None? {
      return null, None, newRoot, map[], false, map[], DocNotFound;
    }
    deviceVersions := found.value;
    newRoot := newRoot.(version := Lookup(deviceVersions, "root", ""));
    var cloud, compared;
    document, cloud, compared, messages := StoreRootAndCorrect(c, mac, req, newRoot, document, deviceVersions, now);
    oldRoot := Some(cloud);
    ghost var readable := ReadDocument(old(c.Dev(mac)).rows, false, now);
    ghost var corrected := if c.cfg.stateCorrection then Corrections(readable, deviceVersions, now) else map[];
    BuiltIsSelected(c.cfg, old(c.Dev(mac)), req, deviceVersions, now);
    SelectedReturns(c.cfg, c.Dev(mac), readable, cloud, compared, newRoot, deviceVersions, corrected, now, messages);
    document, postUpstream, error :=
        SelectDocument(c, mac, document, cloud, compared, newRoot, deviceVersions, readable, corrected, now);
  }
}
