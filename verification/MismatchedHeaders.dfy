/** Recovery when Doc-Name and If-None-Match differ in length: the device's versions are matched to
    subdocuments through the stored version map, whose inverse depends on the visiting order. */
module MismatchedHeaders {
  import opened Common
  import opened Documents
  import opened Store
  import opened Steps
  import opened Deliveries

  /** No listed version belongs to two subdocuments. */
  ghost predicate ListedOnce(versions: seq<string>, cloud: Versions) {
    forall i, j :: i in cloud && j in cloud && cloud[i] == cloud[j] && cloud[i] in versions ==> i == j
  }

  /** Whatever the visiting order, every entry but "root" is a stored version the device listed, and
      every listed stored version is attributed to some subdocument that has it. */
  lemma RebuiltEntries(versions: seq<string>, cloud: Versions, m: Versions)
    requires Rebuilt(versions, cloud, m)
    ensures "root" in m
    ensures forall id :: id in m && id != "root" ==> id in cloud && m[id] == cloud[id] && cloud[id] in versions
    ensures forall id :: id in cloud && cloud[id] in versions ==> exists j :: j in m && m[j] == cloud[id]
  {
    var rev :| Reverses(rev, cloud) && m == RebuiltWith(versions, cloud, rev);
    forall id | id in cloud && cloud[id] in versions ensures exists j :: j in m && m[j] == cloud[id] {
      assert rev[cloud[id]] in m;
    }
  }

  /** When the root version differs, a row with a non-empty version is withheld only if the device
      listed that version; when no listed version belongs to two rows exactly the unlisted ones are delivered. */
  lemma MismatchDelivers(versions: seq<string>, doc: Rows, rootVersion: string, m: Versions, id: string)
    requires Rebuilt(versions, VersionMap(doc), m)
    requires !RootVersionMatches(rootVersion, m)
    requires id in doc && id != "root" && doc[id].version.Some? && doc[id].version.value != ""
    ensures doc[id].version.value !in versions ==> id in ForGet(doc, rootVersion, m)
    ensures ListedOnce(versions, VersionMap(doc)) ==>
              (id in ForGet(doc, rootVersion, m) <==> doc[id].version.value !in versions)
  {
    var cloud := VersionMap(doc);
    RebuiltEntries(versions, cloud, m);
    if ListedOnce(versions, cloud) && cloud[id] in versions {
      var j :| j in m && m[j] == cloud[id];
      RebuiltCovers(versions, cloud, m, id);
    }
  }

  /** So in the answer: of the rows that a device listing nothing would be sent, those it did not list are sent,
      and exactly those when no listed version belongs to two visible rows; all of them when its metadata changed. */
  lemma MismatchedGetDelivers(cfg: Config, refs: map<Bytes, Bytes>, dev: Device, req: GetRequest, m: Versions,
                              reply: UpstreamReply, now: nat, id: string)
    requires cfg.Valid() && FromStore(cfg, dev, req, m, now) && !LockedOut(cfg, dev, req, now)
    requires req.Mismatched() && DeviceVersions(req, dev.rows, now, m) && id != "root"
    requires !RootVersionMatches(dev.root.GetOr(req.meta).version, m)
    requires Wanted(cfg, refs, dev, req, map[], now, id) && dev.rows[id].GetVersion() != ""
    ensures
      var parts := Got(cfg, refs, dev, req, m, reply, now).1.parts;
      var changed := !req.mget && Comparison(dev, req, m).MetaChanged?;
      var listed := dev.rows[id].GetVersion() in req.versions;
      && (changed || !listed ==> id in parts)
      && (ListedOnce(req.versions, VersionMap(ReadDocument(dev.rows, false, now))) ==>
            (id in parts <==> changed || !listed))
  {
    var doc := ReadDocument(dev.rows, false, now);
    assert id in doc && doc[id].version == Some(dev.rows[id].GetVersion());
    MismatchDelivers(req.versions, doc, dev.root.GetOr(req.meta).version, m, id);
    PartsExactly(cfg, refs, dev, req, m, reply, now, id);
    SameRowWanted(cfg, refs, dev, req, m, now, id);
  }

  /** The versions listed decide only whether a row is stale. */
  lemma SameRowWanted(cfg: Config, refs: map<Bytes, Bytes>, dev: Device, req: GetRequest, dv: Versions, now: int,
                      id: string)
    requires cfg.Valid() && Wanted(cfg, refs, dev, req, map[], now, id)
    requires !RootVersionMatches(dev.root.GetOr(req.meta).version, dv)
    ensures Wanted(cfg, refs, dev, req, dv, now, id) <==>
              || (!req.mget && Comparison(dev, req, dv).MetaChanged?)
              || dev.rows[id].GetVersion() != Lookup(dv, id, "")
  {
  }

  lemma RebuiltCovers(versions: seq<string>, cloud: Versions, m: Versions, id: string)
    requires Rebuilt(versions, cloud, m) && ListedOnce(versions, cloud)
    requires id in cloud && cloud[id] in versions
    ensures id in m && m[id] == cloud[id]
  {
    var rev :| Reverses(rev, cloud) && m == RebuiltWith(versions, cloud, rev);
    assert cloud[rev[cloud[id]]] == cloud[id];
  }

  /** The request determines the recovered map exactly when no listed version belongs to two
      subdocuments; otherwise the visiting order decides which of the two is withheld. */
  lemma RecoveryIsDeterminedExactly(versions: seq<string>, cloud: Versions)
    requires versions != []
    ensures (forall m, n :: Rebuilt(versions, cloud, m) && Rebuilt(versions, cloud, n) ==> m == n)
            <==> ListedOnce(versions, cloud)
  {
    if ListedOnce(versions, cloud) {
      forall m, n | Rebuilt(versions, cloud, m) && Rebuilt(versions, cloud, n) ensures m == n {
        ListedOnceDetermines(versions, cloud, m);
        ListedOnceDetermines(versions, cloud, n);
      }
    } else {
      var i, j :| i in cloud && j in cloud && cloud[i] == cloud[j] && cloud[i] in versions && i != j;
      SharedVersionIsAmbiguous(versions, cloud, i, j);
    }
  }

  /** The part of the stored version map that the device listed. */
  function Listed(versions: seq<string>, cloud: Versions): Versions {
    map id | id in cloud && cloud[id] in versions :: cloud[id]
  }

  /** Then the map is the listed part of the stored version map. */
  lemma ListedOnceDetermines(versions: seq<string>, cloud: Versions, m: Versions)
    requires ListedOnce(versions, cloud) && Rebuilt(versions, cloud, m)
    ensures m == map["root" := versions[0]] + Listed(versions, cloud)
  {
    var rev :| Reverses(rev, cloud) && m == RebuiltWith(versions, cloud, rev);
    RecoveredIsListed(versions, cloud, rev);
  }

  lemma RecoveredIsListed(versions: seq<string>, cloud: Versions, rev: Versions)
    requires versions != [] && ListedOnce(versions, cloud) && Reverses(rev, cloud)
    ensures RebuiltWith(versions, cloud, rev) == map["root" := versions[0]] + Listed(versions, cloud)
  {
    var recovered := map id | id in cloud && cloud[id] in versions && cloud[id] in rev
        && rev[cloud[id]] == id :: cloud[id];
    forall id ensures id in recovered <==> id in Listed(versions, cloud) {
      if id in cloud && cloud[id] in versions {
        var other := rev[cloud[id]];
        assert cloud[other] == cloud[id];
      }
    }
    assert recovered == Listed(versions, cloud);
  }

  /** Two subdocuments of one listed version, "root" possibly among them: one order recovers the first,
      another the second. */
  lemma SharedVersionIsAmbiguous(versions: seq<string>, cloud: Versions, i: string, j: string)
    requires versions != [] && i in cloud && j in cloud && i != j
    requires cloud[i] == cloud[j] && cloud[i] in versions
    ensures exists m, n :: Rebuilt(versions, cloud, m) && Rebuilt(versions, cloud, n) && m != n
  {
    var k := if i == "root" then j else i;
    var l := if i == "root" then i else j;
    ReverseExists(cloud, k);
    ReverseExists(cloud, l);
    var r :| Reverses(r, cloud) && r[cloud[k]] == k;
    var s :| Reverses(s, cloud) && s[cloud[l]] == l;
    var m, n := RebuiltWith(versions, cloud, r), RebuiltWith(versions, cloud, s);
    assert Rebuilt(versions, cloud, m) && Rebuilt(versions, cloud, n);
    assert k in m && k !in n;
  }

  lemma ReverseExists(cloud: Versions, id: string)
    requires id in cloud
    ensures exists rev :: Reverses(rev, cloud) && rev[cloud[id]] == id
  {
    var rev := (map v | v in cloud.Values :: IdOf(cloud, v))[cloud[id] := id];
    forall k | k in cloud ensures cloud[k] in rev {
      assert cloud[k] in cloud.Values;
    }
    assert Reverses(rev, cloud);
  }

  ghost function IdOf(cloud: Versions, v: string): (id: string)
    requires v in cloud.Values
    ensures id in cloud && cloud[id] == v
  {
    var id :| id in cloud && cloud[id] == v;
    id
  }
}
