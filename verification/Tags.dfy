/** When a 304 is truthful. The root version hashes the versions one after the other, without their keys
    and without separators, so two version maps can share a tag under every hash. */
module Tags {
  import opened Common
  import opened Documents
  import opened Store
  import opened Steps
  import opened Machine
  import Deliveries
  import opened RootHash

  /** On an indexed device, the tag of a version map the device held before is taken for the current one
      exactly when the two maps have one text. */
  lemma OldTagMatchesExactly(cfg: Config, dev: Device, req: GetRequest, held: Versions)
    requires Indexed(cfg, dev) && ContentVersions(dev.rows) != map[]
    requires NoCollision(cfg.murmur, HashedText(held), HashedText(ContentVersions(dev.rows)))
    requires !dev.root.value.Compare(req.meta).MetaChanged?
    ensures dev.root.value.Compare(req.meta.(version := RootVersion(cfg.murmur, held))).RootEquals?
            <==> HashedText(held) == HashedText(ContentVersions(dev.rows))
  {
  }

  /** The device listed the versions of held, and their tag, for its root version. */
  ghost predicate Lists(cfg: Config, dv: Versions, held: Versions) {
    && Lookup(dv, "root", "") == RootVersion(cfg.murmur, held)
    && forall id :: id in held && id != "root" ==> Lookup(dv, id, "") == held[id]
  }

  /** Then the device is answered 304, with no row sent, exactly when the texts agree or every visible
      row is listed or blocked; with upstream on, when the texts agree or no row is wanted. This is for matched
      lists, an agent that is not mget, unchanged metadata and no lock. */
  lemma Told304Exactly(cfg: Config, refs: map<Bytes, Bytes>, dev: Device, req: GetRequest, dv: Versions, held: Versions,
                       reply: UpstreamReply, now: nat)
    requires cfg.Valid() && !req.FactoryReset() && !req.mget && !req.Mismatched()
    requires Indexed(cfg, dev) && ReadDocument(dev.rows, false, now) != map[] && ContentVersions(dev.rows) != map[]
    requires NoCollision(cfg.murmur, HashedText(held), HashedText(ContentVersions(dev.rows)))
    requires !dev.root.value.Compare(req.meta).MetaChanged?
    requires !(dev.root.value.Locked(now) && cfg.lockRootDocument)
    requires Lists(cfg, dv, held)
    ensures Got(cfg, refs, dev, req, dv, reply, now).1.status == 304 <==>
              || HashedText(held) == HashedText(ContentVersions(dev.rows))
              || (if cfg.upstream then forall id :: !Deliveries.Wanted(cfg, refs, dev, req, dv, now, id)
                  else
                    forall id :: id in ReadDocument(dev.rows, false, now) && id !in cfg.blockedIds ==>
                      dev.rows[id].GetVersion() == Lookup(dv, id, ""))
  {
    OldTagMatchesExactly(cfg, dev, req, held);
    if cfg.upstream {
      EqualUnlessWanted(cfg, refs, dev, req, dv, reply, now);
    } else {
      EqualUnlessStale(cfg, refs, dev, req, dv, now);
    }
  }

  /** With upstream on, an answer from the store that is no 200 is 304. */
  lemma EqualUnlessWanted(cfg: Config, refs: map<Bytes, Bytes>, dev: Device, req: GetRequest, dv: Versions,
                          reply: UpstreamReply, now: nat)
    requires cfg.Valid() && cfg.upstream && !req.FactoryReset() && !req.mget && !req.Mismatched() && dev.root.Some?
    requires ReadDocument(dev.rows, false, now) != map[]
    requires !dev.root.value.Compare(req.meta).MetaChanged?
    requires !(dev.root.value.Locked(now) && cfg.lockRootDocument)
    ensures Got(cfg, refs, dev, req, dv, reply, now).1.status == 304 <==>
              || dev.root.value.Compare(req.meta.(version := Lookup(dv, "root", ""))).RootEquals?
              || forall id :: !Deliveries.Wanted(cfg, refs, dev, req, dv, now, id)
  {
    Deliveries.StoreAnswer(cfg, refs, dev, req, dv, reply, now);
    Deliveries.GetAnswers200Exactly(cfg, refs, dev, req, dv, reply, now);
    Deliveries.UnlockedStatus(cfg, refs, dev, req, dv, now);
    if dev.root.value.Compare(req.meta.(version := Lookup(dv, "root", ""))).RootEquals? {
      Deliveries.EqualRootsGive304(cfg, refs, dev, req, dv, now);
    }
  }

  /** Without changed metadata and a lock, 304 means equal root versions or nothing stale. */
  lemma EqualUnlessStale(cfg: Config, refs: map<Bytes, Bytes>, dev: Device, req: GetRequest, dv: Versions, now: nat)
    requires cfg.Valid() && !req.mget && !req.Mismatched() && dev.root.Some?
    requires ReadDocument(dev.rows, false, now) != map[]
    requires !dev.root.value.Compare(req.meta).MetaChanged?
    requires !(dev.root.value.Locked(now) && cfg.lockRootDocument)
    ensures GetWithoutUpstream(cfg, refs, dev, req, dv, now).1.status == 304 <==>
              || dev.root.value.Compare(req.meta.(version := Lookup(dv, "root", ""))).RootEquals?
              || forall id :: id in ReadDocument(dev.rows, false, now) && id !in cfg.blockedIds ==>
                   dev.rows[id].GetVersion() == Lookup(dv, id, "")
  {
    var built := BuiltDocument(cfg, dev, req, dv, now);
    forall id ensures id in built.doc <==>
      && id in ReadDocument(dev.rows, false, now) && id !in cfg.blockedIds
      && !dev.root.value.Compare(req.meta.(version := Lookup(dv, "root", ""))).RootEquals?
      && dev.rows[id].GetVersion() != Lookup(dv, id, "")
    {
      Deliveries.BuiltDocOf(cfg, dev, req, dv, now, id);
    }
  }

  // ---------- an instance ----------

  /** Two rows before and after a change that moves one character from the first version to the second. */
  function Held(a: string, b: string, x: char, y: char, z: char): Versions {
    map[a := [x, y], b := [z]]
  }

  function Current(a: string, b: string, x: char, y: char, z: char): Versions {
    map[a := [x], b := [y, z]]
  }

  lemma TextOfTwo(a: string, b: string, v: Versions)
    requires Before(a, b) && a != b && v.Keys == {a, b}
    ensures HashedText(v) == v[a] + v[b]
  {
    var keys := [a, b];
    assert RootHash.Lists(keys, v.Keys);
    ListingIsUnique(keys, SortedListing(v.Keys), v.Keys);
    assert keys[1..] == [b] && keys[1..][1..] == [];
    assert Concat(keys[1..], v) == v[b] by {
      assert v[b] + Concat([], v) == v[b];
    }
  }

  /** Under every hash two rows can both change and keep the root version. */
  lemma BothChangeOneTag(murmur: string -> string, a: string, b: string, x: char, y: char, z: char)
    requires Before(a, b) && a != b
    ensures
      var held, current := Held(a, b, x, y, z), Current(a, b, x, y, z);
      && RootVersion(murmur, held) == RootVersion(murmur, current)
      && held[a] != current[a] && held[b] != current[b]
  {
    TextOfTwo(a, b, Held(a, b, x, y, z));
    TextOfTwo(a, b, Current(a, b, x, y, z));
    assert [x, y] + [z] == [x] + [y, z];
    assert |[x, y]| != |[x]| && |[z]| != |[y, z]|;
  }

  /** A device that holds the two old rows is told that nothing changed. */
  lemma StaleDeviceTold304(cfg: Config, refs: map<Bytes, Bytes>, dev: Device, req: GetRequest, dv: Versions,
                           reply: UpstreamReply, now: nat, a: string, b: string, x: char, y: char, z: char)
    requires cfg.Valid() && !req.FactoryReset() && !req.mget && !req.Mismatched()
    requires Before(a, b) && a != b && a != "root" && b != "root"
    requires forall text :: cfg.murmur(text) != ""
    requires Indexed(cfg, dev) && dev.root.Some? && ContentVersions(dev.rows) == Current(a, b, x, y, z)
    requires !dev.root.value.Compare(req.meta).MetaChanged?
    requires !(dev.root.value.Locked(now) && cfg.lockRootDocument)
    requires Lists(cfg, dv, Held(a, b, x, y, z))
    ensures Got(cfg, refs, dev, req, dv, reply, now).1.status == 304
    ensures forall id :: id in dev.rows && dev.rows[id].payload != [] ==> Stale(View(dev.rows[id]), id, dv)
  {
    BothChangeOneTag(cfg.murmur, a, b, x, y, z);
    BothStale(cfg, dev, dv, a, b, x, y, z);
    assert a in ContentVersions(dev.rows);
    Deliveries.EqualRootsGive304(cfg, refs, dev, req, dv, now);
    Deliveries.StoreAnswer(cfg, refs, dev, req, dv, reply, now);
  }

  lemma BothStale(cfg: Config, dev: Device, dv: Versions, a: string, b: string, x: char, y: char, z: char)
    requires a != b && a != "root" && b != "root"
    requires ContentVersions(dev.rows) == Current(a, b, x, y, z) && Lists(cfg, dv, Held(a, b, x, y, z))
    ensures forall id :: id in dev.rows && dev.rows[id].payload != [] ==> Stale(View(dev.rows[id]), id, dv)
  {
    forall id | id in dev.rows && dev.rows[id].payload != [] ensures Stale(View(dev.rows[id]), id, dv) {
      assert id in ContentVersions(dev.rows);
      assert |[x, y]| != |[x]| && |[z]| != |[y, z]|;
      assert Held(a, b, x, y, z)[id] != Current(a, b, x, y, z)[id];
    }
  }
}
