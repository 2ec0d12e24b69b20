/** common/document.go: a device's subdocuments under one root document, and its filters. */
module Documents {
  import opened Common
  import opened RootDocuments
  import opened Bitmaps
  import RootHash

  // ---------- the filters as functions of the subdocument map ----------

  function VersionMap(doc: Rows): Versions {
    map id | id in doc && doc[id].version.Some? :: doc[id].version.value
  }

  function StateMap(doc: Rows): map<string, int> {
    map id | id in doc && doc[id].state.Some? :: doc[id].state.value
  }

  /** The device names the stored root version: it has everything. */
  predicate RootVersionMatches(rootVersion: string, deviceVersions: Versions) {
    Lookup(deviceVersions, "root", "") != "" && Lookup(deviceVersions, "root", "") == rootVersion
  }

  /** The device does not name this version for this subdocument. */
  predicate Stale(subdoc: SubDocument, id: string, deviceVersions: Versions) {
    subdoc.version.Some? && subdoc.version.value != Lookup(deviceVersions, id, "")
  }

  function ForGet(doc: Rows, rootVersion: string, deviceVersions: Versions): Rows {
    if RootVersionMatches(rootVersion, deviceVersions) then map[]
    else map id | id in doc && Stale(doc[id], id, deviceVersions) :: doc[id]
  }

  function ForMqttSend(doc: Rows): Rows {
    map id | id in doc && doc[id].state.Some? && doc[id].state.value > DEPLOYED :: doc[id]
  }

  predicate SupportedOrExempt(indexes: map<string, int>, bitmap: int, exempt: seq<string>, id: string)
    requires IndexesValid(indexes)
  {
    id in exempt || IsSubdocSupported(indexes, bitmap, id)
  }

  function ByBitmap(doc: Rows, bitmap: int, indexes: map<string, int>, exempt: seq<string>): Rows
    requires IndexesValid(indexes)
  {
    map id | id in doc && SupportedOrExempt(indexes, bitmap, exempt, id) :: doc[id]
  }

  function PartRecord(part: Multipart): SubDocument {
    SubDocument(part.bytes, Some(part.version), None, None, None, None, None)
  }

  /** SetSubDocuments on an empty document: a later part of the same name replaces an earlier one. */
  function FromParts(parts: seq<Multipart>): Rows {
    if parts == [] then map[]
    else FromParts(parts[..|parts| - 1])[parts[|parts| - 1].name := PartRecord(parts[|parts| - 1])]
  }

  /** The two forms of HashRootVersion hash the same version map, so a part list and the document
      built from it have the same root version. */
  lemma {:induction false} PartVersionsAreVersionMap(parts: seq<Multipart>)
    ensures RootHash.PartVersions(parts) == VersionMap(FromParts(parts))
  {
    if parts != [] {
      PartVersionsAreVersionMap(parts[..|parts| - 1]);
    }
  }

  /** A device that adopts the versions it was sent is sent nothing more, whether or not it also
      adopts the root version. */
  lemma ForGetIsFixpoint(doc: Rows, rootVersion: string, deviceVersions: Versions)
    ensures
      var adopted := deviceVersions + VersionMap(ForGet(doc, rootVersion, deviceVersions));
      && ForGet(doc, rootVersion, adopted) == map[]
      && (rootVersion != "" || "root" !in doc ==> ForGet(doc, rootVersion, adopted["root" := rootVersion]) == map[])
  {
    var sent := ForGet(doc, rootVersion, deviceVersions);
    var adopted := deviceVersions + VersionMap(sent);
    if RootVersionMatches(rootVersion, deviceVersions) {
      assert adopted == deviceVersions;
    } else {
      forall id | id in doc ensures !Stale(doc[id], id, adopted) {
        assert Stale(doc[id], id, deviceVersions) ==> id in sent && id in VersionMap(sent);
      }
    }
  }

  class Document {
    var docmap: Rows
    var rootDocument: Option<RootDoc>

    constructor (rootDocument: Option<RootDoc>)
      ensures docmap == map[] && this.rootDocument == rootDocument
    {
      this.docmap := map[];
      this.rootDocument := rootDocument;
    }

    function RootVersion(): string
      reads this
    {
      if rootDocument.None? then "" else rootDocument.value.version
    }

    method SetRootDocument(rootDocument: Option<RootDoc>)
      modifies this`rootDocument
      ensures this.rootDocument == rootDocument
    {
      this.rootDocument := rootDocument;
    }

    method SetSubDocument(id: string, subdoc: SubDocument)
      modifies this`docmap
      ensures docmap == old(docmap)[id := subdoc]
    {
      docmap := docmap[id := subdoc];
    }

    method DeleteSubDocument(id: string)
      modifies this`docmap
      ensures docmap == old(docmap) - {id}
    {
      docmap := docmap - {id};
    }

    method DeleteSubDocuments(ids: seq<string>)
      modifies this`docmap
      ensures docmap == old(docmap) - (set id | id in ids)
    {
      for i := 0 to |ids|
        invariant docmap == old(docmap) - (set id | id in ids[..i])
      {
        DeleteSubDocument(ids[i]);
        assert ids[..i + 1] == ids[..i] + [ids[i]];
      }
      assert ids[..|ids|] == ids;
    }

    method SetSubDocuments(parts: seq<Multipart>)
      modifies this`docmap
      ensures docmap == old(docmap) + FromParts(parts)
    {
      for i := 0 to |parts|
        invariant docmap == old(docmap) + FromParts(parts[..i])
      {
        SetSubDocument(parts[i].name, PartRecord(parts[i]));
        assert parts[..i + 1][..i] == parts[..i];
      }
      assert parts[..|parts|] == parts;
    }

    /** VersionMap in the source: the map is filled in any order. */
    method CollectVersions() returns (versionMap: Versions)
      ensures versionMap == VersionMap(docmap)
    {
      versionMap := map[];
      var todo := docmap.Keys;
      while todo != {}
        invariant todo <= docmap.Keys
        invariant versionMap == map id | id in docmap && id !in todo
                  && docmap[id].version.Some? :: docmap[id].version.value
        decreases todo
      {
        var id :| id in todo;
        if docmap[id].version.Some? {
          versionMap := versionMap[id := docmap[id].version.value];
        }
        todo := todo - {id};
      }
    }

    method CollectStates() returns (stateMap: map<string, int>)
      ensures stateMap == StateMap(docmap)
    {
      stateMap := map[];
      var todo := docmap.Keys;
      while todo != {}
        invariant todo <= docmap.Keys
        invariant stateMap == map id | id in docmap && id !in todo && docmap[id].state.Some? :: docmap[id].state.value
        decreases todo
      {
        var id :| id in todo;
        if docmap[id].state.Some? {
          stateMap := stateMap[id := docmap[id].state.value];
        }
        todo := todo - {id};
      }
    }

    method FilterForMqttSend() returns (newdoc: Document)
      ensures fresh(newdoc)
      ensures newdoc.rootDocument == rootDocument && newdoc.docmap == ForMqttSend(docmap)
    {
      newdoc := new Document(rootDocument);
      var todo := docmap.Keys;
      while todo != {}
        invariant todo <= docmap.Keys
        invariant newdoc.rootDocument == rootDocument
        invariant newdoc.docmap == map id | id in docmap && id !in todo && docmap[id].state.Some?
                  && docmap[id].state.value > DEPLOYED
                                     :: docmap[id]
        decreases todo
      {
        var id :| id in todo;
        if docmap[id].state.Some? {
          if docmap[id].state.value > DEPLOYED {
            newdoc.SetSubDocument(id, docmap[id]);
          }
        }
        todo := todo - {id};
      }
    }

    method FilterForGet(versionMap: Versions) returns (newdoc: Document)
      ensures fresh(newdoc)
      ensures newdoc.rootDocument == rootDocument && newdoc.docmap == ForGet(docmap, RootVersion(), versionMap)
    {
      newdoc := new Document(rootDocument);
      var deviceRootVersion := Lookup(versionMap, "root", "");
      if |deviceRootVersion| > 0 {
        if deviceRootVersion == RootVersion() {
          return;
        }
      }
      var todo := docmap.Keys;
      while todo != {}
        invariant todo <= docmap.Keys
        invariant newdoc.rootDocument == rootDocument
        invariant newdoc.docmap == map id | id in docmap && id !in todo
                  && Stale(docmap[id], id, versionMap) :: docmap[id]
        decreases todo
      {
        var id :| id in todo;
        if docmap[id].version.Some? {
          if docmap[id].version.value != Lookup(versionMap, id, "") {
            newdoc.SetSubDocument(id, docmap[id]);
          }
        }
        todo := todo - {id};
      }
    }

    method FilterByBitmap(indexes: map<string, int>, exempt: seq<string>) returns (newdoc: Document)
      requires IndexesValid(indexes)
      ensures newdoc == this || fresh(newdoc)
      ensures newdoc.rootDocument == rootDocument
      ensures newdoc.docmap == if rootDocument.None? then docmap
                               else ByBitmap(docmap, rootDocument.value.bitmap, indexes, exempt)
    {
      if rootDocument.None? {
        return this;
      }
      newdoc := new Document(rootDocument);
      var bitmap := rootDocument.value.bitmap;
      var supportedMap := GetSupportedMap(indexes, bitmap);
      for i := 0 to |exempt|
        invariant forall k :: Holds(supportedMap, k) <==> k in exempt[..i] || IsSubdocSupported(indexes, bitmap, k)
      {
        supportedMap := supportedMap[exempt[i] := true];
        assert exempt[..i + 1] == exempt[..i] + [exempt[i]];
      }
      assert exempt[..|exempt|] == exempt;
      var todo := docmap.Keys;
      while todo != {}
        invariant todo <= docmap.Keys
        invariant newdoc.rootDocument == rootDocument
        invariant newdoc.docmap == map id | id in docmap && id !in todo
                  && SupportedOrExempt(indexes, bitmap, exempt, id) :: docmap[id]
        decreases todo
      {
        var id :| id in todo;
        if id in supportedMap && supportedMap[id] {
          assert Holds(supportedMap, id);
          newdoc.SetSubDocument(id, docmap[id]);
        } else {
          assert !Holds(supportedMap, id);
        }
        todo := todo - {id};
      }
    }
  }
}
