/** common/root_document.go: the per-device root document, its comparison and its two
    in-place updates. */
module RootDocuments {

  datatype RootComparison = RootEquals | VersionOnlyChanged | MetaChanged | RootMissing

  datatype RootDoc = RootDoc(
    bitmap: int,
    firmwareVersion: string,
    modelName: string,
    partnerId: string,
    schemaVersion: string,
    version: string,
    queryParams: string,
    lockedTill: int,
    productClass: string,
    accountType: string)
  {
    function Compare(r: RootDoc): RootComparison {
      if bitmap != r.bitmap then MetaChanged
      else if firmwareVersion != r.firmwareVersion then MetaChanged
      else if modelName != r.modelName then MetaChanged
      else if partnerId != "" && r.partnerId != "" && partnerId != r.partnerId then MetaChanged
      else if schemaVersion != r.schemaVersion then MetaChanged
      else if productClass != r.productClass then MetaChanged
      else if accountType != r.accountType then MetaChanged
      else if version != r.version then VersionOnlyChanged
      else if version == "" then RootMissing
      else RootEquals
    }

    /** Equals in the source: the seven metadata fields, the version is not looked at. */
    predicate SameMetadata(r: RootDoc) {
      && bitmap == r.bitmap
      && firmwareVersion == r.firmwareVersion
      && modelName == r.modelName
      && partnerId == r.partnerId
      && schemaVersion == r.schemaVersion
      && productClass == r.productClass
      && accountType == r.accountType
    }

    predicate Locked(now: int) {
      lockedTill > 0 && now < lockedTill
    }
  }

  const NO_ROOT := RootDoc(0, "", "", "", "", "", "", 0, "", "")

  function Newer(current: string, incoming: string): string {
    if |incoming| > 0 then incoming else current
  }

  /** What Update leaves in d: every non-empty field of r, the others as they were. */
  function Updated(d: RootDoc, r: RootDoc): RootDoc {
    RootDoc(
      if r.bitmap > 0 then r.bitmap else d.bitmap,
      Newer(d.firmwareVersion, r.firmwareVersion),
      Newer(d.modelName, r.modelName),
      Newer(d.partnerId, r.partnerId),
      Newer(d.schemaVersion, r.schemaVersion),
      Newer(d.version, r.version),
      Newer(d.queryParams, r.queryParams),
      d.lockedTill,
      Newer(d.productClass, r.productClass),
      Newer(d.accountType, r.accountType))
  }

  /** What UpdateMetadata leaves in d: as Updated, but version and query parameters stay. */
  function MetadataUpdated(d: RootDoc, r: RootDoc): RootDoc {
    Updated(d, r).(version := d.version, queryParams := d.queryParams)
  }

  /** The root document as an object; its fields are the fields of record, assigned one by one. */
  class RootDocument {
    var record: RootDoc

    constructor (v: RootDoc)
      ensures record == v
    {
      record := v;
    }

    method Clone() returns (r: RootDocument)
      ensures fresh(r) && r.record == record
    {
      r := new RootDocument(record);
    }

    method Update(r: RootDocument)
      modifies this
      ensures record == Updated(old(record), old(r.record))
    {
      var v := r.record;
      if v.bitmap > 0 {
        record := record.(bitmap := v.bitmap);
      }
      if |v.firmwareVersion| > 0 {
        record := record.(firmwareVersion := v.firmwareVersion);
      }
      if |v.modelName| > 0 {
        record := record.(modelName := v.modelName);
      }
      if |v.partnerId| > 0 {
        record := record.(partnerId := v.partnerId);
      }
      if |v.schemaVersion| > 0 {
        record := record.(schemaVersion := v.schemaVersion);
      }
      if |v.version| > 0 {
        record := record.(version := v.version);
      }
      if |v.queryParams| > 0 {
        record := record.(queryParams := v.queryParams);
      }
      if |v.productClass| > 0 {
        record := record.(productClass := v.productClass);
      }
      if |v.accountType| > 0 {
        record := record.(accountType := v.accountType);
      }
    }

    method UpdateMetadata(r: RootDocument)
      modifies this
      ensures record == MetadataUpdated(old(record), old(r.record))
    {
      var v := r.record;
      if v.bitmap > 0 {
        record := record.(bitmap := v.bitmap);
      }
      if |v.firmwareVersion| > 0 {
        record := record.(firmwareVersion := v.firmwareVersion);
      }
      if |v.modelName| > 0 {
        record := record.(modelName := v.modelName);
      }
      if |v.partnerId| > 0 {
        record := record.(partnerId := v.partnerId);
      }
      if |v.schemaVersion| > 0 {
        record := record.(schemaVersion := v.schemaVersion);
      }
      if |v.productClass| > 0 {
        record := record.(productClass := v.productClass);
      }
      if |v.accountType| > 0 {
        record := record.(accountType := v.accountType);
      }
    }
  }

  // ---------- what one config request does to the stored metadata ----------

  /** Every field but the partner id is non-empty in the header, or already empty in the store. */
  predicate HeaderCovers(stored: RootDoc, header: RootDoc) {
    && (header.bitmap > 0 || stored.bitmap == header.bitmap)
    && (header.firmwareVersion != "" || stored.firmwareVersion == "")
    && (header.modelName != "" || stored.modelName == "")
    && (header.schemaVersion != "" || stored.schemaVersion == "")
    && (header.productClass != "" || stored.productClass == "")
    && (header.accountType != "" || stored.accountType == "")
  }

  /** After the stored metadata is updated from a header, comparing against the same header reports
      changed metadata exactly when the header fails to overwrite some stored non-partner field. */
  lemma UpdateSettlesMetadata(stored: RootDoc, header: RootDoc)
    ensures Updated(stored, header.(version := "")).Compare(header).MetaChanged? <==> !HeaderCovers(stored, header)
  {
  }
}
