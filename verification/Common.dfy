/** Values shared by every component: optional columns, the four deployment states,
    the subdocument record and the parts of a multipart body. */
module Common {

  datatype Option<+T> = None | Some(value: T) {
    function GetOr(default: T): T {
      if Some? then value else default
    }
  }

  type Bytes = seq<bv8>

  const DEPLOYED := 1
  const PENDING_DOWNLOAD := 2
  const IN_DEPLOYMENT := 3
  const FAILURE := 4

  predicate IsState(s: int) {
    DEPLOYED <= s <= FAILURE
  }

  /** A subdocument, both as a record in memory and as a stored row. A nil pointer, or an
      absent column, is None; an absent payload is the empty byte string. Documents hold
      subdocuments by value, so a record is a value here too. */
  datatype SubDocument = SubDocument(
    payload: Bytes,
    version: Option<string>,
    state: Option<int>,
    updatedTime: Option<int>,
    errorCode: Option<int>,
    errorDetails: Option<string>,
    expiry: Option<int>)
  {
    function GetVersion(): string {
      version.GetOr("")
    }

    function GetState(): int {
      state.GetOr(0)
    }

    predicate NeedsUpdateForHttp304() {
      if updatedTime.Some? && updatedTime.value < 0 then true
      else if state.Some? then
        || state.value != DEPLOYED
        || (errorCode.Some? && errorCode.value != 0)
        || (errorDetails.Some? && errorDetails.value != "")
      else false
    }
  }

  const NO_COLUMNS := SubDocument([], None, None, None, None, None, None)

  /** A record that carries a state change only: no payload, no version, no expiry. */
  function StateRecord(state: int, now: int, errorCode: Option<int>, errorDetails: Option<string>): SubDocument {
    SubDocument([], None, Some(state), Some(now), errorCode, errorDetails, None)
  }

  datatype Multipart = Multipart(name: string, version: string, bytes: Bytes)

  type Rows = map<string, SubDocument>
  type Versions = map<string, string>

  function Lookup<V>(m: map<string, V>, k: string, default: V): V {
    if k in m then m[k] else default
  }
}
