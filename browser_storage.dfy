/** `window.localStorage` as the scripts see it: a mutable map from keys to
    stored JSON texts. The text itself is not modelled; a stored item is
    classified by what `JSON.parse` makes of it, and a written envelope is
    read back as the same value. */
module BrowserStorage {
  import opened Common

  /** The session record of the form-interception script. Missing or falsy
      members are `""`, `0` or `None`; `pagesViewed` is `None` when it is
      not an array. */
  datatype SessionData = SessionData(
    id: string,
    startTime: int,
    pagesViewed: Option<seq<string>>,
    lastActivity: int,
    isNewSession: bool)

  /** The `data` member of an envelope: a falsy JSON value, a flat object of
      string fields (the attribution record), or a session record. */
  datatype Data = Falsy | Fields(fields: map<string, string>) | Session(session: SessionData)

  /** `{data, timestamp, expiry, version}`. A falsy `expiry` is `0`; a missing
      or empty `version` is `""`. */
  datatype Envelope = Envelope(data: Data, timestamp: int, expiry: int, version: string)

  /** What `getItem` returns for a key that is present, as `JSON.parse` sees it. */
  datatype Item =
    | Blank              // the empty string: falsy, so read like a missing key
    | Unparsable         // `JSON.parse` throws
    | NoData             // parses to a non-object, or to an object without `data`
    | Wrapped(env: Envelope)

  /** How a `setItem` call fails, decided by the browser: the first write may
      exceed the quota, and so may the one retry after purging. */
  datatype WriteFault = NoFault | QuotaExceeded(retrySucceeds: bool) | OtherFault

  /** `Storage.get(key) || {}` read as an attribution record: the `Fields`
      payload, and the empty object for a missing or falsy `data`. A truthy
      `data` that is not a flat object of strings also reads as the empty
      object here, where the scripts would go on with that value. */
  function AsFields(d: Option<Data>): (m: map<string, string>)
    ensures d.Some? && d.value.Fields? ==> m == d.value.fields
    ensures !(d.Some? && d.value.Fields?) ==> m == map[]
  {
    if d.Some? && d.value.Fields? then d.value.fields else map[]
  }

  class LocalStore {
    var items: map<string, Item>
    /** Whether the storage feature test (write and remove a probe key) passes. */
    var supported: bool

    constructor (items0: map<string, Item>, supported0: bool)
      ensures items == items0 && supported == supported0
    {
      items := items0;
      supported := supported0;
    }

    method SetItem(key: string, item: Item)
      modifies this
      ensures items == old(items)[key := item] && supported == old(supported)
    {
      items := items[key := item];
    }

    method RemoveItem(key: string)
      modifies this
      ensures items == old(items) - {key} && supported == old(supported)
    {
      items := items - {key};
    }
  }
}
