/** The `Storage` object of the minimal UTM tracker: one key holding
    `{data, ts, expiry}`, read back until the expiry and deleted as soon as
    it is found unreadable or expired. Unlike the form-interception
    script's storage there is no version, no size cap and no retry. */
module TrackerStorage {
  import opened Common
  import opened BrowserStorage

  const StorageKey: string := "wf_utm_minimal"
  /** 30 days in milliseconds. */
  const StorageExpiry: int := 30 * 24 * 60 * 60 * 1000

  /** The item `_set` writes at time `now`; the tracker stores no version. */
  function Stamp(data: Data, now: int): (env: Envelope)
    ensures env.data == data && env.expiry == now + StorageExpiry
  {
    Envelope(data, now, now + StorageExpiry, "")
  }

  /** Whether `_get` deletes the stored item: unparsable, without `data`, or
      past a truthy expiry. */
  predicate Discards(it: Item, now: int)
  {
    match it
    case Blank => false
    case Unparsable => true
    case NoData => true
    case Wrapped(env) => env.expiry != 0 && now > env.expiry
  }

  datatype ReadResult = ReadResult(value: Option<Data>, items: map<string, Item>)

  /** `Storage.get()` at time `now`: the `data` member returned and the store afterwards. */
  function Read(supported: bool, items: map<string, Item>, now: int): (r: ReadResult)
    ensures r.value.Some? <==> supported && StorageKey in items && items[StorageKey].Wrapped? && !Discards(items[StorageKey], now)
    ensures r.value.Some? ==> r.value.value == items[StorageKey].env.data
    ensures r.items == (if supported && StorageKey in items && Discards(items[StorageKey], now)
                        then items - {StorageKey} else items)
  {
    if !supported || StorageKey !in items then ReadResult(None, items)
    else if Discards(items[StorageKey], now) then ReadResult(None, items - {StorageKey})
    else if items[StorageKey].Wrapped? then ReadResult(Some(items[StorageKey].env.data), items)
    else ReadResult(None, items)
  }

  datatype WriteResult = WriteResult(ok: bool, items: map<string, Item>)

  /** `Storage.set(data)` at time `now`, when `setItem` fails as `fault` says.
      Any failure deletes the key. */
  function Write(supported: bool, items: map<string, Item>, data: Data, now: int, fault: WriteFault): (r: WriteResult)
    ensures r.ok <==> supported && fault.NoFault?
    ensures r.ok ==> r.items == items[StorageKey := Wrapped(Stamp(data, now))]
    ensures supported && !fault.NoFault? ==> r.items == items - {StorageKey}
    ensures !supported ==> r.items == items
  {
    if !supported then WriteResult(false, items)
    else if fault.NoFault? then WriteResult(true, items[StorageKey := Wrapped(Stamp(data, now))])
    else WriteResult(false, items - {StorageKey})
  }

  /** `Storage.get()`. */
  method Get(ls: LocalStore, now: int) returns (value: Option<Data>)
    modifies ls
    ensures ls.supported == old(ls.supported)
    ensures ReadResult(value, ls.items) == Read(old(ls.supported), old(ls.items), now)
  {
    if !ls.supported || StorageKey !in ls.items {
      return None;
    }
    match ls.items[StorageKey] {
      case Blank =>
        return None;
      case Unparsable =>
        ls.RemoveItem(StorageKey);
        return None;
      case NoData =>
        ls.RemoveItem(StorageKey);
        return None;
      case Wrapped(env) =>
        if env.expiry != 0 && now > env.expiry {
          ls.RemoveItem(StorageKey);
          return None;
        }
        return Some(env.data);
    }
  }

  /** `Storage.set(data)`. */
  method Set(ls: LocalStore, data: Data, now: int, fault: WriteFault) returns (ok: bool)
    modifies ls
    ensures ls.supported == old(ls.supported)
    ensures WriteResult(ok, ls.items) == Write(old(ls.supported), old(ls.items), data, now, fault)
  {
    if !ls.supported {
      return false;
    }
    if fault.NoFault? {
      ls.SetItem(StorageKey, Wrapped(Stamp(data, now)));
      return true;
    }
    ls.RemoveItem(StorageKey);
    return false;
  }

  /** What a successful `set` wrote is read back unchanged for 30 days. */
  lemma SetThenGet(supported: bool, items: map<string, Item>, data: Data, now: int, fault: WriteFault, later: int)
    requires Write(supported, items, data, now, fault).ok
    requires later <= now + StorageExpiry
    ensures var w := Write(supported, items, data, now, fault);
      Read(supported, w.items, later) == ReadResult(Some(data), w.items)
  {
  }

  /** After 30 days the entry reads as absent and is deleted (for a clock
      from which the expiry is not the falsy `0`). */
  lemma GetAfterExpiry(supported: bool, items: map<string, Item>, data: Data, now: int, fault: WriteFault, later: int)
    requires Write(supported, items, data, now, fault).ok
    requires now >= 0 && later > now + StorageExpiry
    ensures var w := Write(supported, items, data, now, fault);
      Read(supported, w.items, later) == ReadResult(None, w.items - {StorageKey})
  {
  }

  /** A failed write leaves nothing under the key, so a later read finds nothing
      and changes nothing. */
  lemma FailedWriteForgets(items: map<string, Item>, data: Data, now: int, fault: WriteFault, later: int)
    requires !fault.NoFault?
    ensures var w := Write(true, items, data, now, fault);
      !w.ok && Read(true, w.items, later) == ReadResult(None, w.items)
  {
  }

  /** Reading again right away gives the same answer and changes nothing more. */
  lemma ReadIdempotent(supported: bool, items: map<string, Item>, now: int)
    ensures var r := Read(supported, items, now);
      Read(supported, r.items, now) == r
  {
  }
}
