/** The `Storage` object of the form-interception script: versioned,
    expiring envelopes in `localStorage`, a size cap on writes, and one
    retry after purging the script's own two keys when the quota is hit. */
module WebhookStorage {
  import opened Common
  import opened BrowserStorage

  const DataKey: string := "wf_analytics_data"
  const SessionKey: string := "wf_analytics_session"
  /** 30 days in milliseconds. */
  const StorageExpiry: int := 30 * 24 * 60 * 60 * 1000
  const MaxStorageSize: nat := 100000
  const Version: string := "2.1.0"

  /** The envelope `set` writes at time `now`; a falsy requested expiry means 30 days from now. */
  function Stamp(data: Data, now: int, expiry: Option<int>): Envelope
  {
    Envelope(data, now, if expiry.Some? && expiry.value != 0 then expiry.value else now + StorageExpiry, Version)
  }

  /** Whether `get` deletes the item: unparsable, without `data`, written by
      another version, or past its expiry. A missing version or expiry is not checked. */
  predicate Discards(it: Item, now: int)
  {
    match it
    case Blank => false
    case Unparsable => true
    case NoData => true
    case Wrapped(env) =>
      || (env.version != "" && env.version != Version)
      || (env.expiry != 0 && now > env.expiry)
  }

  datatype ReadResult = ReadResult(value: Option<Data>, items: map<string, Item>)

  /** `get(key)` at time `now`: the value returned and the store afterwards. */
  function Read(supported: bool, items: map<string, Item>, key: string, now: int): (r: ReadResult)
    ensures r.value.Some? <==> supported && key in items && items[key].Wrapped? && !Discards(items[key], now)
    ensures r.value.Some? ==> r.value.value == items[key].env.data
    ensures r.items == (if supported && key in items && Discards(items[key], now) then items - {key} else items)
  {
    if !supported || key !in items then ReadResult(None, items)
    else if Discards(items[key], now) then ReadResult(None, items - {key})
    else if items[key].Wrapped? then ReadResult(Some(items[key].env.data), items)
    else ReadResult(None, items)
  }

  datatype WriteResult = WriteResult(ok: bool, items: map<string, Item>)

  /** `set(key, data, expiry)` writing envelope `env` whose JSON text has
      `serializedLength` characters, when the browser's `setItem` fails as `fault` says. */
  function Write(supported: bool, items: map<string, Item>, key: string, env: Envelope,
                 serializedLength: nat, fault: WriteFault): (r: WriteResult)
    ensures r.ok <==> supported && serializedLength <= MaxStorageSize && (fault.NoFault? || fault == QuotaExceeded(true))
    ensures r.ok ==> key in r.items && r.items[key] == Wrapped(env)
    ensures !supported || serializedLength > MaxStorageSize || fault.OtherFault? ==> r.items == items
  {
    if !supported || serializedLength > MaxStorageSize then WriteResult(false, items)
    else
      match fault
      case NoFault => WriteResult(true, items[key := Wrapped(env)])
      case OtherFault => WriteResult(false, items)
      case QuotaExceeded(retrySucceeds) =>
        var purged := items - {DataKey, SessionKey};
        if retrySucceeds then WriteResult(true, purged[key := Wrapped(env)])
        else WriteResult(false, purged)
  }

  /** A write touches only its own key, plus the script's two keys when the
      quota is exceeded: those are gone afterwards unless one of them is the
      key written. Without a quota error the two keys are left as they were. */
  lemma WriteFootprint(supported: bool, items: map<string, Item>, key: string, env: Envelope,
                       serializedLength: nat, fault: WriteFault)
    ensures var r := Write(supported, items, key, env, serializedLength, fault);
      forall k :: k != key && (!fault.QuotaExceeded? || (k != DataKey && k != SessionKey)) ==>
        (k in r.items <==> k in items) && (k in items ==> r.items[k] == items[k])
    ensures var r := Write(supported, items, key, env, serializedLength, fault);
      supported && serializedLength <= MaxStorageSize && fault.QuotaExceeded? ==>
        forall k :: k in r.items && k != key ==> k != DataKey && k != SessionKey
  {
  }

  /** `Storage.get(key)`. */
  method Get(ls: LocalStore, key: string, now: int) returns (value: Option<Data>)
    modifies ls
    ensures ls.supported == old(ls.supported)
    ensures ReadResult(value, ls.items) == Read(old(ls.supported), old(ls.items), key, now)
  {
    if !ls.supported || key !in ls.items {
      return None;
    }
    match ls.items[key] {
      case Blank =>
        return None;
      case Unparsable =>
        ls.RemoveItem(key);
        return None;
      case NoData =>
        ls.RemoveItem(key);
        return None;
      case Wrapped(env) =>
        if env.version != "" && env.version != Version {
          ls.RemoveItem(key);
          return None;
        }
        if env.expiry != 0 && now > env.expiry {
          ls.RemoveItem(key);
          return None;
        }
        return Some(env.data);
    }
  }

  /** `Storage.set(key, data, expiry)`. */
  method Set(ls: LocalStore, key: string, data: Data, expiry: Option<int>, now: int,
             serializedLength: nat, fault: WriteFault) returns (ok: bool)
    modifies ls
    ensures ls.supported == old(ls.supported)
    ensures WriteResult(ok, ls.items) ==
      Write(old(ls.supported), old(ls.items), key, Stamp(data, now, expiry), serializedLength, fault)
  {
    if !ls.supported {
      return false;
    }
    var item := Stamp(data, now, expiry);
    if serializedLength > MaxStorageSize {
      return false;
    }
    match fault {
      case NoFault =>
        ls.SetItem(key, Wrapped(item));
        return true;
      case OtherFault =>
        return false;
      case QuotaExceeded(retrySucceeds) =>
        ls.RemoveItem(DataKey);
        ls.RemoveItem(SessionKey);
        assert ls.items == old(ls.items) - {DataKey, SessionKey};
        if retrySucceeds {
          ls.SetItem(key, Wrapped(item));
          return true;
        }
        return false;
    }
  }

  /** `Storage.remove(key)`. */
  method Remove(ls: LocalStore, key: string)
    modifies ls
    ensures ls.supported == old(ls.supported)
    ensures ls.items == if ls.supported then old(ls.items) - {key} else old(ls.items)
  {
    if ls.supported {
      ls.RemoveItem(key);
    }
  }

  /** `Storage.clear()`: removes the script's own two keys and nothing else. */
  method Clear(ls: LocalStore)
    modifies ls
    ensures ls.supported == old(ls.supported)
    ensures ls.items == if ls.supported then old(ls.items) - {DataKey, SessionKey} else old(ls.items)
  {
    Remove(ls, DataKey);
    Remove(ls, SessionKey);
    assert ls.supported ==> ls.items == old(ls.items) - {DataKey, SessionKey};
  }

  /** What a successful `set` wrote is read back unchanged until its expiry. */
  lemma SetThenGet(supported: bool, items: map<string, Item>, key: string, data: Data, expiry: Option<int>,
                   now: int, serializedLength: nat, fault: WriteFault, later: int)
    requires Write(supported, items, key, Stamp(data, now, expiry), serializedLength, fault).ok
    requires later <= Stamp(data, now, expiry).expiry
    ensures var w := Write(supported, items, key, Stamp(data, now, expiry), serializedLength, fault);
      Read(supported, w.items, key, later) == ReadResult(Some(data), w.items)
  {
  }

  /** Once past its expiry the entry reads as absent and is deleted (for a
      clock after the epoch, so that the stored expiry is not the falsy `0`). */
  lemma GetAfterExpiry(supported: bool, items: map<string, Item>, key: string, data: Data, expiry: Option<int>,
                       now: int, serializedLength: nat, fault: WriteFault, later: int)
    requires Write(supported, items, key, Stamp(data, now, expiry), serializedLength, fault).ok
    requires now >= 0
    requires later > Stamp(data, now, expiry).expiry
    ensures var w := Write(supported, items, key, Stamp(data, now, expiry), serializedLength, fault);
      Read(supported, w.items, key, later) == ReadResult(None, w.items - {key})
  {
  }

  /** Without a requested expiry an entry lives exactly 30 days. */
  lemma DefaultLifetime(items: map<string, Item>, key: string, data: Data, now: int,
                        serializedLength: nat, fault: WriteFault)
    requires now >= 0
    requires Write(true, items, key, Stamp(data, now, None), serializedLength, fault).ok
    ensures var w := Write(true, items, key, Stamp(data, now, None), serializedLength, fault);
      && Read(true, w.items, key, now + 2592000000).value == Some(data)
      && Read(true, w.items, key, now + 2592000000 + 1).value == None
  {
  }

  /** Reading again right away gives the same answer and changes nothing more. */
  lemma ReadIdempotent(supported: bool, items: map<string, Item>, key: string, now: int)
    ensures var r := Read(supported, items, key, now);
      Read(supported, r.items, key, now) == r
  {
  }

  /** An entry written by another version is deleted on the first read, even before its expiry. */
  lemma OtherVersionDiscarded(items: map<string, Item>, key: string, env: Envelope, now: int)
    requires key in items && items[key] == Wrapped(env)
    requires env.version != "" && env.version != Version
    ensures Read(true, items, key, now) == ReadResult(None, items - {key})
  {
  }
}
