/** The attribution record of the minimal UTM tracker: what
    `initTrackingData` stores on page load, what `getFinalData` hands to a
    form, and the snapshot `fillHiddenFields` writes back. The record is a
    flat object of strings kept under one storage key. */
module TrackerData {
  import opened Common
  import opened CookieMatch
  import opened BrowserStorage
  import opened TrackerUrl
  import TrackerStorage

  const UtmFields: seq<string> := ["utm_source", "utm_medium", "utm_campaign", "utm_content", "utm_term"]
  const ClickFields: seq<string> := ["gclid", "fbclid", "ttclid"]
  const FbFields: seq<string> := ["fbp", "fbc"]
  /** `FIELDS.utm`, `FIELDS.clicks` and `FIELDS.fb`, in the order the three `forEach` loops visit them. */
  const TrackedFields: seq<string> :=
    ["utm_source", "utm_medium", "utm_campaign", "utm_content", "utm_term", "gclid", "fbclid", "ttclid", "fbp", "fbc"]
  /** The parameters removed from the stored page URL. */
  const Exclude: seq<string> :=
    ["utm_source", "utm_medium", "utm_campaign", "utm_content", "utm_term", "gclid", "fbclid", "ttclid", "fbp", "fbc", "epik"]
  /** The keys the form snapshot copies back into storage. */
  const SnapshotKeys: seq<string> :=
    ["utm_source", "utm_medium", "utm_campaign", "utm_content", "utm_term", "gclid", "fbclid", "ttclid", "fbp", "fbc",
     "google_client_id", "page_url"]

  /** A record as a form receives it: `null` is `None`. */
  type Record = map<string, Option<string>>

  // ---------- initTrackingData ----------

  /** The URL loops of `initTrackingData` over `keys`: a non-blank URL value,
      trimmed, replaces the stored one; otherwise the stored one stays. */
  function UrlOverlay(stored: map<string, string>, keys: seq<string>, q: Query): map<string, string>
    decreases |keys|
  {
    if |keys| == 0 then stored
    else
      var init := keys[..|keys| - 1];
      var k := keys[|keys| - 1];
      assert keys == init + [k];
      var before := UrlOverlay(stored, init, q);
      match NonBlank(Get(q, k))
      case Some(v) => before[k := v]
      case None => before
  }

  /** The overlay keeps every stored key and adds the keys with a non-blank
      URL value; each of those holds the trimmed URL value, every other key its stored value. */
  lemma {:induction false} UrlOverlayFields(stored: map<string, string>, keys: seq<string>, q: Query)
    ensures var m := UrlOverlay(stored, keys, q);
      forall k :: k in m <==> k in stored || (k in keys && NonBlank(Get(q, k)).Some?)
    ensures var m := UrlOverlay(stored, keys, q);
      forall k :: k in m ==>
        m[k] == if k in keys && NonBlank(Get(q, k)).Some? then NonBlank(Get(q, k)).value else stored[k]
    decreases |keys|
  {
    if |keys| > 0 {
      var init := keys[..|keys| - 1];
      assert keys == init + [keys[|keys| - 1]];
      UrlOverlayFields(stored, init, q);
    }
  }

  /** One more key of the loop. */
  lemma UrlOverlayStep(stored: map<string, string>, keys: seq<string>, i: nat, q: Query)
    requires i < |keys|
    ensures UrlOverlay(stored, keys[..i + 1], q) ==
      match NonBlank(Get(q, keys[i]))
      case Some(v) => UrlOverlay(stored, keys[..i], q)[keys[i] := v]
      case None => UrlOverlay(stored, keys[..i], q)
  {
    assert keys[..i + 1][..i] == keys[..i];
  }

  /** `if (!stored.key) { m = cookie.match(/prefix([^;]+)/); if (m && m[1]) stored.key = m[1].trim() }`. */
  function CookieFill(stored: map<string, string>, key: string, prefix: string, cookie: string): (m: map<string, string>)
    ensures Get(stored, key).Some? ==> m == stored
    ensures Get(stored, key).None? && Match(Capture(prefix, NotSemicolon), cookie).Some? ==>
      m == stored[key := Trim(Match(Capture(prefix, NotSemicolon), cookie).value)]
    ensures Get(stored, key).None? && Match(Capture(prefix, NotSemicolon), cookie).None? ==> m == stored
  {
    if Get(stored, key).Some? then stored
    else
      match Match(Capture(prefix, NotSemicolon), cookie)
      case Some(v) => stored[key := Trim(v)]
      case None => stored
  }

  /** The three URL `forEach` loops of `initTrackingData`. */
  method OverlayUrl(stored0: map<string, string>, q: Query) returns (stored: map<string, string>)
    ensures stored == UrlOverlay(stored0, TrackedFields, q)
  {
    stored := stored0;
    var keys := TrackedFields;
    var i := 0;
    while i < |keys|
      invariant 0 <= i <= |keys|
      invariant stored == UrlOverlay(stored0, keys[..i], q)
    {
      UrlOverlayStep(stored0, keys, i, q);
      var v := NonBlank(Get(q, keys[i]));
      if v.Some? {
        stored := stored[keys[i] := v.value];
      }
      i := i + 1;
    }
    assert keys[..i] == keys;
  }

  /** The two `if (!stored.fbp)` / `if (!stored.fbc)` steps of `initTrackingData`. */
  function CookieFills(stored: map<string, string>, cookie: string): map<string, string>
  {
    CookieFill(CookieFill(stored, "fbp", "_fbp=", cookie), "fbc", "_fbc=", cookie)
  }

  /** The same two steps as statements. */
  method FillFromCookies(stored0: map<string, string>, cookie: string) returns (stored: map<string, string>)
    ensures stored == CookieFills(stored0, cookie)
  {
    stored := stored0;
    if Get(stored, "fbp").None? {
      var m := Match(Capture("_fbp=", NotSemicolon), cookie);
      if m.Some? {
        stored := stored["fbp" := Trim(m.value)];
      }
    }
    ghost var withFbp := stored;
    if Get(stored, "fbc").None? {
      var m2 := Match(Capture("_fbc=", NotSemicolon), cookie);
      if m2.Some? {
        stored := stored["fbc" := Trim(m2.value)];
      }
    }
    assert stored == CookieFill(withFbp, "fbc", "_fbc=", cookie);
  }

  /** `if (ga) stored.google_client_id = ga; stored.page_url = pageUrl`. */
  function Settle(stored: map<string, string>, ga: Option<string>, pageUrl: string): map<string, string>
  {
    var withGa := if ga.Some? then stored["google_client_id" := ga.value] else stored;
    withGa["page_url" := pageUrl]
  }

  /** The record `initTrackingData` builds from the stored one. */
  function Initialized(stored: map<string, string>, q: Query, cookie: string, loc: Location): map<string, string>
  {
    Settle(CookieFills(UrlOverlay(stored, TrackedFields, q), cookie), ReadGoogleClientId(cookie), PageUrlWithoutParams(loc, Exclude))
  }

  /** `initTrackingData()`: reads the stored record, overlays the URL and the
      cookies, records the page URL, writes the record back and returns it. */
  method InitTrackingData(ls: LocalStore, q: Query, cookie: string, loc: Location, now: int, fault: WriteFault)
    returns (stored: map<string, string>)
    modifies ls
    ensures ls.supported == old(ls.supported)
    ensures var r := TrackerStorage.Read(old(ls.supported), old(ls.items), now);
      && stored == Initialized(AsFields(r.value), q, cookie, loc)
      && ls.items == TrackerStorage.Write(old(ls.supported), r.items, Fields(stored), now, fault).items
  {
    var saved := TrackerStorage.Get(ls, now);
    stored := OverlayUrl(AsFields(saved), q);
    stored := FillFromCookies(stored, cookie);
    var ga := ReadGoogleClientId(cookie);
    if ga.Some? {
      stored := stored["google_client_id" := ga.value];
    }
    stored := stored["page_url" := PageUrlWithoutParams(loc, Exclude)];
    var ok := TrackerStorage.Set(ls, Fields(stored), now, fault);
  }

  // ---------- getFinalData ----------

  /** `(uv && String(uv).trim()) ? String(uv).trim() : (stored[k] || null)`. */
  function FieldValue(stored: map<string, string>, k: string, q: Query): (r: Option<string>)
    ensures r.Some? ==> r.value != ""
    ensures r.None? <==> NonBlank(Get(q, k)).None? && Get(stored, k).None?
  {
    if NonBlank(Get(q, k)).Some? then NonBlank(Get(q, k)) else Get(stored, k)
  }

  /** The field loops of `getFinalData` over `keys`: the trimmed URL value
      when it is not blank, else the stored value, else `null`. */
  function FieldValues(stored: map<string, string>, keys: seq<string>, q: Query): Record
    decreases |keys|
  {
    if |keys| == 0 then map[]
    else
      var init := keys[..|keys| - 1];
      var k := keys[|keys| - 1];
      assert keys == init + [k];
      var before := FieldValues(stored, init, q);
      before[k := FieldValue(stored, k, q)]
  }

  /** Every key of `keys` gets the trimmed URL value when it is not blank,
      else the stored value, else `null`; no other key is present. */
  lemma {:induction false} FieldValuesFields(stored: map<string, string>, keys: seq<string>, q: Query)
    ensures var m := FieldValues(stored, keys, q);
      forall k :: k in m <==> k in keys
    ensures var m := FieldValues(stored, keys, q);
      forall k :: k in m ==>
        m[k] == FieldValue(stored, k, q)
    decreases |keys|
  {
    if |keys| > 0 {
      var init := keys[..|keys| - 1];
      assert keys == init + [keys[|keys| - 1]];
      FieldValuesFields(stored, init, q);
    }
  }

  /** One more key of the loop. */
  lemma FieldValuesStep(stored: map<string, string>, keys: seq<string>, i: nat, q: Query)
    requires i < |keys|
    ensures FieldValues(stored, keys[..i + 1], q) ==
      FieldValues(stored, keys[..i], q)[keys[i] := FieldValue(stored, keys[i], q)]
  {
    assert keys[..i + 1][..i] == keys[..i];
  }

  /** The three field `forEach` loops of `getFinalData`. */
  method CollectFieldValues(stored: map<string, string>, q: Query) returns (out: Record)
    ensures out == FieldValues(stored, TrackedFields, q)
  {
    out := map[];
    var keys := TrackedFields;
    var i := 0;
    while i < |keys|
      invariant 0 <= i <= |keys|
      invariant out == FieldValues(stored, keys[..i], q)
    {
      FieldValuesStep(stored, keys, i, q);
      out := out[keys[i] := FieldValue(stored, keys[i], q)];
      i := i + 1;
    }
    assert keys[..i] == keys;
  }

  /** `getPageUrlWithoutParams(exclude) || stored.page_url || location.href`. */
  function FinalPageUrl(stored: map<string, string>, loc: Location): Option<string>
  {
    var p := PageUrlWithoutParams(loc, Exclude);
    if p != "" then Some(p)
    else if Get(stored, "page_url").Some? then Get(stored, "page_url")
    else Some(loc.href)
  }

  /** The record `getFinalData` returns for a stored record. */
  function FinalRecord(stored: map<string, string>, q: Query, cookie: string, loc: Location): (r: Record)
    ensures "form_name" in r && r["form_name"] == None
  {
    var gaId := if ReadGoogleClientId(cookie).Some? then ReadGoogleClientId(cookie) else Get(stored, "google_client_id");
    FieldValues(stored, TrackedFields, q)["google_client_id" := gaId]["page_url" := FinalPageUrl(stored, loc)]["form_name" := None]
  }

  /** The body of `getFinalData` once the stored record is read. */
  method BuildFinalData(stored: map<string, string>, q: Query, cookie: string, loc: Location) returns (out: Record)
    ensures out == FinalRecord(stored, q, cookie, loc)
  {
    out := CollectFieldValues(stored, q);
    var ga := ReadGoogleClientId(cookie);
    var gaId := if ga.Some? then ga else Get(stored, "google_client_id");
    out := out["google_client_id" := gaId]["page_url" := FinalPageUrl(stored, loc)]["form_name" := None];
  }

  /** `getFinalData()`: the record for the form. It reads the storage, which
      may delete an expired or unreadable entry, and never writes it. */
  method GetFinalData(ls: LocalStore, q: Query, cookie: string, loc: Location, now: int) returns (out: Record)
    modifies ls
    ensures ls.supported == old(ls.supported)
    ensures var r := TrackerStorage.Read(old(ls.supported), old(ls.items), now);
      out == FinalRecord(AsFields(r.value), q, cookie, loc) && ls.items == r.items
  {
    var saved := TrackerStorage.Get(ls, now);
    out := BuildFinalData(AsFields(saved), q, cookie, loc);
  }

  // ---------- the snapshot of fillHiddenFields ----------

  /** `if (data[k]) ...`: the form value is a non-empty string. */
  predicate Truthy(data: Record, k: string)
  {
    k in data && data[k].Some? && data[k].value != ""
  }

  /** The snapshot loop over `keys`: every truthy value of `data` overwrites the stored one; nothing is removed. */
  function Snapshot(stored: map<string, string>, data: Record, keys: seq<string>): map<string, string>
    decreases |keys|
  {
    if |keys| == 0 then stored
    else
      var init := keys[..|keys| - 1];
      var k := keys[|keys| - 1];
      assert keys == init + [k];
      var before := Snapshot(stored, data, init);
      if Truthy(data, k) then before[k := data[k].value] else before
  }

  /** The snapshot keeps every stored key; a key of `keys` with a truthy form
      value holds that value, every other key its stored value. */
  lemma {:induction false} SnapshotFields(stored: map<string, string>, data: Record, keys: seq<string>)
    ensures var m := Snapshot(stored, data, keys);
      forall k :: k in m <==> k in stored || (k in keys && Truthy(data, k))
    ensures var m := Snapshot(stored, data, keys);
      forall k :: k in m ==> m[k] == if k in keys && Truthy(data, k) then data[k].value else stored[k]
    decreases |keys|
  {
    if |keys| > 0 {
      var init := keys[..|keys| - 1];
      assert keys == init + [keys[|keys| - 1]];
      SnapshotFields(stored, data, init);
    }
  }

  /** One more key of the loop. */
  lemma SnapshotStep(stored: map<string, string>, data: Record, keys: seq<string>, i: nat)
    requires i < |keys|
    ensures Snapshot(stored, data, keys[..i + 1]) ==
      if Truthy(data, keys[i]) then Snapshot(stored, data, keys[..i])[keys[i] := data[keys[i]].value]
      else Snapshot(stored, data, keys[..i])
  {
    assert keys[..i + 1][..i] == keys[..i];
  }

  /** The `keys.forEach` loop of the snapshot. */
  method MergeSnapshot(stored0: map<string, string>, data: Record) returns (stored: map<string, string>)
    ensures stored == Snapshot(stored0, data, SnapshotKeys)
  {
    stored := stored0;
    var keys := SnapshotKeys;
    var i := 0;
    while i < |keys|
      invariant 0 <= i <= |keys|
      invariant stored == Snapshot(stored0, data, keys[..i])
    {
      SnapshotStep(stored0, data, keys, i);
      if Truthy(data, keys[i]) {
        stored := stored[keys[i] := data[keys[i]].value];
      }
      i := i + 1;
    }
    assert keys[..i] == keys;
  }

  /** The snapshot of `fillHiddenFields`: the stored record, read again,
      takes every truthy value of `data` under `SnapshotKeys` and is written back. */
  method SaveSnapshot(ls: LocalStore, data: Record, now: int, fault: WriteFault)
    modifies ls
    ensures ls.supported == old(ls.supported)
    ensures var r := TrackerStorage.Read(old(ls.supported), old(ls.items), now);
      ls.items == TrackerStorage.Write(old(ls.supported), r.items, Fields(Snapshot(AsFields(r.value), data, SnapshotKeys)), now, fault).items
  {
    var saved := TrackerStorage.Get(ls, now);
    var stored := MergeSnapshot(AsFields(saved), data);
    var ok := TrackerStorage.Set(ls, Fields(stored), now, fault);
  }

  /** The storage part of `fillHiddenFields(form)`: the record for the form,
      then its snapshot. The second read finds what the first one left, so
      the snapshot merges into the same stored record the form data came from. */
  method FillHiddenFields(ls: LocalStore, q: Query, cookie: string, loc: Location, now: int, fault: WriteFault)
    returns (data: Record)
    modifies ls
    ensures ls.supported == old(ls.supported)
    ensures var r := TrackerStorage.Read(old(ls.supported), old(ls.items), now);
      var stored := AsFields(r.value);
      && data == FinalRecord(stored, q, cookie, loc)
      && ls.items == TrackerStorage.Write(old(ls.supported), r.items, Fields(Snapshot(stored, data, SnapshotKeys)), now, fault).items
  {
    data := GetFinalData(ls, q, cookie, loc, now);
    TrackerStorage.ReadIdempotent(old(ls.supported), old(ls.items), now);
    SaveSnapshot(ls, data, now, fault);
  }
}
