/** What the minimal tracker promises about its attribution record: which
    source wins for each field when the page loads, what the form receives,
    and that the snapshot written after the form is filled erases nothing. */
module TrackerRecordProps {
  import opened Common
  import opened CookieMatch
  import opened BrowserStorage
  import opened TrackerUrl
  import opened TrackerData
  import TrackerStorage

  // ---------- initTrackingData ----------

  /** The tracked fields are neither of the two keys `initTrackingData` sets last. */
  lemma TrackedNotSettled(k: string)
    requires k in TrackedFields
    ensures k != "google_client_id" && k != "page_url"
  {
  }

  /** The last two steps touch only `google_client_id` and `page_url`. */
  lemma SettleKeeps(m: map<string, string>, ga: Option<string>, pageUrl: string, k: string)
    requires k != "google_client_id" && k != "page_url"
    ensures k in Settle(m, ga, pageUrl) <==> k in m
    ensures k in m ==> Settle(m, ga, pageUrl)[k] == m[k]
  {
  }

  /** The last two steps always set the page URL, set the client id when
      there is one and otherwise keep the stored one, and remove no key. */
  lemma SettleFields(m: map<string, string>, ga: Option<string>, pageUrl: string)
    ensures var r := Settle(m, ga, pageUrl);
      "page_url" in r && r["page_url"] == pageUrl
    ensures var r := Settle(m, ga, pageUrl);
      ga.Some? ==> "google_client_id" in r && r["google_client_id"] == ga.value
    ensures var r := Settle(m, ga, pageUrl);
      ga.None? ==>
        && ("google_client_id" in r <==> "google_client_id" in m)
        && ("google_client_id" in m ==> r["google_client_id"] == m["google_client_id"])
    ensures forall k :: k in m ==> k in Settle(m, ga, pageUrl)
  {
  }

  /** The cookie steps keep a non-empty value, and any key other than `fbp` and `fbc`. */
  lemma CookieFillsKeeps(m: map<string, string>, cookie: string, k: string)
    requires k in m && (m[k] != "" || (k != "fbp" && k != "fbc"))
    ensures k in CookieFills(m, cookie) && CookieFills(m, cookie)[k] == m[k]
  {
    var withFbp := CookieFill(m, "fbp", "_fbp=", cookie);
    assert k in withFbp && withFbp[k] == m[k];
  }

  /** The cookie steps remove no key. */
  lemma CookieFillsKeys(m: map<string, string>, cookie: string)
    ensures forall k :: k in m ==> k in CookieFills(m, cookie)
  {
  }

  /** A non-blank URL parameter is what `initTrackingData` stores under its
      key, whatever was stored before and whatever the cookies hold. */
  lemma UrlBeatsStored(stored: map<string, string>, q: Query, cookie: string, loc: Location, k: string)
    requires k in TrackedFields && NonBlank(Get(q, k)).Some?
    ensures var m := Initialized(stored, q, cookie, loc);
      k in m && m[k] == NonBlank(Get(q, k)).value
  {
    var withUrl := UrlOverlay(stored, TrackedFields, q);
    assert k in withUrl && withUrl[k] == NonBlank(Get(q, k)).value by {
      UrlOverlayFields(stored, TrackedFields, q);
    }
    CookieFillsKeeps(withUrl, cookie, k);
    TrackedNotSettled(k);
    SettleKeeps(CookieFills(withUrl, cookie), ReadGoogleClientId(cookie), PageUrlWithoutParams(loc, Exclude), k);
  }

  /** Without a URL value, a non-empty stored value stays, even for `fbp` and
      `fbc` when a cookie holds another one: the cookie only fills a gap. */
  lemma StoredBeatsCookie(stored: map<string, string>, q: Query, cookie: string, loc: Location, k: string)
    requires k in TrackedFields && NonBlank(Get(q, k)).None? && Get(stored, k).Some?
    ensures var m := Initialized(stored, q, cookie, loc);
      k in m && m[k] == stored[k]
  {
    var withUrl := UrlOverlay(stored, TrackedFields, q);
    assert k in withUrl && withUrl[k] == stored[k] by {
      UrlOverlayFields(stored, TrackedFields, q);
    }
    CookieFillsKeeps(withUrl, cookie, k);
    TrackedNotSettled(k);
    SettleKeeps(CookieFills(withUrl, cookie), ReadGoogleClientId(cookie), PageUrlWithoutParams(loc, Exclude), k);
  }

  /** With neither a URL value nor a stored one, `fbp` and `fbc` are taken
      from their cookies, trimmed. */
  lemma CookieFillsGap(stored: map<string, string>, q: Query, cookie: string, loc: Location, k: string, prefix: string)
    requires (k, prefix) == ("fbp", "_fbp=") || (k, prefix) == ("fbc", "_fbc=")
    requires NonBlank(Get(q, k)).None? && Get(stored, k).None?
    requires Match(Capture(prefix, NotSemicolon), cookie).Some?
    ensures var m := Initialized(stored, q, cookie, loc);
      k in m && m[k] == Trim(Match(Capture(prefix, NotSemicolon), cookie).value)
  {
    var withUrl := UrlOverlay(stored, TrackedFields, q);
    assert Get(withUrl, k).None? by {
      UrlOverlayFields(stored, TrackedFields, q);
    }
    var filled := CookieFills(withUrl, cookie);
    assert k in filled && filled[k] == Trim(Match(Capture(prefix, NotSemicolon), cookie).value);
    SettleKeeps(filled, ReadGoogleClientId(cookie), PageUrlWithoutParams(loc, Exclude), k);
  }

  /** `initTrackingData` removes no key. */
  lemma InitializedKeys(stored: map<string, string>, q: Query, cookie: string, loc: Location)
    ensures forall k :: k in stored ==> k in Initialized(stored, q, cookie, loc)
  {
    var withUrl := UrlOverlay(stored, TrackedFields, q);
    UrlOverlayFields(stored, TrackedFields, q);
    CookieFillsKeys(withUrl, cookie);
    SettleFields(CookieFills(withUrl, cookie), ReadGoogleClientId(cookie), PageUrlWithoutParams(loc, Exclude));
  }

  /** `initTrackingData` always records the page URL without the tracking
      parameters, and records the Google client id when the cookie has one
      and otherwise keeps the stored one. */
  lemma InitializedSettled(stored: map<string, string>, q: Query, cookie: string, loc: Location)
    ensures var m := Initialized(stored, q, cookie, loc);
      "page_url" in m && m["page_url"] == PageUrlWithoutParams(loc, Exclude)
    ensures var m := Initialized(stored, q, cookie, loc);
      ReadGoogleClientId(cookie).Some? ==>
        "google_client_id" in m && m["google_client_id"] == ReadGoogleClientId(cookie).value
    ensures var m := Initialized(stored, q, cookie, loc);
      ReadGoogleClientId(cookie).None? ==>
        && ("google_client_id" in m <==> "google_client_id" in stored)
        && ("google_client_id" in m ==> m["google_client_id"] == stored["google_client_id"])
  {
    var withUrl := UrlOverlay(stored, TrackedFields, q);
    var filled := CookieFills(withUrl, cookie);
    SettleFields(filled, ReadGoogleClientId(cookie), PageUrlWithoutParams(loc, Exclude));
    assert "google_client_id" !in TrackedFields;
    assert "google_client_id" in withUrl <==> "google_client_id" in stored by {
      UrlOverlayFields(stored, TrackedFields, q);
    }
    CookieFillsKeys(withUrl, cookie);
    if "google_client_id" in stored {
      assert withUrl["google_client_id"] == stored["google_client_id"] by {
        UrlOverlayFields(stored, TrackedFields, q);
      }
      CookieFillsKeeps(withUrl, cookie, "google_client_id");
    } else {
      assert "google_client_id" !in filled by {
        CookieFillsOnly(withUrl, cookie, "google_client_id");
      }
    }
  }

  /** The cookie steps add no key other than `fbp` and `fbc`. */
  lemma CookieFillsOnly(m: map<string, string>, cookie: string, k: string)
    requires k !in m && k != "fbp" && k != "fbc"
    ensures k !in CookieFills(m, cookie)
  {
    var withFbp := CookieFill(m, "fbp", "_fbp=", cookie);
    assert k !in withFbp;
  }

  /** The keys outside the snapshot keys are the ones `initTrackingData` never writes. */
  lemma OutsideSnapshot(k: string)
    requires k !in SnapshotKeys
    ensures k !in TrackedFields && k != "google_client_id" && k != "page_url"
  {
  }

  /** `initTrackingData` leaves every key outside the snapshot keys as it was. */
  lemma InitializedOthers(stored: map<string, string>, q: Query, cookie: string, loc: Location, k: string)
    requires k in stored && k !in SnapshotKeys
    ensures var m := Initialized(stored, q, cookie, loc);
      k in m && m[k] == stored[k]
  {
    OutsideSnapshot(k);
    var withUrl := UrlOverlay(stored, TrackedFields, q);
    assert k in withUrl && withUrl[k] == stored[k] by {
      UrlOverlayFields(stored, TrackedFields, q);
    }
    CookieFillsKeeps(withUrl, cookie, k);
    SettleKeeps(CookieFills(withUrl, cookie), ReadGoogleClientId(cookie), PageUrlWithoutParams(loc, Exclude), k);
  }

  /** A record written by `initTrackingData` is what any read within the
      next 30 days hands back to `getFinalData` or to the snapshot. */
  lemma StoredRecordReadBack(items: map<string, Item>, m: map<string, string>, now: int, later: int)
    requires later <= now + TrackerStorage.StorageExpiry
    ensures var w := TrackerStorage.Write(true, items, Fields(m), now, NoFault);
      AsFields(TrackerStorage.Read(true, w.items, later).value) == m
  {
    TrackerStorage.SetThenGet(true, items, Fields(m), now, NoFault, later);
  }

  // ---------- getFinalData ----------

  /** `getPageUrlWithoutParams(exclude) || stored.page_url || location.href`:
      there is always a page URL; the stored one is consulted only when the
      current one is empty, which needs an empty `location.href`. */
  lemma FinalPageUrlCases(stored: map<string, string>, loc: Location)
    ensures FinalPageUrl(stored, loc).Some?
    ensures loc.href != "" ==> FinalPageUrl(stored, loc) == Some(PageUrlWithoutParams(loc, Exclude))
    ensures PageUrlWithoutParams(loc, Exclude) == "" ==>
      FinalPageUrl(stored, loc) == if Get(stored, "page_url").Some? then Get(stored, "page_url") else Some("")
  {
  }

  /** The keys the form record adds to the tracked fields. */
  lemma TrackedNotFinal(k: string)
    requires k in TrackedFields
    ensures k != "google_client_id" && k != "page_url" && k != "form_name"
  {
  }

  /** The record a form receives holds the tracked fields, `google_client_id`,
      `page_url` and `form_name`, and nothing else. */
  lemma FinalRecordKeys(stored: map<string, string>, q: Query, cookie: string, loc: Location)
    ensures var r := FinalRecord(stored, q, cookie, loc);
      forall k :: k in r <==> k in TrackedFields || k == "google_client_id" || k == "page_url" || k == "form_name"
  {
    FieldValuesFields(stored, TrackedFields, q);
  }

  /** A tracked field of the form record is the URL value, else the stored one, else `null`. */
  lemma FinalRecordTracked(stored: map<string, string>, q: Query, cookie: string, loc: Location, k: string)
    requires k in TrackedFields
    ensures var r := FinalRecord(stored, q, cookie, loc);
      k in r && r[k] == FieldValue(stored, k, q)
  {
    var fv := FieldValues(stored, TrackedFields, q);
    assert k in fv && fv[k] == FieldValue(stored, k, q) by {
      FieldValuesFields(stored, TrackedFields, q);
    }
    TrackedNotFinal(k);
  }

  /** In the form record the client id comes from the cookie, else from
      storage; the page URL is always present; `form_name` is `null`. */
  lemma FinalRecordExtras(stored: map<string, string>, q: Query, cookie: string, loc: Location)
    ensures var r := FinalRecord(stored, q, cookie, loc);
      && r["google_client_id"] == (if ReadGoogleClientId(cookie).Some? then ReadGoogleClientId(cookie) else Get(stored, "google_client_id"))
      && r["page_url"] == FinalPageUrl(stored, loc)
      && r["page_url"].Some?
      && r["form_name"] == None
  {
    FinalPageUrlCases(stored, loc);
  }

  /** On the page that initialised the record, the form receives exactly
      what was stored under each snapshot key (an empty string reading as `null`). */
  lemma FinalAgreesWithInit(stored: map<string, string>, q: Query, cookie: string, loc: Location, k: string)
    requires loc.href != "" && k in SnapshotKeys
    ensures var m := Initialized(stored, q, cookie, loc);
      var r := FinalRecord(m, q, cookie, loc);
      k in r && r[k] == Get(m, k)
  {
    var m := Initialized(stored, q, cookie, loc);
    if k in TrackedFields {
      FinalRecordTracked(m, q, cookie, loc, k);
      if NonBlank(Get(q, k)).Some? {
        UrlBeatsStored(stored, q, cookie, loc, k);
      }
    } else {
      FinalRecordExtras(m, q, cookie, loc);
      InitializedSettled(stored, q, cookie, loc);
      if k == "page_url" {
        FinalPageUrlCases(m, loc);
      }
    }
  }

  // ---------- the snapshot ----------

  /** Taking the snapshot of the same form data twice changes nothing the second time. */
  lemma SnapshotIdempotent(stored: map<string, string>, data: Record, keys: seq<string>)
    ensures Snapshot(Snapshot(stored, data, keys), data, keys) == Snapshot(stored, data, keys)
  {
    var once := Snapshot(stored, data, keys);
    SnapshotFields(stored, data, keys);
    SnapshotFields(once, data, keys);
  }

  /** On the page that initialised the record, the snapshot of the form's
      data writes back exactly the record that is stored. */
  lemma SnapshotAfterInit(stored: map<string, string>, q: Query, cookie: string, loc: Location)
    requires loc.href != ""
    ensures var m := Initialized(stored, q, cookie, loc);
      Snapshot(m, FinalRecord(m, q, cookie, loc), SnapshotKeys) == m
  {
    var m := Initialized(stored, q, cookie, loc);
    var data := FinalRecord(m, q, cookie, loc);
    forall k | k in SnapshotKeys
      ensures k in data && data[k] == Get(m, k)
    {
      FinalAgreesWithInit(stored, q, cookie, loc, k);
    }
    SnapshotOfStored(m, data, SnapshotKeys);
  }

  /** A snapshot of form data that holds, under every key, what is already
      stored there changes nothing. */
  lemma SnapshotOfStored(stored: map<string, string>, data: Record, keys: seq<string>)
    requires forall k :: k in keys ==> k in data && data[k] == Get(stored, k)
    ensures Snapshot(stored, data, keys) == stored
  {
    SnapshotFields(stored, data, keys);
  }
}
