/** The `TrackingManager` of the form-interception script: the attribution
    record kept in `localStorage`, merged on every page load from the
    tracking parameters of the URL and the Pinterest click id, and
    overlaid with the current URL when a form is sent. */
module WebhookTracking {
  import opened Common
  import opened BrowserStorage
  import opened WebhookUtils
  import opened WebhookClientIds
  import WebhookStorage

  const UtmParams: seq<string> := ["utm_source", "utm_medium", "utm_campaign", "utm_content", "utm_term"]
  const ClickIdParams: seq<string> := [
    "gclid", "fbclid", "ttclid", "yclid",
    "msclkid", "twclid", "li_fat_id", "awclid",
    "rdt_cid", "irclickid", "dclid", "wbraid", "gbraid"]
  const FacebookParams: seq<string> := ["fbp", "fbc"]
  const OtherParams: seq<string> := ["epik", "pin_id", "mc_cid", "mc_eid"]
  /** The list `init` builds: all 24 tracked parameters. */
  const AllParams: seq<string> := UtmParams + ClickIdParams + FacebookParams + OtherParams

  const FirstVisitTimestamp: string := "first_visit_timestamp"
  const FirstVisitPage: string := "first_visit_page"
  const FirstVisitReferrer: string := "first_visit_referrer"
  const LastVisitTimestamp: string := "last_visit_timestamp"
  const LastVisitPage: string := "last_visit_page"
  const LastVisitReferrer: string := "last_visit_referrer"

  predicate IsFirstVisitKey(k: string)
  {
    k == FirstVisitTimestamp || k == FirstVisitPage || k == FirstVisitReferrer
  }

  predicate IsVisitKey(k: string)
  {
    IsFirstVisitKey(k) || k == LastVisitTimestamp || k == LastVisitPage || k == LastVisitReferrer
  }

  /** The value a parameter takes from the URL: sanitised after trimming. */
  function Cleaned(v: string): string
  {
    SanitizeValue(Str(v), MaxValueLength)
  }

  /** The parameters among `params` with a non-blank URL value, each mapped to
      its trimmed, sanitised value (the `forEach` over `allParams`). */
  function UrlCaptures(params: seq<string>, q: Query): (m: map<string, string>)
    ensures forall k :: k in m <==> k in params && NonBlank(Get(q, k)).Some?
    ensures forall k :: k in m ==> m[k] == Cleaned(NonBlank(Get(q, k)).value)
    decreases |params|
  {
    if |params| == 0 then map[]
    else
      var init := params[..|params| - 1];
      var p := params[|params| - 1];
      assert params == init + [p];
      var before := UrlCaptures(init, q);
      match NonBlank(Get(q, p))
      case Some(v) => before[p := Cleaned(v)]
      case None => before
  }

  /** One more parameter of the `forEach`. */
  lemma UrlCapturesStep(params: seq<string>, i: nat, q: Query)
    requires i < |params|
    ensures UrlCaptures(params[..i + 1], q) ==
      match NonBlank(Get(q, params[i]))
      case Some(v) => UrlCaptures(params[..i], q)[params[i] := Cleaned(v)]
      case None => UrlCaptures(params[..i], q)
  {
    assert params[..i + 1][..i] == params[..i];
  }

  /** Overwriting one key of a union overwrites it in the right operand. */
  lemma UnionUpdate(a: map<string, string>, b: map<string, string>, k: string, v: string)
    ensures (a + b)[k := v] == a + b[k := v]
  {
  }

  /** `newParams` of `processCurrentPageParams`: the URL captures, with `epik`
      taken from `ClientIds.pinterest()` when the captures give no truthy `epik`. */
  function NewParams(params: seq<string>, q: Query, cookie: string): map<string, string>
  {
    var url := UrlCaptures(params, q);
    if Get(url, "epik").None? then
      match Pinterest(q, cookie)
      case Some(id) => url["epik" := Cleaned(id)]
      case None => url
    else url
  }

  /** The new parameters are the non-blank URL values, and `epik` exactly
      when `ClientIds.pinterest()` finds one, with its value. */
  lemma NewParamsFields(params: seq<string>, q: Query, cookie: string)
    ensures var m := NewParams(params, q, cookie);
      && (forall k :: k != "epik" ==> (k in m <==> k in params && NonBlank(Get(q, k)).Some?))
      && (forall k :: k != "epik" && k in m ==> m[k] == Cleaned(NonBlank(Get(q, k)).value))
      && ("epik" in m <==> Pinterest(q, cookie).Some?)
      && ("epik" in m ==> m["epik"] == Cleaned(Pinterest(q, cookie).value))
  {
  }

  /** `savedData` after `Object.assign` with non-empty new parameters and the visit fields. */
  function Merged(saved: map<string, string>, incoming: map<string, string>,
                  nowIso: string, pageUrl: string, referrer: string): map<string, string>
  {
    var combined := saved + incoming;
    var first :=
      if Get(combined, FirstVisitTimestamp).None? then
        combined[FirstVisitTimestamp := nowIso][FirstVisitPage := pageUrl][FirstVisitReferrer := referrer]
      else combined;
    first[LastVisitTimestamp := nowIso][LastVisitPage := pageUrl][LastVisitReferrer := referrer]
  }

  /** Merging keeps every other field, takes the new parameters, rewrites the
      last-visit fields and writes the first-visit fields only when no
      first-visit time is recorded. */
  lemma MergedFields(saved: map<string, string>, incoming: map<string, string>,
                     nowIso: string, pageUrl: string, referrer: string)
    ensures var m := Merged(saved, incoming, nowIso, pageUrl, referrer);
      && (forall k :: !IsVisitKey(k) ==> (k in m <==> k in saved || k in incoming))
      && (forall k :: !IsVisitKey(k) && k in incoming ==> m[k] == incoming[k])
      && (forall k :: !IsVisitKey(k) && k !in incoming && k in saved ==> m[k] == saved[k])
    ensures var m := Merged(saved, incoming, nowIso, pageUrl, referrer);
      && LastVisitTimestamp in m && m[LastVisitTimestamp] == nowIso
      && LastVisitPage in m && m[LastVisitPage] == pageUrl
      && LastVisitReferrer in m && m[LastVisitReferrer] == referrer
    ensures var m := Merged(saved, incoming, nowIso, pageUrl, referrer);
      Get(saved + incoming, FirstVisitTimestamp).None? ==>
      && FirstVisitTimestamp in m && m[FirstVisitTimestamp] == nowIso
      && FirstVisitPage in m && m[FirstVisitPage] == pageUrl
      && FirstVisitReferrer in m && m[FirstVisitReferrer] == referrer
    ensures var m := Merged(saved, incoming, nowIso, pageUrl, referrer);
      Get(saved + incoming, FirstVisitTimestamp).Some? ==>
      forall k :: IsFirstVisitKey(k) ==> (k in m <==> k in saved + incoming) && (k in m ==> m[k] == (saved + incoming)[k])
  {
  }

  /** `savedData` after `processCurrentPageParams`: unchanged when there is nothing new. */
  function Captured(saved: map<string, string>, incoming: map<string, string>,
                    nowIso: string, pageUrl: string, referrer: string): map<string, string>
  {
    if incoming == map[] then saved else Merged(saved, incoming, nowIso, pageUrl, referrer)
  }

  /** The store after `processCurrentPageParams`: written only when there is something new. */
  function Persisted(supported: bool, items: map<string, Item>, incoming: map<string, string>,
                     saved: map<string, string>, now: int, serializedLength: nat, fault: WriteFault): map<string, Item>
  {
    if incoming == map[] then items
    else WebhookStorage.Write(supported, items, WebhookStorage.DataKey,
                              WebhookStorage.Stamp(Fields(saved), now, None), serializedLength, fault).items
  }

  /** What `getFinalData` returns: a copy of the saved record, overlaid with
      the non-blank URL values and then with `ClientIds.pinterest()`. */
  function FinalData(saved: map<string, string>, params: seq<string>, q: Query, cookie: string): (m: map<string, string>)
    ensures forall k :: k != "epik" && k in params && NonBlank(Get(q, k)).Some? ==>
      k in m && m[k] == Cleaned(NonBlank(Get(q, k)).value)
    ensures forall k :: k != "epik" && !(k in params && NonBlank(Get(q, k)).Some?) ==>
      (k in m <==> k in saved) && (k in saved ==> m[k] == saved[k])
    ensures Pinterest(q, cookie).Some? ==> "epik" in m && m["epik"] == Cleaned(Pinterest(q, cookie).value)
    ensures Pinterest(q, cookie).None? ==> ("epik" in m <==> "epik" in saved) && ("epik" in saved ==> m["epik"] == saved["epik"])
  {
    var withUrl := saved + UrlCaptures(params, q);
    match Pinterest(q, cookie)
    case Some(id) => withUrl["epik" := Cleaned(id)]
    case None => withUrl
  }

  /** The entries of `data` under `keys` whose value is truthy (`getUtmData`, `getClickIdData`). */
  function Pick(data: map<string, string>, keys: seq<string>): (r: map<string, string>)
    ensures forall k :: k in r <==> k in keys && Get(data, k).Some?
    ensures forall k :: k in r ==> k in data && r[k] == data[k]
    decreases |keys|
  {
    if |keys| == 0 then map[]
    else
      var init := keys[..|keys| - 1];
      var k := keys[|keys| - 1];
      assert keys == init + [k];
      if Get(data, k).Some? then Pick(data, init)[k := data[k]] else Pick(data, init)
  }

  class TrackingManager {
    var allParams: seq<string>
    var savedData: map<string, string>

    /** The object literal before `init`. */
    constructor ()
      ensures allParams == [] && savedData == map[]
    {
      allParams := [];
      savedData := map[];
    }

    /** `init()` at time `now`: the parameter list, the saved record
        (`Storage.get(STORAGE_KEY) || {}`) and the current page's parameters. */
    method Init(ls: LocalStore, q: Query, cookie: string, nowIso: string, pageUrl: string,
                referrer: string, now: int, serializedLength: nat, fault: WriteFault)
      modifies this, ls
      ensures allParams == AllParams && ls.supported == old(ls.supported)
      ensures var read := WebhookStorage.Read(old(ls.supported), old(ls.items), WebhookStorage.DataKey, now);
        var incoming := NewParams(AllParams, q, cookie);
        && savedData == Captured(AsFields(read.value), incoming, nowIso, pageUrl, referrer)
        && ls.items == Persisted(ls.supported, read.items, incoming, savedData, now, serializedLength, fault)
    {
      allParams := AllParams;
      var stored := WebhookStorage.Get(ls, WebhookStorage.DataKey, now);
      savedData := AsFields(stored);
      ProcessCurrentPageParams(ls, q, cookie, nowIso, pageUrl, referrer, now, serializedLength, fault);
    }

    /** `processCurrentPageParams()`: `q` is what `getUrlParams` sees, `nowIso`
        the ISO time, `pageUrl` what `getFullCleanUrl(allParams)` returns and
        `referrer` is `document.referrer || ''`. */
    method ProcessCurrentPageParams(ls: LocalStore, q: Query, cookie: string, nowIso: string,
                                    pageUrl: string, referrer: string, now: int,
                                    serializedLength: nat, fault: WriteFault)
      modifies this, ls
      ensures allParams == old(allParams) && ls.supported == old(ls.supported)
      ensures var incoming := NewParams(allParams, q, cookie);
        && savedData == Captured(old(savedData), incoming, nowIso, pageUrl, referrer)
        && ls.items == Persisted(ls.supported, old(ls.items), incoming, savedData, now, serializedLength, fault)
    {
      var newParams, hasNewParams := CollectNewParams(allParams, q, cookie);
      if hasNewParams {
        MergeVisit(newParams, nowIso, pageUrl, referrer);
        var saved := WebhookStorage.Set(ls, WebhookStorage.DataKey, Fields(savedData), None, now, serializedLength, fault);
      }
    }

    /** The `if (hasNewParams)` block's writes to `savedData`: `Object.assign`,
        then the first-visit fields when no first-visit time is recorded, then
        the last-visit fields. */
    method MergeVisit(newParams: map<string, string>, nowIso: string, pageUrl: string, referrer: string)
      modifies this
      ensures allParams == old(allParams)
      ensures savedData == Merged(old(savedData), newParams, nowIso, pageUrl, referrer)
    {
      var data := savedData + newParams;
      if Get(data, FirstVisitTimestamp).None? {
        data := data[FirstVisitTimestamp := nowIso][FirstVisitPage := pageUrl][FirstVisitReferrer := referrer];
      }
      data := data[LastVisitTimestamp := nowIso][LastVisitPage := pageUrl][LastVisitReferrer := referrer];
      savedData := data;
    }

    /** `getFinalData()`; it changes nothing. */
    method GetFinalData(q: Query, cookie: string) returns (finalData: map<string, string>)
      ensures finalData == FinalData(savedData, allParams, q, cookie)
    {
      var params := allParams;
      finalData := savedData;
      var i := 0;
      while i < |params|
        invariant 0 <= i <= |params|
        invariant finalData == savedData + UrlCaptures(params[..i], q)
      {
        UrlCapturesStep(params, i, q);
        ghost var before := UrlCaptures(params[..i], q);
        ghost var after := UrlCaptures(params[..i + 1], q);
        var urlValue := NonBlank(Get(q, params[i]));
        if urlValue.Some? {
          assert after == before[params[i] := Cleaned(urlValue.value)];
          UnionUpdate(savedData, before, params[i], Cleaned(urlValue.value));
          finalData := finalData[params[i] := Cleaned(urlValue.value)];
          assert finalData == savedData + after;
        } else {
          assert after == before;
        }
        i := i + 1;
      }
      assert params[..i] == params;
      var pinterestId := Pinterest(q, cookie);
      if pinterestId.Some? {
        finalData := finalData["epik" := Cleaned(pinterestId.value)];
      }
    }

    /** `getUtmData()`. */
    method GetUtmData(q: Query, cookie: string) returns (utmData: map<string, string>)
      ensures utmData == Pick(FinalData(savedData, allParams, q, cookie), UtmParams)
    {
      var finalData := GetFinalData(q, cookie);
      utmData := Select(finalData, UtmParams);
    }

    /** `getClickIdData()`. */
    method GetClickIdData(q: Query, cookie: string) returns (clickIdData: map<string, string>)
      ensures clickIdData == Pick(FinalData(savedData, allParams, q, cookie), ClickIdParams)
    {
      var finalData := GetFinalData(q, cookie);
      clickIdData := Select(finalData, ClickIdParams);
    }
  }

  /** The first half of `processCurrentPageParams`: the `forEach` over the
      tracked parameters, then the Pinterest fallback for `epik`; and whether
      anything was found. */
  method CollectNewParams(params: seq<string>, q: Query, cookie: string)
    returns (newParams: map<string, string>, hasNewParams: bool)
    ensures newParams == NewParams(params, q, cookie)
    ensures hasNewParams <==> newParams != map[]
  {
    newParams := map[];
    hasNewParams := false;
    var i := 0;
    while i < |params|
      invariant 0 <= i <= |params|
      invariant newParams == UrlCaptures(params[..i], q)
      invariant hasNewParams <==> newParams != map[]
    {
      UrlCapturesStep(params, i, q);
      var value := NonBlank(Get(q, params[i]));
      if value.Some? {
        newParams := newParams[params[i] := Cleaned(value.value)];
        hasNewParams := true;
      }
      i := i + 1;
    }
    assert params[..i] == params;
    if Get(newParams, "epik").None? {
      var pinterestId := Pinterest(q, cookie);
      if pinterestId.Some? {
        newParams := newParams["epik" := Cleaned(pinterestId.value)];
        hasNewParams := true;
      }
    }
  }

  /** The `forEach` of `getUtmData` and `getClickIdData`. */
  method Select(data: map<string, string>, keys: seq<string>) returns (picked: map<string, string>)
    ensures picked == Pick(data, keys)
  {
    picked := map[];
    var i := 0;
    while i < |keys|
      invariant 0 <= i <= |keys|
      invariant picked == Pick(data, keys[..i])
    {
      assert keys[..i + 1][..i] == keys[..i];
      if Get(data, keys[i]).Some? {
        picked := picked[keys[i] := data[keys[i]]];
      }
      i := i + 1;
    }
    assert keys[..i] == keys;
  }

  /** No tracked parameter is one of the visit fields. */
  lemma AllParamsAreNotVisitKeys()
    ensures forall k :: k in AllParams ==> !IsVisitKey(k)
  {
  }

  /** The new parameters of a page are what `getFinalData` adds over an empty record. */
  lemma NewParamsAreFinalOverEmpty(params: seq<string>, q: Query, cookie: string)
    ensures NewParams(params, q, cookie) == FinalData(map[], params, q, cookie)
  {
    var n := NewParams(params, q, cookie);
    var f := FinalData(map[], params, q, cookie);
    forall k ensures (k in n <==> k in f) && (k in n ==> n[k] == f[k]) {
      NewParamsFinalAt(params, q, cookie, k);
    }
  }

  lemma NewParamsFinalAt(params: seq<string>, q: Query, cookie: string, k: string)
    ensures var n := NewParams(params, q, cookie);
      var f := FinalData(map[], params, q, cookie);
      (k in n <==> k in f) && (k in n ==> n[k] == f[k])
  {
    NewParamsFields(params, q, cookie);
  }

  /** With no non-blank URL value and no Pinterest id nothing is new, so
      `processCurrentPageParams` leaves the record and the store alone. */
  lemma NothingNewChangesNothing(params: seq<string>, q: Query, cookie: string)
    requires forall k :: k in params ==> NonBlank(Get(q, k)).None?
    requires Pinterest(q, cookie).None?
    ensures NewParams(params, q, cookie) == map[]
  {
    NewParamsFields(params, q, cookie);
  }

  /** Stored fields are never removed, and every field other than the new
      parameters and the visit fields keeps its value. */
  lemma CapturedKeepsStored(saved: map<string, string>, incoming: map<string, string>,
                            nowIso: string, pageUrl: string, referrer: string)
    ensures var c := Captured(saved, incoming, nowIso, pageUrl, referrer);
      && (forall k :: k in saved ==> k in c)
      && (forall k :: k in saved && k !in incoming && !IsVisitKey(k) ==> c[k] == saved[k])
  {
    MergedFields(saved, incoming, nowIso, pageUrl, referrer);
  }

  /** Over two page loads with new parameters the first-visit time is the one
      of the first load that had any, and the last-visit fields are the latest. */
  lemma {:induction false} FirstVisitSetOnce(saved: map<string, string>,
                                             n1: map<string, string>, t1: string, p1: string, r1: string,
                                             n2: map<string, string>, t2: string, p2: string, r2: string)
    requires Get(saved, FirstVisitTimestamp).None?
    requires n1 != map[] && t1 != ""
    requires forall k :: k in n1 ==> !IsVisitKey(k)
    requires forall k :: k in n2 ==> !IsVisitKey(k)
    ensures var c1 := Captured(saved, n1, t1, p1, r1);
      var c2 := Captured(c1, n2, t2, p2, r2);
      && FirstVisitTimestamp in c2 && c2[FirstVisitTimestamp] == t1
      && FirstVisitPage in c2 && c2[FirstVisitPage] == p1
      && FirstVisitReferrer in c2 && c2[FirstVisitReferrer] == r1
      && LastVisitTimestamp in c2 && c2[LastVisitTimestamp] == (if n2 == map[] then t1 else t2)
  {
    var c1 := Captured(saved, n1, t1, p1, r1);
    assert FirstVisitTimestamp !in n1;
    assert Get(saved + n1, FirstVisitTimestamp).None?;
    MergedFields(saved, n1, t1, p1, r1);
    if n2 != map[] {
      assert FirstVisitTimestamp !in n2;
      assert Get(c1 + n2, FirstVisitTimestamp).Some?;
      MergedFields(c1, n2, t2, p2, r2);
      assert IsFirstVisitKey(FirstVisitPage) && IsFirstVisitKey(FirstVisitReferrer);
    }
  }

  /** One field of `FinalDataAfterCapture`. */
  lemma FinalDataAfterCaptureAt(saved: map<string, string>, params: seq<string>, q: Query, cookie: string,
                                nowIso: string, pageUrl: string, referrer: string, k: string)
    requires forall k :: k in params ==> !IsVisitKey(k)
    ensures var c := Captured(saved, NewParams(params, q, cookie), nowIso, pageUrl, referrer);
      var f := FinalData(c, params, q, cookie);
      (k in f <==> k in c) && (k in f ==> f[k] == c[k])
  {
    var n := NewParams(params, q, cookie);
    NewParamsFields(params, q, cookie);
    var c := Captured(saved, n, nowIso, pageUrl, referrer);
    if k == "epik" {
      if n != map[] {
        MergedFields(saved, n, nowIso, pageUrl, referrer);
      }
    } else if k in params && NonBlank(Get(q, k)).Some? {
      assert k in n && !IsVisitKey(k);
      MergedFields(saved, n, nowIso, pageUrl, referrer);
    }
  }

  /** Right after `processCurrentPageParams`, `getFinalData` on the same page
      returns the saved record unchanged. */
  lemma FinalDataAfterCapture(saved: map<string, string>, params: seq<string>, q: Query, cookie: string,
                              nowIso: string, pageUrl: string, referrer: string)
    requires forall k :: k in params ==> !IsVisitKey(k)
    ensures var c := Captured(saved, NewParams(params, q, cookie), nowIso, pageUrl, referrer);
      FinalData(c, params, q, cookie) == c
  {
    var c := Captured(saved, NewParams(params, q, cookie), nowIso, pageUrl, referrer);
    var f := FinalData(c, params, q, cookie);
    forall k ensures (k in f <==> k in c) && (k in f ==> f[k] == c[k]) {
      FinalDataAfterCaptureAt(saved, params, q, cookie, nowIso, pageUrl, referrer, k);
    }
  }

  /** Cleaning leaves nothing exactly when the first `MaxValueLength`
      characters are all control characters. */
  lemma CleanedEmpty(t: string)
    ensures Cleaned(t) == "" <==> AllControls(Prefix(t, MaxValueLength))
  {
    StripAllControls(Prefix(t, MaxValueLength));
  }

  /** A non-blank URL value is captured, and it is captured as the empty
      string exactly when its trimmed text, cut to `MaxValueLength`
      characters, is made only of control characters (`\x01` alone, or
      `" \x01 "`). That empty string then replaces the stored field. */
  lemma ControlCharactersBlankAField(params: seq<string>, q: Query, cookie: string, k: string)
    requires k != "epik" && k in params
    requires k in q && !AllSpaces(q[k])
    ensures var n := NewParams(params, q, cookie);
      k in n && (n[k] == "" <==> AllControls(Prefix(Trim(q[k]), MaxValueLength)))
  {
    var v := q[k];
    NewParamsFields(params, q, cookie);
    assert Get(q, k) == Some(v) && Trim(v) != "";
    CleanedEmpty(Trim(v));
  }

  /** A URL value made only of white space (tab, line feed and the other
      control characters that are white space among them) fails the
      non-blank test and is not captured. */
  lemma WhiteSpaceNotCaptured(params: seq<string>, q: Query, cookie: string, k: string)
    requires k != "epik"
    requires k in q && AllSpaces(q[k])
    ensures k !in NewParams(params, q, cookie)
  {
    NewParamsFields(params, q, cookie);
    assert Get(q, k).Some? ==> Trim(Get(q, k).value) == "";
  }
}

