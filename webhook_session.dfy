/** The `SessionManager` of the form-interception script: a browsing session
    kept in `localStorage` under its own key, continued on every page load
    within 30 minutes of the last activity and replaced otherwise. */
module WebhookSession {
  import opened Common
  import opened BrowserStorage
  import opened WebhookStorage

  /** 30 minutes in milliseconds. */
  const SessionTimeout: int := 30 * 60 * 1000
  const MaxPagesTracked: nat := 100

  /** `isValidSession`: a session record with a truthy start time, an array
      of pages and a non-empty id. */
  predicate IsValidSession(d: Option<Data>)
  {
    && d.Some? && d.value.Session?
    && d.value.session.startTime != 0
    && d.value.session.pagesViewed.Some?
    && d.value.session.id != ""
  }

  predicate Valid(s: SessionData)
  {
    IsValidSession(Some(Session(s)))
  }

  /** The stored session `init` continues at time `now`: a valid record whose
      last activity, when set, is at most `SessionTimeout` ago. */
  function Continuing(d: Option<Data>, now: int): (r: Option<SessionData>)
    ensures r.Some? <==> IsValidSession(d) && !(d.value.session.lastActivity != 0 && now - d.value.session.lastActivity > SessionTimeout)
    ensures r.Some? ==> d == Some(Session(r.value)) && Valid(r.value)
  {
    if !IsValidSession(d) then None
    else
      var s := d.value.session;
      if s.lastActivity != 0 && now - s.lastActivity > SessionTimeout then None else Some(s)
  }

  predicate NoDuplicates(pages: seq<string>)
  {
    forall i, j :: 0 <= i < j < |pages| ==> pages[i] != pages[j]
  }

  /** The page list after visiting `url`: unchanged when already listed,
      otherwise `url` is appended and only the last `MaxPagesTracked` entries kept. */
  function VisitPage(pages: seq<string>, url: string): (r: seq<string>)
    ensures url in r
    ensures url in pages ==> r == pages
    ensures url !in pages ==>
      && |r| == (if |pages| + 1 > MaxPagesTracked then MaxPagesTracked else |pages| + 1)
      && r == (pages + [url])[|pages| + 1 - |r|..]
  {
    if url in pages then pages
    else
      var grown := pages + [url];
      if |grown| > MaxPagesTracked then
        var kept := grown[|grown| - MaxPagesTracked..];
        assert kept[|kept| - 1] == url;
        kept
      else grown
  }

  /** The session `init` saves: a fresh one when nothing is continued,
      otherwise the continued one with the page visited and the activity time moved. */
  function NextSession(prev: Option<SessionData>, url: string, now: int, newId: string): (s: SessionData)
    requires prev.Some? ==> Valid(prev.value)
    ensures s.lastActivity == now
    ensures s.isNewSession <==> prev.None?
    ensures s.pagesViewed.Some? && url in s.pagesViewed.value
    ensures prev.None? ==> s.id == newId && s.startTime == now && s.pagesViewed == Some([url])
    ensures prev.Some? ==> s.id == prev.value.id && s.startTime == prev.value.startTime
  {
    match prev
    case None => SessionData(newId, now, Some([url]), now, true)
    case Some(p) => SessionData(p.id, p.startTime, Some(VisitPage(p.pagesViewed.value, url)), now, false)
  }

  /** `SessionManager.init()` at time `now` on the page `url`; `newId` is what
      `generateSessionId` would return. The result of the write is ignored. */
  method Init(ls: LocalStore, url: string, now: int, newId: string,
              serializedLength: nat, fault: WriteFault) returns (s: SessionData)
    modifies ls
    ensures ls.supported == old(ls.supported)
    ensures var read := Read(old(ls.supported), old(ls.items), SessionKey, now);
      && s == NextSession(Continuing(read.value, now), url, now, newId)
      && ls.items == Write(old(ls.supported), read.items, SessionKey,
                           Stamp(Session(s), now, Some(now + SessionTimeout)), serializedLength, fault).items
  {
    var stored := WebhookStorage.Get(ls, SessionKey, now);
    var prev := Continuing(stored, now);
    s := NextSession(prev, url, now, newId);
    var saved := Set(ls, SessionKey, Session(s), Some(now + SessionTimeout), now, serializedLength, fault);
  }

  /** `Math.round(ms / 1000)`: the nearest whole second, halves rounded up. */
  function RoundedSeconds(ms: int): (sec: int)
    ensures 1000 * sec - 500 <= ms < 1000 * sec + 500
  {
    (ms + 500) / 1000
  }

  /** What `getMetrics` reports; `lastActivity` is the time behind the ISO string. */
  datatype Metrics = Metrics(sessionId: string, pagesViewed: nat, duration: int,
                             isNewSession: bool, lastActivity: Option<int>)

  function MetricsOf(d: Option<Data>, now: int): (m: Metrics)
    ensures m.duration >= 0
    ensures !IsValidSession(d) ==> m == Metrics("unknown", 1, 0, true, None)
    ensures IsValidSession(d) ==>
      var s := d.value.session;
      && m.sessionId == s.id && m.pagesViewed == |s.pagesViewed.value|
      && m.isNewSession == s.isNewSession && m.lastActivity == Some(s.lastActivity)
  {
    if !IsValidSession(d) then Metrics("unknown", 1, 0, true, None)
    else
      var s := d.value.session;
      var sec := RoundedSeconds(now - s.startTime);
      Metrics(s.id, |s.pagesViewed.value|, if sec < 0 then 0 else sec, s.isNewSession, Some(s.lastActivity))
  }

  /** `SessionManager.getMetrics()` at time `now`. Reading may delete a stale entry. */
  method GetMetrics(ls: LocalStore, now: int) returns (m: Metrics)
    modifies ls
    ensures ls.supported == old(ls.supported)
    ensures var read := Read(old(ls.supported), old(ls.items), SessionKey, now);
      m == MetricsOf(read.value, now) && ls.items == read.items
  {
    var stored := WebhookStorage.Get(ls, SessionKey, now);
    m := MetricsOf(stored, now);
  }

  /** The reported duration is the elapsed time rounded to the nearest second. */
  lemma DurationRounds(d: Option<Data>, now: int)
    requires IsValidSession(d) && now >= d.value.session.startTime
    ensures var elapsed := now - d.value.session.startTime;
      1000 * MetricsOf(d, now).duration - 500 <= elapsed < 1000 * MetricsOf(d, now).duration + 500
  {
  }

  /** A session `init` builds is valid when the id is non-empty and the clock is not at the epoch. */
  lemma NextSessionValid(prev: Option<SessionData>, url: string, now: int, newId: string)
    requires prev.Some? ==> Valid(prev.value)
    requires prev.None? ==> newId != "" && now != 0
    ensures Valid(NextSession(prev, url, now, newId))
  {
  }

  /** Visiting keeps the page list within `MaxPagesTracked` entries. */
  lemma VisitBounded(pages: seq<string>, url: string)
    requires |pages| <= MaxPagesTracked
    ensures |VisitPage(pages, url)| <= MaxPagesTracked
  {
  }

  /** Visiting keeps the page list free of duplicates. */
  lemma VisitNoDuplicates(pages: seq<string>, url: string)
    requires NoDuplicates(pages)
    ensures NoDuplicates(VisitPage(pages, url))
  {
    if url !in pages {
      var r := VisitPage(pages, url);
      var grown := pages + [url];
      AppendNoDuplicates(pages, url);
      SuffixNoDuplicates(grown, |grown| - |r|);
      assert r == grown[|grown| - |r|..];
    }
  }

  /** Appending a page not yet listed keeps the list free of duplicates. */
  lemma AppendNoDuplicates(pages: seq<string>, url: string)
    requires NoDuplicates(pages) && url !in pages
    ensures NoDuplicates(pages + [url])
  {
    var grown := pages + [url];
    forall i, j | 0 <= i < j < |grown| ensures grown[i] != grown[j] {
      if j == |pages| {
        assert grown[i] == pages[i];
      }
    }
  }

  /** A suffix of a list without duplicates has none. */
  lemma SuffixNoDuplicates(pages: seq<string>, k: nat)
    requires NoDuplicates(pages) && k <= |pages|
    ensures NoDuplicates(pages[k..])
  {
    var r := pages[k..];
    forall i, j | 0 <= i < j < |r| ensures r[i] != r[j] {
      assert r[i] == pages[k + i] && r[j] == pages[k + j];
    }
  }

  /** Visiting the same page twice is visiting it once. */
  lemma VisitIdempotent(pages: seq<string>, url: string)
    ensures VisitPage(VisitPage(pages, url), url) == VisitPage(pages, url)
  {
  }

  /** The session an `init` saved is continued by an `init` up to
      `SessionTimeout` later: same id and start, no longer new. */
  lemma SessionContinues(items: map<string, Item>, s: SessionData, now: int,
                         serializedLength: nat, fault: WriteFault,
                         later: int, url: string, otherId: string)
    requires Valid(s) && s.lastActivity == now && now > 0
    requires Write(true, items, SessionKey, Stamp(Session(s), now, Some(now + SessionTimeout)), serializedLength, fault).ok
    requires now <= later <= now + SessionTimeout
    ensures var w := Write(true, items, SessionKey, Stamp(Session(s), now, Some(now + SessionTimeout)), serializedLength, fault);
      var next := NextSession(Continuing(Read(true, w.items, SessionKey, later).value, later), url, later, otherId);
      && next.id == s.id && next.startTime == s.startTime && !next.isNewSession
  {
    SetThenGet(true, items, SessionKey, Session(s), Some(now + SessionTimeout), now, serializedLength, fault, later);
  }

  /** After `SessionTimeout` without activity the stored session has expired
      and the next `init` starts a new one. */
  lemma SessionTimesOut(items: map<string, Item>, s: SessionData, now: int,
                        serializedLength: nat, fault: WriteFault,
                        later: int, url: string, newId: string)
    requires now > 0
    requires Write(true, items, SessionKey, Stamp(Session(s), now, Some(now + SessionTimeout)), serializedLength, fault).ok
    requires later > now + SessionTimeout
    ensures var w := Write(true, items, SessionKey, Stamp(Session(s), now, Some(now + SessionTimeout)), serializedLength, fault);
      var next := NextSession(Continuing(Read(true, w.items, SessionKey, later).value, later), url, later, newId);
      && next.id == newId && next.startTime == later && next.isNewSession && next.pagesViewed == Some([url])
  {
    GetAfterExpiry(true, items, SessionKey, Session(s), Some(now + SessionTimeout), now, serializedLength, fault, later);
  }
}
