/** The tab previews of hooks/useTabScreenshots.ts: the five-minute cache of
    captured images, the order of checks before a capture, and the pass over
    the tab list that fills the screenshot and loading records. The clock,
    the browser's answers and the current window are parameters. */
module TabScreenshots {
  import opened Wrappers
  import opened Text

  // ---------------------------------------------------------------------------
  // The cache
  // ---------------------------------------------------------------------------

  datatype Entry = Entry(dataUrl: string, timestamp: int)

  type Cache = map<string, Entry>

  /** `CACHE_EXPIRY_MS`: five minutes. */
  const CacheExpiryMs: int := 5 * 60 * 1000

  /** `tab_<id>`. */
  function CacheKey(tabId: int): (key: string)
    ensures |key| >= 4 && key[..4] == "tab_"
  {
    "tab_" + IntToString(tabId)
  }

  /** Different tabs never share a cache entry. */
  lemma CacheKeyInjective(a: int, b: int)
    requires CacheKey(a) == CacheKey(b)
    ensures a == b
  {
    assert CacheKey(a)[4..] == IntToString(a);
    assert CacheKey(b)[4..] == IntToString(b);
    IntToStringParses(a);
    IntToStringParses(b);
  }

  function Lookup(cache: Cache, key: string): (r: Option<Entry>)
    ensures r.Some? <==> key in cache
    ensures r.Some? ==> r.value == cache[key]
  {
    if key in cache then Some(cache[key]) else None
  }

  /** `isCacheValid`: an entry younger than five minutes. */
  predicate IsCacheValid(cached: Option<Entry>, now: int) {
    cached.Some? && now - cached.value.timestamp < CacheExpiryMs
  }

  /** An entry stays valid for 299999 ms after it was taken and is stale
      from the 300000th on. */
  lemma Expiry(e: Entry)
    ensures IsCacheValid(Some(e), e.timestamp)
    ensures IsCacheValid(Some(e), e.timestamp + 299999)
    ensures !IsCacheValid(Some(e), e.timestamp + 300000)
  {
  }

  // ---------------------------------------------------------------------------
  // One capture
  // ---------------------------------------------------------------------------

  /** The pages that are never captured: browser and extension pages, blank
      pages, and the tab manager itself. An empty url is not one. */
  predicate SpecialPage(url: Option<string>) {
    url.Some?
    && (StartsWith(url.value, "chrome://") || StartsWith(url.value, "chrome-extension://")
        || StartsWith(url.value, "about:") || Contains(url.value, "/tabs/tabmanager.html"))
  }

  /** The browser's answers for one tab: the url `tabs.get` reports (none if
      it throws) and the image `captureVisibleTab` returns (none if it
      throws). */
  datatype Probe = Probe(tabUrl: Option<Option<string>>, capture: Option<string>)

  /** How `captureScreenshot` ends. */
  datatype Outcome =
    | NoTabsApi
    | FromCache(dataUrl: string)
    | NotActive
    | TabGone
    | OnSpecialPage
    | CaptureFailed
    | Captured(dataUrl: string)

  /** The checks of `captureScreenshot`, in their order. `cache` is the cache
      the call sees. */
  function Decide(hasTabs: bool, cache: Cache, tabId: int, isActive: bool, now: int, probe: Probe): (o: Outcome)
    ensures !hasTabs ==> o == NoTabsApi
    ensures hasTabs && IsCacheValid(Lookup(cache, CacheKey(tabId)), now) ==>
              o == FromCache(cache[CacheKey(tabId)].dataUrl)
    ensures (hasTabs && !IsCacheValid(Lookup(cache, CacheKey(tabId)), now) && !isActive) ==> o == NotActive
    ensures o.Captured? <==>
              hasTabs && !IsCacheValid(Lookup(cache, CacheKey(tabId)), now) && isActive
              && probe.tabUrl.Some? && !SpecialPage(probe.tabUrl.value) && probe.capture.Some?
    ensures o.Captured? ==> o.dataUrl == probe.capture.value
  {
    if !hasTabs then NoTabsApi
    else
      var cached := Lookup(cache, CacheKey(tabId));
      if IsCacheValid(cached, now) then FromCache(cached.value.dataUrl)
      else if !isActive then NotActive
      else if probe.tabUrl.None? then TabGone
      else if SpecialPage(probe.tabUrl.value) then OnSpecialPage
      else if probe.capture.None? then CaptureFailed
      else Captured(probe.capture.value)
  }

  /** What `captureScreenshot` resolves to. */
  function OutcomeUrl(o: Outcome): (r: Option<string>)
    ensures r.Some? <==> o.FromCache? || o.Captured?
  {
    match o
    case FromCache(u) => Some(u)
    case Captured(u) => Some(u)
    case _ => None
  }

  // ---------------------------------------------------------------------------
  // The pass over the tabs
  // ---------------------------------------------------------------------------

  datatype Tab = Tab(id: int, active: Option<bool>)

  /** What the pass records for one tab: a valid cached image as it is, or,
      when the current window is known, a non-empty image from the capture;
      `snapshot` is the cache as the pass saw it when it started. */
  function Shot(hasTabs: bool, snapshot: Cache, t: Tab, windowId: Option<int>, now: int, probe: Probe): (r: Option<string>)
    ensures IsCacheValid(Lookup(snapshot, CacheKey(t.id)), now) ==> r == Some(snapshot[CacheKey(t.id)].dataUrl)
    ensures windowId.None? && !IsCacheValid(Lookup(snapshot, CacheKey(t.id)), now) ==> r.None?
  {
    var cached := Lookup(snapshot, CacheKey(t.id));
    if IsCacheValid(cached, now) then Some(cached.value.dataUrl)
    else if windowId.None? then None
    else
      var u := OutcomeUrl(Decide(hasTabs, snapshot, t.id, t.active.GetOr(false), now, probe));
      if u.Some? && u.value != "" then u else None
  }

  /** A recorded image comes from a valid cache entry or from a capture of
      the active tab of a known window, on a page that is not special. */
  lemma ShotSource(hasTabs: bool, snapshot: Cache, t: Tab, windowId: Option<int>, now: int, probe: Probe)
    requires Shot(hasTabs, snapshot, t, windowId, now, probe).Some?
    ensures IsCacheValid(Lookup(snapshot, CacheKey(t.id)), now)
            || (hasTabs && windowId.Some? && t.active == Some(true) && probe.tabUrl.Some? && !SpecialPage(probe.tabUrl.value)
                && Shot(hasTabs, snapshot, t, windowId, now, probe) == probe.capture && probe.capture.value != "")
  {
  }

  /** Whether the pass captured this tab. */
  predicate Captures(hasTabs: bool, snapshot: Cache, t: Tab, windowId: Option<int>, now: int, probe: Probe) {
    !IsCacheValid(Lookup(snapshot, CacheKey(t.id)), now) && windowId.Some?
    && Decide(hasTabs, snapshot, t.id, t.active.GetOr(false), now, probe).Captured?
  }

  /** The shot of every tab, in list order. */
  function ShotList(hasTabs: bool, snapshot: Cache, tabs: seq<Tab>, windowId: Option<int>, now: int, probes: seq<Probe>)
    : (r: seq<Option<string>>)
    requires |probes| == |tabs|
    ensures |r| == |tabs|
    ensures forall i :: 0 <= i < |tabs| ==> r[i] == Shot(hasTabs, snapshot, tabs[i], windowId, now, probes[i])
  {
    seq(|tabs|, i requires 0 <= i < |tabs| => Shot(hasTabs, snapshot, tabs[i], windowId, now, probes[i]))
  }

  /** The image each tab's capture saved, if it made one, in list order. */
  function SaveList(hasTabs: bool, snapshot: Cache, tabs: seq<Tab>, windowId: Option<int>, now: int, probes: seq<Probe>)
    : (r: seq<Option<string>>)
    requires |probes| == |tabs|
    ensures |r| == |tabs|
    ensures forall i :: 0 <= i < |tabs| ==>
              r[i] == if Captures(hasTabs, snapshot, tabs[i], windowId, now, probes[i]) then Some(probes[i].capture.value) else None
  {
    seq(|tabs|, i requires 0 <= i < |tabs| =>
      if Captures(hasTabs, snapshot, tabs[i], windowId, now, probes[i]) then Some(probes[i].capture.value) else None)
  }

  /** `record[id] = value` when there is a value. */
  function Put<V>(m: map<int, V>, id: int, value: Option<V>): map<int, V> {
    if value.Some? then m[id := value.value] else m
  }

  /** `newScreenshots` after the tabs, given each tab's shot. */
  function Record(tabs: seq<Tab>, shots: seq<Option<string>>): map<int, string>
    requires |shots| == |tabs|
    decreases |tabs|
  {
    if |tabs| == 0 then map[]
    else
      var n := |tabs| - 1;
      Put(Record(tabs[..n], shots[..n]), tabs[n].id, shots[n])
  }

  /** `newLoading` after the tabs: every id seen, false. */
  function Loading(tabs: seq<Tab>): map<int, bool>
    decreases |tabs|
  {
    if |tabs| == 0 then map[] else Loading(tabs[..|tabs| - 1])[tabs[|tabs| - 1].id := false]
  }

  /** The position of the last saved image, if any. */
  function LastSaved(saves: seq<Option<string>>): (r: Option<nat>)
    ensures r.Some? ==> r.value < |saves| && saves[r.value].Some?
    decreases |saves|
  {
    if |saves| == 0 then None
    else if saves[|saves| - 1].Some? then Some(|saves| - 1)
    else LastSaved(saves[..|saves| - 1])
  }

  /** The cache after the tabs, given each tab's saved image: every save
      goes into the snapshot the pass started from, so only the last one
      stays. */
  function LastSave(snapshot: Cache, tabs: seq<Tab>, saves: seq<Option<string>>, now: int): Cache
    requires |saves| == |tabs|
  {
    match LastSaved(saves)
    case None => snapshot
    case Some(j) => snapshot[CacheKey(tabs[j].id) := Entry(saves[j].value, now)]
  }

  /** `LastSaved` finds the save no later one follows, and finds nothing
      exactly when nothing was saved. */
  lemma {:induction false} LastSavedIs(saves: seq<Option<string>>, j: int)
    ensures LastSaved(saves) == Some(j) <==>
              0 <= j < |saves| && saves[j].Some? && forall k :: j < k < |saves| ==> saves[k].None?
    ensures LastSaved(saves).None? <==> forall k :: 0 <= k < |saves| ==> saves[k].None?
    decreases |saves|
  {
    if |saves| > 0 {
      var n := |saves| - 1;
      var ss := saves[..n];
      LastSavedIs(ss, j);
      assert forall k :: 0 <= k < n ==> ss[k] == saves[k];
    }
  }

  /** After the pass every tab is recorded as loaded, and no other id is. */
  lemma {:induction false} LoadingDone(tabs: seq<Tab>)
    ensures forall id :: id in Loading(tabs) <==> exists k :: 0 <= k < |tabs| && tabs[k].id == id
    ensures forall id :: id in Loading(tabs) ==> !Loading(tabs)[id]
    decreases |tabs|
  {
    if |tabs| > 0 {
      var n := |tabs| - 1;
      LoadingDone(tabs[..n]);
      forall id | id in Loading(tabs) ensures exists k :: 0 <= k < |tabs| && tabs[k].id == id {
        if id != tabs[n].id {
          assert id in Loading(tabs[..n]);
          var k :| 0 <= k < |tabs[..n]| && tabs[..n][k].id == id;
          assert tabs[k].id == id;
        }
      }
      forall id | exists k :: 0 <= k < |tabs| && tabs[k].id == id ensures id in Loading(tabs) {
        var k :| 0 <= k < |tabs| && tabs[k].id == id;
        if k < n {
          assert tabs[..n][k].id == id;
        }
      }
    }
  }

  /** With distinct tab ids, each tab's record is exactly its own shot: the
      image when there is one, no entry otherwise. */
  lemma {:induction false} RecordDistinct(tabs: seq<Tab>, shots: seq<Option<string>>, i: int)
    requires |shots| == |tabs| && 0 <= i < |tabs|
    requires forall a, b :: 0 <= a < b < |tabs| ==> tabs[a].id != tabs[b].id
    ensures shots[i].Some? ==> tabs[i].id in Record(tabs, shots) && Record(tabs, shots)[tabs[i].id] == shots[i].value
    ensures shots[i].None? ==> tabs[i].id !in Record(tabs, shots)
    decreases |tabs|
  {
    var n := |tabs| - 1;
    if i < n {
      RecordDistinct(tabs[..n], shots[..n], i);
      assert tabs[..n][i] == tabs[i] && shots[..n][i] == shots[i];
      assert tabs[i].id != tabs[n].id;
    } else {
      NotYetSeen(tabs[..n], shots[..n], tabs[n].id);
    }
  }

  /** An id none of the tabs has gets no record. */
  lemma {:induction false} NotYetSeen(tabs: seq<Tab>, shots: seq<Option<string>>, id: int)
    requires |shots| == |tabs|
    requires forall k :: 0 <= k < |tabs| ==> tabs[k].id != id
    ensures id !in Record(tabs, shots)
    decreases |tabs|
  {
    if |tabs| > 0 {
      var n := |tabs| - 1;
      NotYetSeen(tabs[..n], shots[..n], id);
    }
  }

  /** What the pass records for a tab with a valid cached image is that
      image, and with distinct ids it is what the screenshots show. */
  lemma CachedShown(hasTabs: bool, snapshot: Cache, tabs: seq<Tab>, windowId: Option<int>, now: int,
                    probes: seq<Probe>, i: int)
    requires |probes| == |tabs| && 0 <= i < |tabs|
    requires forall a, b :: 0 <= a < b < |tabs| ==> tabs[a].id != tabs[b].id
    requires IsCacheValid(Lookup(snapshot, CacheKey(tabs[i].id)), now)
    ensures var m := Record(tabs, ShotList(hasTabs, snapshot, tabs, windowId, now, probes));
            tabs[i].id in m && m[tabs[i].id] == snapshot[CacheKey(tabs[i].id)].dataUrl
  {
    RecordDistinct(tabs, ShotList(hasTabs, snapshot, tabs, windowId, now, probes), i);
  }

  // ---------------------------------------------------------------------------
  // The hook's state
  // ---------------------------------------------------------------------------

  class ScreenshotsState {
    var screenshots: map<int, string>
    var loading: map<int, bool>
    var cache: Cache
    /** `tabScreenshots` in extension storage. */
    var stored: Option<Cache>
    /** Whether `chrome.tabs` exists. */
    const hasTabs: bool
    /** Whether `chrome.storage` exists. */
    const hasStorage: bool

    constructor (hasTabs: bool, hasStorage: bool, stored: Option<Cache>)
      ensures screenshots == map[] && loading == map[] && cache == map[] && this.stored == stored
      ensures this.hasTabs == hasTabs && this.hasStorage == hasStorage
    {
      screenshots := map[];
      loading := map[];
      cache := map[];
      this.stored := stored;
      this.hasTabs := hasTabs;
      this.hasStorage := hasStorage;
    }

    /** The mount effect: a stored cache is taken over. */
    method LoadCache()
      modifies this
      ensures hasStorage && stored.Some? ==> cache == stored.value
      ensures !(hasStorage && stored.Some?) ==> cache == old(cache)
      ensures screenshots == old(screenshots) && loading == old(loading) && stored == old(stored)
    {
      if hasStorage && stored.Some? {
        cache := stored.value;
      }
    }

    /** `saveToCache`: the cache `base` the caller saw with one entry set or
        replaced, stored as well when storage exists. */
    method SaveToCache(base: Cache, key: string, dataUrl: string, now: int)
      modifies this
      ensures cache == base[key := Entry(dataUrl, now)]
      ensures key in cache && cache[key] == Entry(dataUrl, now)
      ensures forall k :: k != key ==> (k in cache <==> k in base) && (k in base ==> cache[k] == base[k])
      ensures hasStorage ==> stored == Some(cache)
      ensures !hasStorage ==> stored == old(stored)
      ensures screenshots == old(screenshots) && loading == old(loading)
    {
      cache := base[key := Entry(dataUrl, now)];
      if hasStorage {
        stored := Some(cache);
      }
    }

    /** `captureScreenshot`, reading and saving into the cache `snapshot`. */
    method CaptureScreenshot(snapshot: Cache, tabId: int, isActive: bool, now: int, probe: Probe)
      returns (r: Option<string>)
      modifies this
      ensures r == OutcomeUrl(Decide(hasTabs, snapshot, tabId, isActive, now, probe))
      ensures Decide(hasTabs, snapshot, tabId, isActive, now, probe).Captured? ==>
                cache == snapshot[CacheKey(tabId) := Entry(probe.capture.value, now)]
                && stored == (if hasStorage then Some(cache) else old(stored))
      ensures !Decide(hasTabs, snapshot, tabId, isActive, now, probe).Captured? ==>
                cache == old(cache) && stored == old(stored)
      ensures screenshots == old(screenshots) && loading == old(loading)
    {
      var o := Decide(hasTabs, snapshot, tabId, isActive, now, probe);
      if o.Captured? {
        SaveToCache(snapshot, CacheKey(tabId), o.dataUrl, now);
      }
      r := OutcomeUrl(o);
    }

    /** One turn of the loop, for the tab at `i`: its loading flag is set; a
        valid cached image is recorded as it is, otherwise, with a known
        window, the capture's image when it is non-empty; the flag is then
        cleared. */
    method Visit(snapshot: Cache, tabs: seq<Tab>, windowId: Option<int>, now: int, probes: seq<Probe>, i: int,
                 shots: map<int, string>, flags: map<int, bool>)
      returns (nextShots: map<int, string>, nextFlags: map<int, bool>)
      requires |probes| == |tabs| && 0 <= i < |tabs|
      modifies this
      ensures nextShots == Put(shots, tabs[i].id, ShotList(hasTabs, snapshot, tabs, windowId, now, probes)[i])
      ensures nextFlags == flags[tabs[i].id := false]
      ensures var save := SaveList(hasTabs, snapshot, tabs, windowId, now, probes)[i];
              cache == if save.Some? then snapshot[CacheKey(tabs[i].id) := Entry(save.value, now)] else old(cache)
      ensures stored == if hasStorage && SaveList(hasTabs, snapshot, tabs, windowId, now, probes)[i].Some?
                        then Some(cache) else old(stored)
      ensures screenshots == old(screenshots) && loading == old(loading)
    {
      var t := tabs[i];
      nextFlags := flags[t.id := true];
      nextShots := shots;
      Overwrite(flags, t.id);
      var cached := Lookup(snapshot, CacheKey(t.id));
      if IsCacheValid(cached, now) {
        nextShots := nextShots[t.id := cached.value.dataUrl];
        nextFlags := nextFlags[t.id := false];
        return;
      }
      if windowId.Some? {
        var captured := CaptureScreenshot(snapshot, t.id, t.active.GetOr(false), now, probes[i]);
        if captured.Some? && captured.value != "" {
          nextShots := nextShots[t.id := captured.value];
        }
      }
      nextFlags := nextFlags[t.id := false];
    }

    /** The effect over the tab list: nothing for an empty list; otherwise
        one pass in list order, and both records are replaced at the end. */
    method LoadScreenshots(tabs: seq<Tab>, windowId: Option<int>, now: int, probes: seq<Probe>)
      requires |probes| == |tabs|
      modifies this
      ensures |tabs| == 0 ==> screenshots == old(screenshots) && loading == old(loading) && cache == old(cache)
                              && stored == old(stored)
      ensures |tabs| > 0 ==>
                stored == if hasStorage && LastSaved(SaveList(hasTabs, old(cache), tabs, windowId, now, probes)).Some?
                          then Some(cache) else old(stored)
      ensures |tabs| > 0 ==>
                screenshots == Record(tabs, ShotList(hasTabs, old(cache), tabs, windowId, now, probes))
                && loading == Loading(tabs)
                && cache == LastSave(old(cache), tabs, SaveList(hasTabs, old(cache), tabs, windowId, now, probes), now)
    {
      if |tabs| == 0 {
        return;
      }
      var snapshot := cache;
      ghost var shots := ShotList(hasTabs, snapshot, tabs, windowId, now, probes);
      ghost var saves := SaveList(hasTabs, snapshot, tabs, windowId, now, probes);
      var newShots: map<int, string> := map[];
      var newLoading: map<int, bool> := map[];
      var i := 0;
      while i < |tabs|
        invariant 0 <= i <= |tabs|
        invariant PassState(snapshot, tabs, shots, saves, now, hasStorage, old(stored), i, newShots, newLoading, cache, stored)
      {
        ghost var cacheBefore, storedBefore := cache, stored;
        ghost var shotsBefore, loadingBefore := newShots, newLoading;
        newShots, newLoading := Visit(snapshot, tabs, windowId, now, probes, i, newShots, newLoading);
        TurnStep(snapshot, tabs, shots, saves, now, hasStorage, old(stored), i,
                 shotsBefore, loadingBefore, cacheBefore, storedBefore, newShots, newLoading, cache, stored);
        i := i + 1;
      }
      assert tabs[..i] == tabs && shots[..i] == shots && saves[..i] == saves;
      screenshots := newShots;
      loading := newLoading;
    }
  }

  /** One more tab: its save is the last one if it made one, otherwise the
      last save stays what it was. */
  lemma LastSavedStep(saves: seq<Option<string>>, i: int)
    requires 0 <= i < |saves|
    ensures LastSaved(saves[..i + 1]) == if saves[i].Some? then Some(i) else LastSaved(saves[..i])
  {
    assert saves[..i + 1][..i] == saves[..i];
  }

  /** Where the pass stands after the first `i` tabs: the records and flags
      of those tabs, the cache holding the last of their saves, and storage
      written once any of them saved. */
  ghost predicate PassState(snapshot: Cache, tabs: seq<Tab>, shots: seq<Option<string>>, saves: seq<Option<string>>,
                            now: int, hasStorage: bool, initial: Option<Cache>, i: int,
                            record: map<int, string>, flags: map<int, bool>, cache: Cache, stored: Option<Cache>)
    requires |shots| == |tabs| && |saves| == |tabs| && 0 <= i <= |tabs|
  {
    && record == Record(tabs[..i], shots[..i])
    && flags == Loading(tabs[..i])
    && cache == LastSave(snapshot, tabs[..i], saves[..i], now)
    && stored == if hasStorage && LastSaved(saves[..i]).Some? then Some(cache) else initial
  }

  /** One turn of the loop carries the pass from `i` tabs to `i + 1`. */
  lemma TurnStep(snapshot: Cache, tabs: seq<Tab>, shots: seq<Option<string>>, saves: seq<Option<string>>,
                 now: int, hasStorage: bool, initial: Option<Cache>, i: int,
                 record: map<int, string>, flags: map<int, bool>, cache: Cache, stored: Option<Cache>,
                 record': map<int, string>, flags': map<int, bool>, cache': Cache, stored': Option<Cache>)
    requires |shots| == |tabs| && |saves| == |tabs| && 0 <= i < |tabs|
    requires PassState(snapshot, tabs, shots, saves, now, hasStorage, initial, i, record, flags, cache, stored)
    requires record' == Put(record, tabs[i].id, shots[i]) && flags' == flags[tabs[i].id := false]
    requires cache' == if saves[i].Some? then snapshot[CacheKey(tabs[i].id) := Entry(saves[i].value, now)] else cache
    requires stored' == if hasStorage && saves[i].Some? then Some(cache') else stored
    ensures PassState(snapshot, tabs, shots, saves, now, hasStorage, initial, i + 1, record', flags', cache', stored')
  {
    PassStep(snapshot, tabs, shots, saves, now, i);
    LastSavedStep(saves, i);
  }

  /** The loading flag set during the turn is overwritten before anyone
      sees it. */
  lemma Overwrite(m: map<int, bool>, id: int)
    ensures m[id := true][id := false] == m[id := false]
  {
  }

  /** How the three folds grow by one tab. */
  lemma PassStep(snapshot: Cache, tabs: seq<Tab>, shots: seq<Option<string>>, saves: seq<Option<string>>,
                 now: int, i: int)
    requires |shots| == |tabs| && |saves| == |tabs| && 0 <= i < |tabs|
    ensures Record(tabs[..i + 1], shots[..i + 1]) == Put(Record(tabs[..i], shots[..i]), tabs[i].id, shots[i])
    ensures Loading(tabs[..i + 1]) == Loading(tabs[..i])[tabs[i].id := false]
    ensures LastSave(snapshot, tabs[..i + 1], saves[..i + 1], now)
         == if saves[i].Some? then snapshot[CacheKey(tabs[i].id) := Entry(saves[i].value, now)]
            else LastSave(snapshot, tabs[..i], saves[..i], now)
  {
    assert tabs[..i + 1][..i] == tabs[..i] && shots[..i + 1][..i] == shots[..i] && saves[..i + 1][..i] == saves[..i];
    var j := LastSaved(saves[..i]);
    if saves[i].None? && j.Some? {
      assert tabs[..i + 1][j.value] == tabs[..i][j.value] && saves[..i + 1][j.value] == saves[..i][j.value];
    }
  }
}
