/** The extension list of hooks/useExtensions.ts: which entries of the
    browser's management list are shown and how each is copied, and the
    in-memory toggle and uninstall used when the management API is absent. */
module Extensions {
  import opened Wrappers

  /** One icon of a management entry. */
  datatype Icon = Icon(size: int, url: string)

  /** What `chrome.management.getAll()` reports for one item. */
  datatype ManagementItem = ManagementItem(
    id: string, name: string, description: string, enabled: bool, icons: seq<Icon>,
    homepageUrl: Option<string>, optionsUrl: Option<string>, typ: string)

  /** `ExtensionInfo`. */
  datatype ExtensionInfo = ExtensionInfo(
    id: string, name: string, description: string, enabled: bool, iconUrl: Option<string>,
    homepageUrl: Option<string>, optionsUrl: Option<string>, typ: string)

  /** The url of the last icon, or none without icons. */
  function IconUrl(icons: seq<Icon>): (r: Option<string>)
    ensures r.None? <==> |icons| == 0
    ensures r.Some? ==> r.value == icons[|icons| - 1].url
  {
    if |icons| > 0 then Some(icons[|icons| - 1].url) else None
  }

  /** The copy of one entry. */
  function ToInfo(item: ManagementItem): (e: ExtensionInfo)
    ensures e.id == item.id && e.enabled == item.enabled && e.iconUrl == IconUrl(item.icons)
  {
    ExtensionInfo(item.id, item.name, item.description, item.enabled, IconUrl(item.icons),
                  item.homepageUrl, item.optionsUrl, item.typ)
  }

  /** Extensions and hosted apps other than this extension itself. */
  predicate Shown(item: ManagementItem, selfId: string) {
    (item.typ == "extension" || item.typ == "hosted_app") && item.id != selfId
  }

  /** The management list filtered and copied, in its order. */
  function Listed(items: seq<ManagementItem>, selfId: string): (r: seq<ExtensionInfo>)
    ensures |r| <= |items|
    ensures forall e :: e in r ==> e.id != selfId && (e.typ == "extension" || e.typ == "hosted_app")
    decreases |items|
  {
    if |items| == 0 then []
    else
      var rest := Listed(items[1..], selfId);
      if Shown(items[0], selfId) then [ToInfo(items[0])] + rest else rest
  }

  /** Every shown item appears, copied, and nothing else does. */
  lemma {:induction false} ListedExactly(items: seq<ManagementItem>, selfId: string, item: ManagementItem)
    requires item in items
    ensures Shown(item, selfId) ==> ToInfo(item) in Listed(items, selfId)
    decreases |items|
  {
    if items[0] != item {
      ListedExactly(items[1..], selfId, item);
    }
  }

  /** Each listed entry is the copy of a shown item. */
  lemma {:induction false} ListedFrom(items: seq<ManagementItem>, selfId: string, e: ExtensionInfo)
    requires e in Listed(items, selfId)
    ensures exists k :: 0 <= k < |items| && Shown(items[k], selfId) && ToInfo(items[k]) == e
    decreases |items|
  {
    if |items| > 0 {
      var rest := Listed(items[1..], selfId);
      if Shown(items[0], selfId) && e == ToInfo(items[0]) {
        assert ToInfo(items[0]) == e;
      } else {
        ListedFrom(items[1..], selfId, e);
        var k :| 0 <= k < |items[1..]| && Shown(items[1..][k], selfId) && ToInfo(items[1..][k]) == e;
        assert items[k + 1] == items[1..][k];
      }
    }
  }

  /** The stand-in list used outside the browser. */
  const MockExtensions: seq<ExtensionInfo> := [
    ExtensionInfo("1", "React Developer Tools", "Debug React apps", true, None, None, None, "extension"),
    ExtensionInfo("2", "uBlock Origin", "Block ads", false, None, None, None, "extension"),
    ExtensionInfo("3", "Google Docs", "Create docs", true, None, Some("https://docs.google.com"), None, "hosted_app")
  ]

  /** `{ ...e, enabled }`. */
  function WithEnabled(e: ExtensionInfo, enabled: bool): (r: ExtensionInfo)
    ensures r.enabled == enabled && r.id == e.id && r.name == e.name
  {
    ExtensionInfo(e.id, e.name, e.description, enabled, e.iconUrl, e.homepageUrl, e.optionsUrl, e.typ)
  }

  /** The mock toggle, `exts.map((e) => e.id === id ? { ...e, enabled } : e)`. */
  function SetEnabled(exts: seq<ExtensionInfo>, id: string, enabled: bool): (r: seq<ExtensionInfo>)
    ensures |r| == |exts|
    decreases |exts|
  {
    if |exts| == 0 then []
    else [if exts[0].id == id then WithEnabled(exts[0], enabled) else exts[0]] + SetEnabled(exts[1..], id, enabled)
  }

  /** The toggle sets the flag on the entries with that id and leaves every
      other entry, and every other field, as it was. */
  lemma {:induction false} SetEnabledOnly(exts: seq<ExtensionInfo>, id: string, enabled: bool, i: int)
    requires 0 <= i < |exts|
    ensures exts[i].id == id ==> SetEnabled(exts, id, enabled)[i] == WithEnabled(exts[i], enabled)
    ensures exts[i].id != id ==> SetEnabled(exts, id, enabled)[i] == exts[i]
    decreases i
  {
    if i > 0 {
      SetEnabledOnly(exts[1..], id, enabled, i - 1);
      assert SetEnabled(exts, id, enabled)[i] == SetEnabled(exts[1..], id, enabled)[i - 1];
    }
  }

  /** The mock uninstall, `exts.filter((e) => e.id !== id)`. */
  function Remove(exts: seq<ExtensionInfo>, id: string): (r: seq<ExtensionInfo>)
    ensures |r| <= |exts|
    decreases |exts|
  {
    if |exts| == 0 then []
    else
      var rest := Remove(exts[1..], id);
      if exts[0].id == id then rest else [exts[0]] + rest
  }

  /** What is left is every entry without that id. */
  lemma {:induction false} RemoveMembers(exts: seq<ExtensionInfo>, id: string, e: ExtensionInfo)
    ensures e in Remove(exts, id) <==> e in exts && e.id != id
    decreases |exts|
  {
    if |exts| > 0 {
      RemoveMembers(exts[1..], id, e);
      assert exts == [exts[0]] + exts[1..];
    }
  }

  /** Uninstalling drops exactly the entries with that id and keeps the
      order of the others. */
  lemma {:induction false} RemoveAppend(a: seq<ExtensionInfo>, b: seq<ExtensionInfo>, id: string)
    ensures Remove(a + b, id) == Remove(a, id) + Remove(b, id)
    decreases |a|
  {
    if |a| == 0 {
      assert a + b == b;
    } else {
      RemoveAppend(a[1..], b, id);
      RemoveAppendStep(a, b, id);
    }
  }

  lemma RemoveAppendStep(a: seq<ExtensionInfo>, b: seq<ExtensionInfo>, id: string)
    requires |a| > 0
    requires Remove(a[1..] + b, id) == Remove(a[1..], id) + Remove(b, id)
    ensures Remove(a + b, id) == Remove(a, id) + Remove(b, id)
  {
    var ab := a + b;
    assert ab[0] == a[0] && ab[1..] == a[1..] + b;
    var x, ra, rb := a[0], Remove(a[1..], id), Remove(b, id);
    if x.id != id {
      assert Remove(ab, id) == [x] + (ra + rb);
      assert [x] + (ra + rb) == ([x] + ra) + rb;
    }
  }

  /** The state of `useExtensions`. */
  class ExtensionsState {
    var extensions: seq<ExtensionInfo>
    var loading: bool

    constructor ()
      ensures extensions == [] && loading
    {
      extensions := [];
      loading := true;
    }

    /** `fetchExtensions`: the filtered management list, given with this
        extension's id when the API exists, or the mock list. */
    method FetchExtensions(management: Option<(seq<ManagementItem>, string)>)
      modifies this
      ensures management.Some? ==> extensions == Listed(management.value.0, management.value.1)
      ensures management.None? ==> extensions == MockExtensions
      ensures !loading
    {
      if management.Some? {
        extensions := Listed(management.value.0, management.value.1);
      } else {
        extensions := MockExtensions;
      }
      loading := false;
    }

    /** `toggleExtension`: with the API the browser is asked and the list
        waits for its change event; without it the mock list is updated. */
    method ToggleExtension(id: string, enabled: bool, hasManagement: bool)
      modifies this
      ensures hasManagement ==> extensions == old(extensions)
      ensures !hasManagement ==> extensions == SetEnabled(old(extensions), id, enabled)
      ensures loading == old(loading)
    {
      if !hasManagement {
        extensions := SetEnabled(extensions, id, enabled);
      }
    }

    /** `uninstallExtension`, in the same two forms. */
    method UninstallExtension(id: string, hasManagement: bool)
      modifies this
      ensures hasManagement ==> extensions == old(extensions)
      ensures !hasManagement ==> extensions == Remove(old(extensions), id)
      ensures loading == old(loading)
    {
      if !hasManagement {
        extensions := Remove(extensions, id);
      }
    }
  }
}
