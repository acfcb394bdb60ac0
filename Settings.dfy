/** The settings of hooks/useSettings.ts: the defaults, how stored settings
    are laid over them when the extension loads, and changing one setting,
    which is kept in the store at once. */
module Settings {
  import opened Wrappers

  datatype Theme = Light | Dark | System

  datatype GridSize = Small | Medium | Large

  datatype Settings = Settings(theme: Theme, wallpaperUrl: string, gridSize: GridSize)

  /** The wallpaper shown until the user picks another. */
  const DefaultWallpaper: string :=
    "https://images.unsplash.com/photo-1579546929518-9e396f3cc809?auto=format&fit=crop&w=2000&q=80"

  /** `DEFAULT_SETTINGS`. */
  const Defaults: Settings := Settings(System, DefaultWallpaper, Medium)

  /** A stored settings object: any of its keys may be missing. */
  datatype Stored = Stored(theme: Option<Theme>, wallpaperUrl: Option<string>, gridSize: Option<GridSize>)

  /** `{ ...base, ...stored }`: every key the stored object has wins. */
  function Merge(base: Settings, stored: Stored): (r: Settings)
    ensures r.theme == stored.theme.GetOr(base.theme)
    ensures r.wallpaperUrl == stored.wallpaperUrl.GetOr(base.wallpaperUrl)
    ensures r.gridSize == stored.gridSize.GetOr(base.gridSize)
  {
    Settings(
      stored.theme.GetOr(base.theme),
      stored.wallpaperUrl.GetOr(base.wallpaperUrl),
      stored.gridSize.GetOr(base.gridSize))
  }

  /** The object written to the store: every key present. */
  function Full(s: Settings): (r: Stored)
    ensures r.theme.Some? && r.wallpaperUrl.Some? && r.gridSize.Some?
  {
    Stored(Some(s.theme), Some(s.wallpaperUrl), Some(s.gridSize))
  }

  /** A stored object without keys leaves the defaults as they are. */
  lemma MergeNothing(base: Settings)
    ensures Merge(base, Stored(None, None, None)) == base
  {
  }

  /** Laying a full object over anything gives that object back, so what was
      written is what the next load shows. */
  lemma MergeFull(base: Settings, s: Settings)
    ensures Merge(base, Full(s)) == s
  {
  }

  /** Laying the same object over twice changes nothing the second time. */
  lemma MergeTwice(base: Settings, stored: Stored)
    ensures Merge(Merge(base, stored), stored) == Merge(base, stored)
  {
  }

  /** A key the stored object lacks keeps the default's value. */
  lemma MergeMissing(base: Settings, stored: Stored)
    ensures stored.theme.None? ==> Merge(base, stored).theme == base.theme
    ensures stored.wallpaperUrl.None? ==> Merge(base, stored).wallpaperUrl == base.wallpaperUrl
    ensures stored.gridSize.None? ==> Merge(base, stored).gridSize == base.gridSize
  {
  }

  // ---------------------------------------------------------------------------
  // One setting
  // ---------------------------------------------------------------------------

  /** `keyof Settings`. */
  datatype Key = ThemeKey | WallpaperKey | GridKey

  /** A key with a value of its type. */
  datatype Change = ThemeChange(theme: Theme) | WallpaperChange(url: string) | GridChange(size: GridSize)

  /** A setting's value, whichever its type. */
  datatype Value = ThemeValue(theme: Theme) | UrlValue(url: string) | GridValue(size: GridSize)

  function KeyOf(c: Change): Key {
    match c
    case ThemeChange(_) => ThemeKey
    case WallpaperChange(_) => WallpaperKey
    case GridChange(_) => GridKey
  }

  function ValueOf(c: Change): Value {
    match c
    case ThemeChange(t) => ThemeValue(t)
    case WallpaperChange(u) => UrlValue(u)
    case GridChange(g) => GridValue(g)
  }

  /** `settings[key]`. */
  function Get(s: Settings, k: Key): Value {
    match k
    case ThemeKey => ThemeValue(s.theme)
    case WallpaperKey => UrlValue(s.wallpaperUrl)
    case GridKey => GridValue(s.gridSize)
  }

  /** `{ ...settings, [key]: value }`. */
  function Apply(s: Settings, c: Change): (r: Settings)
    ensures Get(r, KeyOf(c)) == ValueOf(c)
    ensures forall k :: k != KeyOf(c) ==> Get(r, k) == Get(s, k)
  {
    match c
    case ThemeChange(t) => Settings(t, s.wallpaperUrl, s.gridSize)
    case WallpaperChange(u) => Settings(s.theme, u, s.gridSize)
    case GridChange(g) => Settings(s.theme, s.wallpaperUrl, g)
  }

  /** The settings are their values: two that agree on every key are equal. */
  lemma SameValues(a: Settings, b: Settings)
    requires forall k :: Get(a, k) == Get(b, k)
    ensures a == b
  {
    assert Get(a, ThemeKey) == Get(b, ThemeKey);
    assert Get(a, WallpaperKey) == Get(b, WallpaperKey);
    assert Get(a, GridKey) == Get(b, GridKey);
  }

  /** Setting a key to the value it has changes nothing, and a later change
      of the same key replaces an earlier one. */
  lemma ApplyLaws(s: Settings, c: Change, d: Change)
    ensures Get(s, KeyOf(c)) == ValueOf(c) ==> Apply(s, c) == s
    ensures KeyOf(c) == KeyOf(d) ==> Apply(Apply(s, c), d) == Apply(s, d)
  {
    if Get(s, KeyOf(c)) == ValueOf(c) {
      SameValues(Apply(s, c), s);
    }
    if KeyOf(c) == KeyOf(d) {
      SameValues(Apply(Apply(s, c), d), Apply(s, d));
    }
  }

  // ---------------------------------------------------------------------------
  // The hook's state
  // ---------------------------------------------------------------------------

  class SettingsState {
    var settings: Settings
    var loading: bool
    /** `settings` in the extension's synced storage. */
    var sync: Option<Stored>
    /** What `JSON.parse` gives for the page's `settings` item, when there is
        a non-empty one. */
    var local: Option<Settings>
    /** Whether `chrome.storage` exists. */
    const hasStorage: bool

    constructor (hasStorage: bool, sync: Option<Stored>, local: Option<Settings>)
      ensures settings == Defaults && loading
      ensures this.hasStorage == hasStorage && this.sync == sync && this.local == local
    {
      settings := Defaults;
      loading := true;
      this.sync := sync;
      this.local := local;
      this.hasStorage := hasStorage;
    }

    /** The load effect: in the extension a stored object is laid over the
        defaults; in a page the saved settings replace them as they are.
        Loading ends either way. */
    method Load()
      modifies this
      ensures !loading
      ensures hasStorage && sync.Some? ==> settings == Merge(Defaults, sync.value)
      ensures !hasStorage && local.Some? ==> settings == local.value
      ensures (hasStorage && sync.None?) || (!hasStorage && local.None?) ==> settings == old(settings)
      ensures sync == old(sync) && local == old(local)
    {
      if hasStorage {
        if sync.Some? {
          settings := Merge(Defaults, sync.value);
        }
      } else {
        if local.Some? {
          settings := local.value;
        }
      }
      loading := false;
    }

    /** `updateSetting`: one key changes, and the new settings are written to
        the store in use. */
    method UpdateSetting(c: Change)
      modifies this
      ensures Get(settings, KeyOf(c)) == ValueOf(c)
      ensures forall k :: k != KeyOf(c) ==> Get(settings, k) == Get(old(settings), k)
      ensures settings == Apply(old(settings), c)
      ensures hasStorage ==> sync == Some(Full(settings)) && local == old(local)
      ensures !hasStorage ==> local == Some(settings) && sync == old(sync)
      ensures loading == old(loading)
    {
      settings := Apply(settings, c);
      if hasStorage {
        sync := Some(Full(settings));
      } else {
        local := Some(settings);
      }
    }
  }
}
