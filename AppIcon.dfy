/** The icon logic of components/AppIcon.tsx: the ordered emoji classifier
    used when no favicon loads, the list of favicon sources tried in order,
    and the fallback level that steps through that list on load errors
    (`AppIcon`) or stops at its last entry (`MiniFavicon`). */
module AppIcon {
  import opened Wrappers
  import opened Text

  // ---------------------------------------------------------------------------
  // The emoji classifier
  // ---------------------------------------------------------------------------

  /** One `if` of `getEmojiFallback`: it fires when the lower-cased url
      contains one of `urls` or the lower-cased title one of `titles`. */
  datatype Rule = Rule(urls: seq<string>, titles: seq<string>, emoji: string)

  const Globe := "\U{1F310}"
  const Octopus := "\U{1F419}"
  const Magnifier := "\U{1F50D}"
  const Robot := "\U{1F916}"

  const GithubRule := Rule(["github.com"], ["github"], Octopus)
  const GoogleRule := Rule(["google.com"], ["google"], Magnifier)
  const AiRule := Rule(["chatgpt.com", "openai.com", "claude.ai"], ["ai"], Robot)

  /** The rules in source order. */
  const Rules: seq<Rule> := [
    GithubRule,
    GoogleRule,
    Rule(["youtube.com"], ["youtube", "video"], "\U{1F4FA}"),
    Rule(["mail.google.com"], ["mail", "outlook"], "\U{1F4E7}"),
    Rule(["notion.so"], ["notion"], "\U{1F4D3}"),
    AiRule,
    Rule(["calendar.google.com"], ["calendar"], "\U{1F4C5}"),
    Rule(["spotify.com"], ["music", "spotify"], "\U{1F3B5}"),
    Rule(["news"], ["news"], "\U{1F4F0}"),
    Rule(["bank", "paypal"], ["money", "pay"], "\U{1F4B0}"),
    Rule(["reddit.com"], [], "\U{1F98A}"),
    Rule(["twitter.com", "x.com"], ["twitter"], "\U{1F426}"),
    Rule(["facebook.com"], ["facebook"], "\U{1F465}"),
    Rule(["amazon.com"], ["shop", "amazon"], "\U{1F6CD}\U{FE0F}"),
    Rule(["netflix.com"], [], "\U{1F3AC}"),
    Rule(["discord.com"], [], "\U{1F47E}")
  ]

  /** `s` contains one of the needles. */
  predicate ContainsAny(s: string, needles: seq<string>)
    decreases |needles|
  {
    |needles| > 0 && (Contains(s, needles[0]) || ContainsAny(s, needles[1..]))
  }

  predicate Fires(r: Rule, title: string, url: string) {
    ContainsAny(url, r.urls) || ContainsAny(title, r.titles)
  }

  /** The emoji of the first rule that fires, or the globe. */
  function FirstMatch(rules: seq<Rule>, title: string, url: string): (e: string)
    ensures e == Globe || exists i :: 0 <= i < |rules| && rules[i].emoji == e
    decreases |rules|
  {
    if |rules| == 0 then Globe
    else if Fires(rules[0], title, url) then rules[0].emoji
    else FirstMatch(rules[1..], title, url)
  }

  /** `getEmojiFallback`: a missing url counts as "". */
  function EmojiFallback(title: string, url: Option<string>): string {
    FirstMatch(Rules, Lower(title), Lower(url.GetOr("")))
  }

  /** The first rule that fires decides; when none fires the globe is shown. */
  lemma {:induction false} FirstMatchIsFirst(rules: seq<Rule>, title: string, url: string, i: int)
    requires 0 <= i <= |rules|
    requires forall j :: 0 <= j < i ==> !Fires(rules[j], title, url)
    requires i < |rules| ==> Fires(rules[i], title, url)
    ensures FirstMatch(rules, title, url) == if i == |rules| then Globe else rules[i].emoji
    decreases i
  {
    if i > 0 {
      assert !Fires(rules[0], title, url);
      FirstMatchIsFirst(rules[1..], title, url, i - 1);
    }
  }

  /** A haystack that contains `a + b` contains `b`. */
  lemma ContainsTail(s: string, a: string, b: string)
    requires Contains(s, a + b)
    ensures Contains(s, b)
  {
    var i :| 0 <= i <= |s| - |a + b| && StartsWith(s[i..], a + b);
    assert s[i + |a|..][..|b|] == (a + b)[|a|..];
    assert StartsWith(s[i + |a|..], b);
  }

  lemma GoogleSuffixes()
    ensures "mail.google.com" == "mail." + "google.com"
    ensures "calendar.google.com" == "calendar." + "google.com"
  {
  }

  /** Rule order decides overlaps: a Gmail or Google Calendar address gets
      the magnifier of the earlier google rule, unless the github rule fires. */
  lemma GoogleSubdomains(title: string, url: string)
    requires Contains(Lower(url), "mail.google.com") || Contains(Lower(url), "calendar.google.com")
    requires !Fires(GithubRule, Lower(title), Lower(url))
    ensures EmojiFallback(title, Some(url)) == Magnifier
  {
    GoogleSuffixes();
    if Contains(Lower(url), "mail.google.com") {
      ContainsTail(Lower(url), "mail.", "google.com");
    } else {
      ContainsTail(Lower(url), "calendar.", "google.com");
    }
    GoogleFires(Lower(title), Lower(url));
    FirstRules(Lower(title), Lower(url));
    FirstMatchIsFirst(Rules, Lower(title), Lower(url), 1);
  }

  lemma GoogleFires(title: string, url: string)
    requires Contains(url, "google.com")
    ensures Fires(GoogleRule, title, url)
  {
    assert ContainsAny(url, GoogleRule.urls);
  }

  lemma FirstRules(title: string, url: string)
    requires !Fires(GithubRule, title, url) && Fires(GoogleRule, title, url)
    ensures forall j :: 0 <= j < 1 ==> !Fires(Rules[j], title, url)
    ensures Fires(Rules[1], title, url)
  {
    assert Rules[0] == GithubRule && Rules[1] == GoogleRule;
  }

  /** Any title containing "ai" that no earlier rule catches gets the robot. */
  lemma AiTitle(title: string, url: Option<string>)
    requires Contains(Lower(title), "ai")
    requires forall j :: 0 <= j < 5 ==> !Fires(Rules[j], Lower(title), Lower(url.GetOr("")))
    ensures EmojiFallback(title, url) == Robot
  {
    assert Rules[5] == AiRule;
    assert ContainsAny(Lower(title), AiRule.titles);
    FirstMatchIsFirst(Rules, Lower(title), Lower(url.GetOr("")), 5);
  }

  // ---------------------------------------------------------------------------
  // The favicon sources
  // ---------------------------------------------------------------------------

  /** What `new URL(url)` gives: its host name and origin. */
  datatype ParsedUrl = ParsedUrl(hostname: string, origin: string)

  /** A file under the page's origin. */
  datatype OriginFile = FaviconIco | FaviconPng | FaviconSvg | AssetsIco | AssetsPng | AssetsSvg

  /** One place to load a favicon from. `encoded` is `encodeURIComponent(url)`
      and `extensionId` the running extension's id. */
  datatype Source =
    | Discovered(url: string)
    | BrowserCache(extensionId: string, encoded: string, size: string)
    | Gstatic(encoded: string, size: string)
    | GoogleS2(hostname: string, size: string)
    | DuckDuckGo(hostname: string)
    | AtOrigin(origin: string, file: OriginFile)

  function FileText(f: OriginFile): string {
    match f
    case FaviconIco => "/favicon.ico"
    case FaviconPng => "/favicon.png"
    case FaviconSvg => "/favicon.svg"
    case AssetsIco => "/assets/favicon.ico"
    case AssetsPng => "/assets/favicon.png"
    case AssetsSvg => "/assets/favicon.svg"
  }

  /** The address each source stands for. */
  function Url(s: Source): string {
    match s
    case Discovered(u) => u
    case BrowserCache(id, enc, size) => "chrome-extension://" + id + "/_favicon/?pageUrl=" + enc + "&size=" + size
    case Gstatic(enc, size) =>
      "https://t3.gstatic.com/faviconV2?client=SOCIAL&type=FAVICON&fallback_opts=TYPE,SIZE,URL&url=" + enc + "&size=" + size
    case GoogleS2(host, size) => "https://www.google.com/s2/favicons?domain=" + host + "&sz=" + size
    case DuckDuckGo(host) => "https://icons.duckduckgo.com/ip3/" + host + ".ico"
    case AtOrigin(origin, f) => origin + FileText(f)
  }

  /** The ten services and paths, in the order they are tried. */
  function Services(extensionId: string, encoded: string, size: string, u: ParsedUrl): (r: seq<Source>)
    ensures |r| == 10
    ensures forall i :: 0 <= i < |r| ==> !r[i].Discovered?
  {
    [ BrowserCache(extensionId, encoded, size), Gstatic(encoded, size), GoogleS2(u.hostname, size),
      DuckDuckGo(u.hostname),
      AtOrigin(u.origin, FaviconIco), AtOrigin(u.origin, FaviconPng), AtOrigin(u.origin, FaviconSvg),
      AtOrigin(u.origin, AssetsIco), AtOrigin(u.origin, AssetsPng), AtOrigin(u.origin, AssetsSvg) ]
  }

  /** `getFaviconUrls` of `AppIcon`: none when the url does not parse;
      otherwise the ten sources, with a non-empty discovered icon put in
      front. */
  method GetFaviconUrls(parsed: Option<ParsedUrl>, extensionId: string, encoded: string, size: string,
                        discovered: Option<string>)
    returns (urls: seq<Source>)
    ensures parsed.None? ==> urls == []
    ensures parsed.Some? && (discovered.None? || discovered.value == "") ==>
              urls == Services(extensionId, encoded, size, parsed.value)
    ensures parsed.Some? && discovered.Some? && discovered.value != "" ==>
              urls == [Discovered(discovered.value)] + Services(extensionId, encoded, size, parsed.value)
  {
    if parsed.None? {
      return [];
    }
    urls := Services(extensionId, encoded, size, parsed.value);
    if discovered.Some? && discovered.value != "" {
      urls := [Discovered(discovered.value)] + urls;
    }
  }

  // ---------------------------------------------------------------------------
  // The fallback level
  // ---------------------------------------------------------------------------

  /** `faviconUrls[fallbackLevel] || ""`: a level with no entry shows "". */
  function CurrentUrl(urls: seq<Source>, level: int): (r: string)
    ensures 0 <= level < |urls| ==> r == Url(urls[level])
    ensures !(0 <= level < |urls|) ==> r == ""
  {
    if 0 <= level < |urls| then Url(urls[level]) else ""
  }

  /** `handleIconError` of `AppIcon`: the next source, and after the last one
      -1, which shows the emoji. */
  function NextLevel(level: int, count: nat): int {
    if level < count - 1 then level + 1 else -1
  }

  /** The level after `errors` load errors, starting at 0. */
  function LevelAfter(errors: nat, count: nat): int
    decreases errors
  {
    if errors == 0 then 0 else NextLevel(LevelAfter(errors - 1, count), count)
  }

  /** Each error moves to the next source until the last has failed; then the
      emoji is shown. With no sources the first error shows the emoji. */
  lemma {:induction false} ErrorsStepThrough(errors: nat, count: nat)
    requires errors <= count
    ensures LevelAfter(errors, count) == if errors < count || errors == 0 then errors else -1
    ensures count == 0 ==> LevelAfter(1, count) == -1
  {
    if errors > 0 {
      ErrorsStepThrough(errors - 1, count);
    }
  }

  /** `MiniFavicon`'s error handler: the level stops at the last source. */
  function MiniNextLevel(level: int, count: nat): int {
    if level < count - 1 then level + 1 else level
  }

  /** The mini icon's level stays on a valid index (or 0 with no sources)
      and never becomes -1. */
  lemma MiniStaysInRange(level: int, count: nat)
    requires 0 <= level && (level == 0 || level < count)
    ensures 0 <= MiniNextLevel(level, count) && (MiniNextLevel(level, count) == 0 || MiniNextLevel(level, count) < count)
    ensures MiniNextLevel(level, count) != -1
  {
  }

  /** The fallback level of one `AppIcon`. */
  class IconFallback {
    var fallbackLevel: int

    constructor ()
      ensures fallbackLevel == 0
    {
      fallbackLevel := 0;
    }

    /** The image shows the emoji instead once the level is -1. */
    predicate ShowsEmoji()
      reads this
    {
      fallbackLevel == -1
    }

    /** `handleIconError` with `count` sources. */
    method HandleIconError(count: nat)
      modifies this
      ensures fallbackLevel == NextLevel(old(fallbackLevel), count)
      ensures old(fallbackLevel) >= count - 1 ==> ShowsEmoji()
    {
      if fallbackLevel < count - 1 {
        fallbackLevel := fallbackLevel + 1;
      } else {
        fallbackLevel := -1;
      }
    }
  }
}
