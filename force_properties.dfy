/** How the admin's provider choice in `force_provider_embed` combines URL detection with
    the Reddit and TikTok oEmbed lookups. */
module ForceProperties {
  import opened Common
  import opened Text
  import opened Url
  import opened Embed
  import opened EmbedProperties

  /** The choices that consult `normalize_embed`, and so can fail. */
  predicate Detecting(c: Choice) {
    c in {Auto, Forced(YouTube), Forced(Vimeo), Forced(Loom)}
  }

  /** The URL is detected as a post of the given oEmbed site. */
  predicate DetectedAs(url: string, site: OEmbedSite) {
    NormalizeEmbed(url).Ok? && NormalizeEmbed(url).value.provider == SiteProvider(site)
  }

  /** `force_provider_embed` is the decision on the parsed choice and the stripped URL. */
  lemma ForceIsDecide(choice: string, source: string, fetch: OEmbedOracle)
    ensures ForceProviderEmbed(choice, source, fetch) ==
            DecideEmbed(ParseChoice(choice), Strip(source), NormalizeEmbed(Strip(source)), fetch)
  {
  }

  /** The outcome of an oEmbed lookup, as both oEmbed branches store it. */
  function OEmbedOutcome(site: OEmbedSite, url: string, fetch: OEmbedOracle): StoredEmbed {
    var html := Markup(fetch(site, url));
    if html == [] then StoredEmbed(Custom, url, "") else StoredEmbed(SiteProvider(site), url, html)
  }

  lemma DecideForcedOEmbed(url: string, detected: Result<Embed, EmbedError>, fetch: OEmbedOracle, site: OEmbedSite)
    ensures DecideEmbed(Forced(SiteProvider(site)), url, detected, fetch) == Ok(OEmbedOutcome(site, url, fetch))
  {
  }

  lemma DecideAutoOEmbed(url: string, detected: Result<Embed, EmbedError>, fetch: OEmbedOracle, site: OEmbedSite)
    requires Detection(detected, url) && detected.Ok? && detected.value.provider == SiteProvider(site)
    ensures DecideEmbed(Auto, url, detected, fetch) == Ok(OEmbedOutcome(site, url, fetch))
  {
  }

  lemma DecideOEmbed(c: Choice, url: string, detected: Result<Embed, EmbedError>, fetch: OEmbedOracle, site: OEmbedSite)
    requires Detection(detected, url)
    requires c == Forced(SiteProvider(site)) ||
             (c == Auto && detected.Ok? && detected.value.provider == SiteProvider(site))
    ensures DecideEmbed(c, url, detected, fetch) == Ok(OEmbedOutcome(site, url, fetch))
  {
    if c == Auto {
      DecideAutoOEmbed(url, detected, fetch, site);
    } else {
      DecideForcedOEmbed(url, detected, fetch, site);
    }
  }

  /** An explicit Reddit/TikTok choice, or automatic detection of that site, stores the
      outcome of that site's oEmbed lookup on the stripped URL. */
  lemma OEmbedStored(choice: string, source: string, fetch: OEmbedOracle, site: OEmbedSite)
    requires ParseChoice(choice) == Forced(SiteProvider(site)) ||
             (ParseChoice(choice) == Auto && DetectedAs(Strip(source), site))
    ensures ForceProviderEmbed(choice, source, fetch) == Ok(OEmbedOutcome(site, Strip(source), fetch))
  {
    var url := Strip(source);
    ForceIsDecide(choice, source, fetch);
    NormalizeDetects(url);
    DecideOEmbed(ParseChoice(choice), url, NormalizeEmbed(url), fetch, site);
  }

  /** A failed or empty oEmbed lookup, whether the site was detected or chosen explicitly,
      stores the stripped URL as a custom embed without markup. */
  lemma OEmbedFailureDowngrades(choice: string, source: string, fetch: OEmbedOracle, site: OEmbedSite)
    requires ParseChoice(choice) == Forced(SiteProvider(site)) ||
             (ParseChoice(choice) == Auto && DetectedAs(Strip(source), site))
    requires fetch(site, Strip(source)) in {None, Some("")}
    ensures ForceProviderEmbed(choice, source, fetch) == Ok(StoredEmbed(Custom, Strip(source), ""))
  {
    OEmbedStored(choice, source, fetch, site);
    assert Markup(fetch(site, Strip(source))) == [];
  }

  /** A successful oEmbed lookup stores the site's provider, the stripped URL and the markup
      the endpoint returned. */
  lemma OEmbedSuccess(choice: string, source: string, fetch: OEmbedOracle, site: OEmbedSite, html: string)
    requires ParseChoice(choice) == Forced(SiteProvider(site)) ||
             (ParseChoice(choice) == Auto && DetectedAs(Strip(source), site))
    requires html != [] && fetch(site, Strip(source)) == Some(html)
    ensures ForceProviderEmbed(choice, source, fetch) == Ok(StoredEmbed(SiteProvider(site), Strip(source), html))
  {
    OEmbedStored(choice, source, fetch, site);
    OutcomeOfMarkup(site, Strip(source), fetch, html);
  }

  /** A lookup that returns markup gives the site's provider with that markup. */
  lemma OutcomeOfMarkup(site: OEmbedSite, url: string, fetch: OEmbedOracle, html: string)
    requires html != [] && fetch(site, url) == Some(html)
    ensures OEmbedOutcome(site, url, fetch) == StoredEmbed(SiteProvider(site), url, html)
  {
  }

  /** With automatic detection of a provider other than Reddit and TikTok, the detected embed
      is stored without markup. */
  lemma AutoWithoutOEmbed(choice: string, source: string, fetch: OEmbedOracle)
    requires ParseChoice(choice) == Auto
    requires NormalizeEmbed(Strip(source)).Ok? && NormalizeEmbed(Strip(source)).value.provider !in {Reddit, TikTok}
    ensures var n := NormalizeEmbed(Strip(source)).value;
            ForceProviderEmbed(choice, source, fetch) == Ok(StoredEmbed(n.provider, n.url, ""))
  {
    ForceIsDecide(choice, source, fetch);
    DecideAutoPlain(Strip(source), NormalizeEmbed(Strip(source)), fetch);
  }

  /** A stored embed `r` follows the detection `n`: the same error, or the same embed URL
      and the same provider, except a Reddit or TikTok post downgraded to custom. */
  predicate FollowsDetection(r: Result<StoredEmbed, EmbedError>, n: Result<Embed, EmbedError>) {
    && (n.Err? ==> r == Err(n.error))
    && (n.Ok? ==> r.Ok? && r.value.embedUrl == n.value.url)
    && (n.Ok? ==> r.Ok? && (r.value.provider == n.value.provider ||
                            (r.value.provider == Custom && n.value.provider in {Reddit, TikTok})))
  }

  /** Automatic detection agrees with `normalize_embed`: the same provider (unless an oEmbed
      lookup fails), the same embed URL, and the same errors. */
  lemma AutoFollowsDetection(choice: string, source: string, fetch: OEmbedOracle)
    requires ParseChoice(choice) == Auto
    ensures FollowsDetection(ForceProviderEmbed(choice, source, fetch), NormalizeEmbed(Strip(source)))
  {
    ForceIsDecide(choice, source, fetch);
    DecideAutoFollows(Strip(source), NormalizeEmbed(Strip(source)), fetch);
  }

  lemma DecideAutoFollows(url: string, n: Result<Embed, EmbedError>, fetch: OEmbedOracle)
    ensures FollowsDetection(DecideEmbed(Auto, url, n, fetch), n)
  {
  }

  /** What an explicit YouTube, Vimeo or Loom choice `p` stores for the URL `url`, given
      what `normalize_embed` makes of it. */
  predicate KeepsChoice(r: Result<StoredEmbed, EmbedError>, n: Result<Embed, EmbedError>, p: Provider, url: string) {
    && (n.Err? <==> r.Err?)
    && (r.Ok? ==> r.value.provider == p && r.value.embedHtml == "")
    && (n.Ok? && n.value.provider == p ==> r.value.embedUrl == n.value.url)
    && (n.Ok? && n.value.provider != p ==> r.value.embedUrl == url)
  }

  lemma DecideExplicit(url: string, detected: Result<Embed, EmbedError>, fetch: OEmbedOracle, p: Provider)
    requires p in {YouTube, Vimeo, Loom}
    ensures KeepsChoice(DecideEmbed(Forced(p), url, detected, fetch), detected, p, url)
  {
  }

  /** An explicit YouTube, Vimeo or Loom choice keeps its tag: the canonical embed when the
      URL is detected as that provider, the stripped URL otherwise, and never markup. */
  lemma ExplicitChoiceKept(choice: string, source: string, fetch: OEmbedOracle, p: Provider)
    requires p in {YouTube, Vimeo, Loom} && ParseChoice(choice) == Forced(p)
    ensures KeepsChoice(ForceProviderEmbed(choice, source, fetch), NormalizeEmbed(Strip(source)), p, Strip(source))
  {
    ForceIsDecide(choice, source, fetch);
    DecideExplicit(Strip(source), NormalizeEmbed(Strip(source)), fetch, p);
  }

  /** An explicit custom choice, or any tag that names no provider, stores the stripped URL
      verbatim, even an empty one. */
  lemma CustomChoice(choice: string, source: string, fetch: OEmbedOracle)
    requires ParseChoice(choice) == Forced(Custom)
    ensures ForceProviderEmbed(choice, source, fetch) == Ok(StoredEmbed(Custom, Strip(source), ""))
  {
    ForceIsDecide(choice, source, fetch);
    DecideCustom(Strip(source), NormalizeEmbed(Strip(source)), fetch);
  }

  lemma DecideCustom(url: string, detected: Result<Embed, EmbedError>, fetch: OEmbedOracle)
    ensures DecideEmbed(Forced(Custom), url, detected, fetch) == Ok(StoredEmbed(Custom, url, ""))
  {
  }

  /** A tag outside "", "auto" and the provider names is read as custom. */
  lemma UnknownTagIsCustom(tag: string)
    requires tag !in {"", "auto", "reddit", "tiktok", "youtube", "vimeo", "loom"}
    ensures ChoiceOfTag(tag) == Forced(Custom)
  {
  }

  lemma DecideOracleIrrelevant(c: Choice, url: string, detected: Result<Embed, EmbedError>, f1: OEmbedOracle, f2: OEmbedOracle)
    requires c !in {Auto, Forced(Reddit), Forced(TikTok)}
    ensures DecideEmbed(c, url, detected, f1) == DecideEmbed(c, url, detected, f2)
  {
  }

  /** Only Reddit and TikTok choices, and automatic detection, consult the oEmbed endpoints:
      for every other choice the result is the same whatever the endpoints reply. */
  lemma OracleIrrelevant(choice: string, source: string, f1: OEmbedOracle, f2: OEmbedOracle)
    requires ParseChoice(choice) !in {Auto, Forced(Reddit), Forced(TikTok)}
    ensures ForceProviderEmbed(choice, source, f1) == ForceProviderEmbed(choice, source, f2)
  {
    ForceIsDecide(choice, source, f1);
    ForceIsDecide(choice, source, f2);
    DecideOracleIrrelevant(ParseChoice(choice), Strip(source), NormalizeEmbed(Strip(source)), f1, f2);
  }

  /** Automatic detection consults an endpoint only for a URL detected as that site's post:
      endpoints that agree on the detected site give the same result. */
  lemma AutoConsultsDetectedSiteOnly(choice: string, source: string, f1: OEmbedOracle, f2: OEmbedOracle)
    requires ParseChoice(choice) == Auto
    requires forall site :: DetectedAs(Strip(source), site) ==> f1(site, Strip(source)) == f2(site, Strip(source))
    ensures ForceProviderEmbed(choice, source, f1) == ForceProviderEmbed(choice, source, f2)
  {
    ForceIsDecide(choice, source, f1);
    ForceIsDecide(choice, source, f2);
    DecideAutoConsults(Strip(source), NormalizeEmbed(Strip(source)), f1, f2);
  }

  lemma DecideAutoConsults(url: string, detected: Result<Embed, EmbedError>, f1: OEmbedOracle, f2: OEmbedOracle)
    requires forall site :: detected.Ok? && detected.value.provider == SiteProvider(site) ==> f1(site, url) == f2(site, url)
    ensures DecideEmbed(Auto, url, detected, f1) == DecideEmbed(Auto, url, detected, f2)
  {
    if detected.Ok? {
      if detected.value.provider == Reddit { assert SiteProvider(RedditSite) == Reddit; }
      if detected.value.provider == TikTok { assert SiteProvider(TikTokSite) == TikTok; }
    }
  }

  /** Only the detecting choices can fail. */
  lemma ErrorsOnlyWhenDetecting(choice: string, source: string, fetch: OEmbedOracle)
    ensures ForceProviderEmbed(choice, source, fetch).Err? ==> Detecting(ParseChoice(choice))
  {
  }

  lemma DecideAutoPlain(url: string, detected: Result<Embed, EmbedError>, fetch: OEmbedOracle)
    requires detected.Ok? && detected.value.provider !in {Reddit, TikTok}
    ensures var n := detected.value;
            DecideEmbed(Auto, url, detected, fetch) == Ok(StoredEmbed(n.provider, n.url, ""))
  {
  }

  lemma AutoTag(choice: string)
    requires choice == "auto"
    ensures ParseChoice(choice) == Auto
  {
    StripVisible(choice);
    LowerNoCapitals(choice);
  }

  /** The watch-page example with the provider left on automatic: a YouTube embed without
      markup. */
  lemma AutoWatchUrlExample(choice: string, host: string, id: string, fetch: OEmbedOracle)
    requires choice == "auto" && host == "www.youtube.com" && id == "abc123"
    ensures ForceProviderEmbed(choice, "https://" + host + "/watch?v=" + id, fetch) ==
            Ok(StoredEmbed(YouTube, YouTubeEmbedBase + id, ""))
  {
    var source := "https://" + host + "/watch?v=" + id;
    ForceIsDecide(choice, source, fetch);
    AutoTag(choice);
    StripVisibleWatch(host, id);
    WatchUrlExample(host, id);
    DecideAutoPlain(source, NormalizeEmbed(source), fetch);
  }

  lemma StripVisibleWatch(host: string, id: string)
    requires host == "www.youtube.com" && id == "abc123"
    ensures Strip("https://" + host + "/watch?v=" + id) == "https://" + host + "/watch?v=" + id
  {
    var source := "https://" + host + "/watch?v=" + id;
    assert source[0] == 'h' && source[|source| - 1] == '3';
    StripVisible(source);
  }
}
