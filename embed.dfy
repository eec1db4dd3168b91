/** Resolution of a pasted video URL to the embed that a video row stores
    (`normalize_embed` and `force_provider_embed` in app.py). */
module Embed {
  import opened Common
  import opened Text
  import opened Url

  /** The providers a video row can name in `videos.provider`. */
  datatype Provider = YouTube | Reddit | TikTok | Vimeo | Loom | Custom

  /** The tag stored in `videos.provider` and accepted as the admin's explicit choice. */
  function ProviderName(p: Provider): string {
    match p
    case YouTube => "youtube"
    case Reddit => "reddit"
    case TikTok => "tiktok"
    case Vimeo => "vimeo"
    case Loom => "loom"
    case Custom => "custom"
  }

  /** `normalize_embed` raises `ValueError` for a blank URL (with the localised "empty URL"
      message) and lets `urlparse`'s `ValueError` for a malformed IPv6 host through. */
  datatype EmbedError = EmptyUrl | InvalidUrl

  /** A provider and the URL to put in the player's iframe. */
  datatype Embed = Embed(provider: Provider, url: string)

  const YouTubeEmbedBase: string := "https://www.youtube.com/embed/"
  const VimeoEmbedBase: string := "https://player.vimeo.com/video/"
  const LoomEmbedBase: string := "https://www.loom.com/embed/"

  /** The YouTube video id of a youtube.com URL: the first non-empty `v` query value,
      else the segment after `/shorts/`. */
  function YouTubeId(p: UrlParts): Option<string> {
    match QueryValue(p.query, "v")
    case Some(v) => Some(v)
    case None => SegmentAfter(p.path, "/shorts/")
  }

  /** The rules after the Reddit and TikTok ones, in source order; a rule whose host
      matches but that finds no id falls through to the next one. */
  function ResolveByHost(host: string, p: UrlParts, url: string): (e: Embed)
    ensures e.provider in {YouTube, Vimeo, Loom, Custom}
    ensures e.provider == Custom ==> e.url == url
    ensures e.provider == YouTube ==> Canonical(e.url, YouTubeEmbedBase)
    ensures e.provider == Vimeo ==>
              Canonical(e.url, VimeoEmbedBase) &&
              forall k :: |VimeoEmbedBase| <= k < |e.url| ==> IsDecimalDigit(e.url[k])
    ensures e.provider == Loom ==> Canonical(e.url, LoomEmbedBase)
  {
    var youtube := if Contains(host, "youtube.com") then YouTubeId(p) else None;
    if youtube.Some? then Embed(YouTube, YouTubeEmbedBase + youtube.value)
    else
      var short := if Contains(host, "youtu.be") then FirstSegment(p.path) else "";
      if short != "" then Embed(YouTube, YouTubeEmbedBase + short)
      else
        var vimeo := if Contains(host, "vimeo.com") then DigitsAfterSlash(p.path) else None;
        if vimeo.Some? then Embed(Vimeo, VimeoEmbedBase + vimeo.value)
        else
          var loom := if Contains(host, "loom.com") then SegmentAfter(p.path, "/share/") else None;
          if loom.Some? then Embed(Loom, LoomEmbedBase + loom.value)
          else Embed(Custom, url)
  }

  /** A URL of the canonical form `base + id` for a non-empty id. */
  predicate Canonical(url: string, base: string) {
    StartsWith(url, base) && |url| > |base|
  }

  /** `normalize_embed(source_url)`. */
  function NormalizeEmbed(source: string): (r: Result<Embed, EmbedError>)
    ensures r == Err(EmptyUrl) <==> IsBlank(source)
    ensures r.Ok? && r.value.provider in {Reddit, TikTok, Custom} ==> r.value.url == Strip(source)
    ensures r.Ok? && r.value.provider == YouTube ==> Canonical(r.value.url, YouTubeEmbedBase)
    ensures r.Ok? && r.value.provider == Vimeo ==>
              Canonical(r.value.url, VimeoEmbedBase) &&
              forall k :: |VimeoEmbedBase| <= k < |r.value.url| ==> IsDecimalDigit(r.value.url[k])
    ensures r.Ok? && r.value.provider == Loom ==> Canonical(r.value.url, LoomEmbedBase)
  {
    var url := Strip(source);
    if url == [] then Err(EmptyUrl)
    else
      match UrlParse(url)
      case Err(_) => Err(InvalidUrl)
      case Ok(p) =>
        var host := Host(p);
        if Contains(host, "reddit.com") || Contains(host, "redd.it") then Ok(Embed(Reddit, url))
        else if Contains(host, "tiktok.com") then Ok(Embed(TikTok, url))
        else
          Ok(ResolveByHost(host, p, url))
  }

  // ---------------------------------------------------------------------------------
  // The admin's provider choice and the oEmbed lookups.

  /** The two oEmbed endpoints the application queries. */
  datatype OEmbedSite = RedditSite | TikTokSite

  /** `reddit_oembed_html(url)` / `tiktok_oembed_html(url)`: the `html` member of the
      endpoint's JSON reply, or None when the request, the decoding or the lookup fails. */
  type OEmbedOracle = (OEmbedSite, string) -> Option<string>

  /** `fetch(...) or ""`: a failed lookup and an empty reply both give no markup. */
  function Markup(reply: Option<string>): (html: string)
    ensures html != [] ==> reply == Some(html)
  {
    match reply
    case Some(html) => html
    case None => ""
  }

  function SiteProvider(site: OEmbedSite): Provider {
    match site
    case RedditSite => Reddit
    case TikTokSite => TikTok
  }

  /** The (provider, embed_url, embed_html) triple stored in a video row. */
  datatype StoredEmbed = StoredEmbed(provider: Provider, embedUrl: string, embedHtml: string)

  /** The stored-embed invariant: markup is present exactly for Reddit and TikTok rows,
      and those rows, like custom ones, play the URL as given. */
  predicate Consistent(e: StoredEmbed, url: string) {
    && (e.embedHtml != [] <==> e.provider in {Reddit, TikTok})
    && (e.provider in {Reddit, TikTok, Custom} ==> e.embedUrl == url)
  }

  /** The admin's provider field after `.strip().lower()`: "" and "auto" ask for detection;
      every tag other than the five provider names falls to the final custom branch. */
  datatype Choice = Auto | Forced(provider: Provider)

  function ChoiceOfTag(tag: string): (c: Choice)
    ensures c == Auto <==> tag in {"", "auto"}
    ensures c.Forced? && c.provider != Custom ==> tag == ProviderName(c.provider)
    ensures forall p :: tag == ProviderName(p) ==> c == Forced(p)
  {
    if tag == "" || tag == "auto" then Auto
    else if tag == "reddit" then Forced(Reddit)
    else if tag == "tiktok" then Forced(TikTok)
    else if tag == "youtube" then Forced(YouTube)
    else if tag == "vimeo" then Forced(Vimeo)
    else if tag == "loom" then Forced(Loom)
    else Forced(Custom)
  }

  /** `(provider_choice or "").strip().lower()` read as a choice. */
  function ParseChoice(raw: string): (c: Choice)
    ensures c == Auto <==> Lower(Strip(raw)) in {"", "auto"}
    ensures forall p :: Lower(Strip(raw)) == ProviderName(p) ==> c == Forced(p)
  {
    ChoiceOfTag(Lower(Strip(raw)))
  }

  /** An explicit Reddit or TikTok choice: the oEmbed markup, or a downgrade to custom. */
  function FromOEmbed(site: OEmbedSite, url: string, fetch: OEmbedOracle): StoredEmbed {
    var html := Markup(fetch(site, url));
    if html != [] then StoredEmbed(SiteProvider(site), url, html) else StoredEmbed(Custom, url, "")
  }

  /** What `normalize_embed` promises about a URL that is already stripped: it refuses it
      as empty exactly when it is empty, and Reddit, TikTok and custom embeds keep it. */
  predicate Detection(detected: Result<Embed, EmbedError>, url: string) {
    && (detected == Err(EmptyUrl) <==> url == [])
    && (detected.Ok? && detected.value.provider in {Reddit, TikTok, Custom} ==> detected.value.url == url)
  }

  lemma NormalizeDetects(url: string)
    requires Strip(url) == url
    ensures Detection(NormalizeEmbed(url), url)
  {
  }

  /** The body of `force_provider_embed` for a parsed choice and a stripped URL, given what
      `normalize_embed` makes of that URL (the branches that do not call it ignore it). */
  function DecideEmbed(choice: Choice, url: string, detected: Result<Embed, EmbedError>, fetch: OEmbedOracle)
    : (r: Result<StoredEmbed, EmbedError>)
    ensures r.Err? ==> detected.Err? && r.error == detected.error
    ensures choice.Forced? && r.Ok? && r.value.provider != Custom ==> r.value.provider == choice.provider
    ensures choice == Auto && r.Ok? ==>
              && detected.Ok?
              && r.value.provider in {detected.value.provider, Custom}
              && r.value.embedUrl == detected.value.url
  {
    match choice
    case Auto =>
      (match detected
       case Err(e) => Err(e)
       case Ok(n) =>
         var html := if n.provider == Reddit then Markup(fetch(RedditSite, url))
                     else if n.provider == TikTok then Markup(fetch(TikTokSite, url))
                     else "";
         var provider := if n.provider in {Reddit, TikTok} && html == [] then Custom else n.provider;
         Ok(StoredEmbed(provider, n.url, html)))
    case Forced(Reddit) => Ok(FromOEmbed(RedditSite, url, fetch))
    case Forced(TikTok) => Ok(FromOEmbed(TikTokSite, url, fetch))
    case Forced(Custom) => Ok(StoredEmbed(Custom, url, ""))
    case Forced(p) =>
      (match detected
       case Err(e) => Err(e)
       case Ok(n) => Ok(if n.provider == p then StoredEmbed(p, n.url, "") else StoredEmbed(p, url, "")))
  }

  lemma DecideConsistent(choice: Choice, url: string, detected: Result<Embed, EmbedError>, fetch: OEmbedOracle)
    requires Detection(detected, url)
    ensures var r := DecideEmbed(choice, url, detected, fetch);
            r.Ok? ==> Consistent(r.value, url)
  {
  }

  lemma DecideMarkup(choice: Choice, url: string, detected: Result<Embed, EmbedError>, fetch: OEmbedOracle)
    ensures var r := DecideEmbed(choice, url, detected, fetch);
            r.Ok? && r.value.embedHtml != [] ==>
              (r.value.provider == Reddit && fetch(RedditSite, url) == Some(r.value.embedHtml)) ||
              (r.value.provider == TikTok && fetch(TikTokSite, url) == Some(r.value.embedHtml))
  {
    if choice == Auto {
      match detected
      case Err(_) =>
      case Ok(n) =>
    }
  }

  lemma DecideErrors(choice: Choice, url: string, detected: Result<Embed, EmbedError>, fetch: OEmbedOracle)
    requires Detection(detected, url)
    ensures var r := DecideEmbed(choice, url, detected, fetch);
            && (r.Err? ==> choice in {Auto, Forced(YouTube), Forced(Vimeo), Forced(Loom)})
            && (r == Err(EmptyUrl) <==> choice in {Auto, Forced(YouTube), Forced(Vimeo), Forced(Loom)} && url == [])
  {
  }

  /** `force_provider_embed(provider_choice, source_url)`, with the oEmbed endpoints as an
      oracle. */
  function ForceProviderEmbed(choice: string, source: string, fetch: OEmbedOracle): (r: Result<StoredEmbed, EmbedError>)
    ensures r.Ok? ==> Consistent(r.value, Strip(source))
    ensures r.Ok? && r.value.embedHtml != [] ==>
              (r.value.provider == Reddit && fetch(RedditSite, Strip(source)) == Some(r.value.embedHtml)) ||
              (r.value.provider == TikTok && fetch(TikTokSite, Strip(source)) == Some(r.value.embedHtml))
    ensures r.Err? ==> ParseChoice(choice) in {Auto, Forced(YouTube), Forced(Vimeo), Forced(Loom)}
    ensures r == Err(EmptyUrl) <==>
              ParseChoice(choice) in {Auto, Forced(YouTube), Forced(Vimeo), Forced(Loom)} && IsBlank(source)
  {
    var url := Strip(source);
    StripIdempotent(source);
    NormalizeDetects(url);
    var detected := NormalizeEmbed(url);
    DecideConsistent(ParseChoice(choice), url, detected, fetch);
    DecideMarkup(ParseChoice(choice), url, detected, fetch);
    DecideErrors(ParseChoice(choice), url, detected, fetch);
    DecideEmbed(ParseChoice(choice), url, detected, fetch)
  }
}
