/** What `normalize_embed` and `force_provider_embed` make of the URL forms users paste,
    and how the admin's provider choice interacts with detection and the oEmbed lookups. */
module EmbedProperties {
  import opened Common
  import opened Text
  import opened Url
  import opened Embed

  // ---------------------------------------------------------------------------------
  // Parser facts used by the URL-form lemmas.

  /** A URL that starts and ends with visible characters is its own stripped form. */
  lemma StripVisible(url: string)
    requires url != [] && Visible(url[0]) && Visible(url[|url| - 1])
    ensures Strip(url) == url
  {
  }

  /** `parse_qs("name=value")["name"][0] == value` for a single plain field: one without
      '+' or a '%' escape, which `parse_qs` would decode. */
  lemma {:induction false} QueryValueSingle(name: string, value: string)
    requires '=' !in name && '&' !in name && '+' !in name && '%' !in name
    requires value != [] && '&' !in value && '+' !in value && '%' !in value
    ensures QueryValue(name + "=" + value, name) == Some(value)
  {
    var f := name + "=" + value;
    FindIs(f, {'&'}, |f|);
    assert f[..|f|] == f;
    assert Split(f, '&') == [f];
    FindIs(f, {'='}, |name|);
    assert f[..|name|] == name;
    assert f[|name| + 1..] == value;
    ReplaceCharAbsent(name, '+', ' ');
    ReplaceCharAbsent(value, '+', ' ');
  }

  /** An empty query has no values. */
  lemma EmptyQuery(name: string)
    ensures QueryValue("", name) == None
  {
    FindIs("", {'&'}, 0);
    assert Split("", '&') == [""];
    FindIs("", {'='}, 0);
    assert [""][1..] == [];
    assert FirstValue([""], name) == FirstValue([], name);
  }

  /** The segment after a marker at the very start of a path. */
  lemma SegmentAfterMarker(marker: string, id: string)
    requires marker != [] && id != [] && '/' !in id && '?' !in id
    ensures SegmentAfter(marker + id, marker) == Some(id)
  {
    var path := marker + id;
    assert path[..|marker|] == marker;
    assert path[|marker|..] == id;
    FindIs(id, {'/', '?'}, |id|);
    assert id[..|id|] == id;
  }

  lemma {:induction false} DigitPrefixAll(digits: string)
    requires forall k :: 0 <= k < |digits| ==> IsDecimalDigit(digits[k])
    ensures DigitPrefix(digits) == digits
  {
    if digits != [] {
      DigitPrefixAll(digits[1..]);
    }
  }

  lemma FirstSegmentOne(id: string)
    requires '/' !in id
    ensures FirstSegment("/" + id) == id
  {
    assert ("/" + id)[1..] == id;
    FindIs(id, {'/'}, |id|);
    assert id[..|id|] == id;
  }

  /** The hosts that the rules before YouTube's claim. */
  predicate RedditOrTikTok(h: string) {
    Contains(h, "reddit.com") || Contains(h, "redd.it") || Contains(h, "tiktok.com")
  }

  /** Parse facts for an https URL with a plain host and path and no query. */
  lemma PlainHttps(host: string, path: string)
    requires PlainHost(host) && PlainPath(path)
    ensures var url := "https://" + host + path;
            Strip(url) == url && url != [] &&
            UrlParse(url) == Ok(UrlParts("https", host, path, "", "")) &&
            Host(UrlParts("https", host, path, "", "")) == Lower(host)
  {
    var url := "https://" + host + path;
    assert url[|url| - 1] == path[|path| - 1];
    StripVisible(url);
    ParseHttps(host, path);
    HostnamePlain(host);
  }

  /** Parse facts for an https URL with a plain host, path and query. */
  lemma PlainHttpsQuery(host: string, path: string, query: string)
    requires PlainHost(host) && PlainPath(path) && PlainQuery(query) && query != []
    ensures var url := "https://" + host + path + "?" + query;
            Strip(url) == url && url != [] &&
            UrlParse(url) == Ok(UrlParts("https", host, path, query, "")) &&
            Host(UrlParts("https", host, path, query, "")) == Lower(host)
  {
    var url := "https://" + host + path + "?" + query;
    assert url[|url| - 1] == query[|query| - 1];
    StripVisible(url);
    ParseHttpsQuery(host, path, query);
    HostnamePlain(host);
  }

  /** Once the URL is stripped and parsed, a host the Reddit and TikTok rules do not claim
      is resolved by the remaining rules. */
  lemma NormalizeParsed(url: string, p: UrlParts)
    requires url != [] && Strip(url) == url && UrlParse(url) == Ok(p) && !RedditOrTikTok(Host(p))
    ensures NormalizeEmbed(url) == Ok(ResolveByHost(Host(p), p, url))
  {
  }

  lemma PlainQueryField(id: string)
    requires PlainQuery(id)
    ensures PlainQuery("v=" + id)
  {
    var query := "v=" + id;
    forall k | 0 <= k < |query| ensures Visible(query[k]) && query[k] != '#' {
      if k >= 2 { assert query[k] == id[k - 2]; }
    }
  }

  // ---------------------------------------------------------------------------------
  // normalize_embed on the URL forms of each provider.

  /** A blank URL is refused and names no provider. */
  lemma BlankUrlRefused(source: string)
    requires forall k :: 0 <= k < |source| ==> IsSpace(source[k])
    ensures NormalizeEmbed(source) == Err(EmptyUrl)
  {
  }

  /** The parsed watch URL resolves to the canonical embed of its `v` value. */
  lemma WatchQueryResolves(host: string, id: string, url: string)
    requires PlainHost(host) && Contains(Lower(host), "youtube.com")
    requires id != [] && '&' !in id && '+' !in id && '%' !in id
    ensures ResolveByHost(Lower(host), UrlParts("https", host, "/watch", "v=" + id, ""), url) ==
            Embed(YouTube, YouTubeEmbedBase + id)
  {
    QueryValueSingle("v", id);
    assert "v" + "=" + id == "v=" + id;
  }

  /** `https://<youtube host>/watch?v=<id>` embeds `https://www.youtube.com/embed/<id>`. */
  lemma WatchUrl(host: string, id: string)
    requires PlainHost(host) && Contains(Lower(host), "youtube.com") && !RedditOrTikTok(Lower(host))
    requires id != [] && PlainQuery(id) && '&' !in id && '+' !in id && '%' !in id
    ensures NormalizeEmbed("https://" + host + "/watch?v=" + id) == Ok(Embed(YouTube, YouTubeEmbedBase + id))
  {
    var query := "v=" + id;
    var url := "https://" + host + "/watch" + "?" + query;
    var p := UrlParts("https", host, "/watch", query, "");
    assert "https://" + host + "/watch?v=" + id == url;
    assert PlainPath("/watch");
    PlainQueryField(id);
    PlainHttpsQuery(host, "/watch", query);
    NormalizeParsed(url, p);
    WatchQueryResolves(host, id, url);
  }

  /** An https URL with a plain host the Reddit and TikTok rules do not claim, a plain
      path and no query is resolved by the remaining rules on its lower-cased host. */
  lemma PlainNormalize(host: string, path: string)
    requires PlainHost(host) && PlainPath(path) && !RedditOrTikTok(Lower(host))
    ensures var url := "https://" + host + path;
            NormalizeEmbed(url) == Ok(ResolveByHost(Lower(host), UrlParts("https", host, path, "", ""), url))
  {
    var url := "https://" + host + path;
    PlainHttps(host, path);
    NormalizeParsed(url, UrlParts("https", host, path, "", ""));
  }

  /** A plain path made of a marker and a plain id. */
  lemma MarkedPathPlain(marker: string, id: string)
    requires PlainPath(marker) && PlainPath("/" + id)
    ensures PlainPath(marker + id)
  {
    var path := marker + id;
    forall k | 0 <= k < |path| ensures Visible(path[k]) && path[k] !in {'?', '#', ';'} {
      if k >= |marker| { assert path[k] == ("/" + id)[k - |marker| + 1]; }
    }
  }

  /** An id that is a plain path after its slash has no '?'. */
  lemma PlainIdNoQuery(id: string)
    requires PlainPath("/" + id)
    ensures '?' !in id
  {
    assert forall k :: 0 <= k < |id| ==> id[k] == ("/" + id)[k + 1];
  }

  /** `https://<youtube host>/shorts/<id>` embeds `https://www.youtube.com/embed/<id>`. */
  lemma ShortsUrl(host: string, id: string)
    requires PlainHost(host) && Contains(Lower(host), "youtube.com") && !RedditOrTikTok(Lower(host))
    requires id != [] && '/' !in id && PlainPath("/" + id)
    ensures NormalizeEmbed("https://" + host + "/shorts/" + id) == Ok(Embed(YouTube, YouTubeEmbedBase + id))
  {
    var path := "/shorts/" + id;
    assert "https://" + host + "/shorts/" + id == "https://" + host + path;
    MarkedPathPlain("/shorts/", id);
    PlainNormalize(host, path);
    ShortsResolves(host, id, "https://" + host + path);
  }

  lemma ShortsResolves(host: string, id: string, url: string)
    requires Contains(Lower(host), "youtube.com")
    requires id != [] && '/' !in id && PlainPath("/" + id)
    ensures ResolveByHost(Lower(host), UrlParts("https", host, "/shorts/" + id, "", ""), url) ==
            Embed(YouTube, YouTubeEmbedBase + id)
  {
    EmptyQuery("v");
    PlainIdNoQuery(id);
    SegmentAfterMarker("/shorts/", id);
  }

  /** `https://<youtu.be host>/<id>` embeds `https://www.youtube.com/embed/<id>`. */
  lemma ShortLinkUrl(host: string, id: string)
    requires PlainHost(host) && Contains(Lower(host), "youtu.be")
    requires !RedditOrTikTok(Lower(host)) && !Contains(Lower(host), "youtube.com")
    requires id != [] && '/' !in id && PlainPath("/" + id)
    ensures NormalizeEmbed("https://" + host + "/" + id) == Ok(Embed(YouTube, YouTubeEmbedBase + id))
  {
    assert "https://" + host + "/" + id == "https://" + host + ("/" + id);
    PlainNormalize(host, "/" + id);
    ShortLinkResolves(host, id, "https://" + host + ("/" + id));
  }

  lemma ShortLinkResolves(host: string, id: string, url: string)
    requires Contains(Lower(host), "youtu.be") && !Contains(Lower(host), "youtube.com")
    requires id != [] && '/' !in id
    ensures ResolveByHost(Lower(host), UrlParts("https", host, "/" + id, "", ""), url) ==
            Embed(YouTube, YouTubeEmbedBase + id)
  {
    FirstSegmentOne(id);
  }

  /** `https://<vimeo host>/<digits>` embeds `https://player.vimeo.com/video/<digits>`. */
  lemma VimeoUrl(host: string, digits: string)
    requires PlainHost(host) && Contains(Lower(host), "vimeo.com")
    requires !RedditOrTikTok(Lower(host)) && !Contains(Lower(host), "youtube.com") && !Contains(Lower(host), "youtu.be")
    requires digits != [] && forall k :: 0 <= k < |digits| ==> IsDecimalDigit(digits[k])
    ensures NormalizeEmbed("https://" + host + "/" + digits) == Ok(Embed(Vimeo, VimeoEmbedBase + digits))
  {
    var path := "/" + digits;
    assert "https://" + host + "/" + digits == "https://" + host + path;
    assert PlainPath(path) by {
      forall k | 0 <= k < |path| ensures Visible(path[k]) && path[k] !in {'?', '#', ';'} {
        if k >= 1 {
          assert path[k] == digits[k - 1];
          DigitVisible(digits[k - 1]);
        }
      }
    }
    PlainNormalize(host, path);
    VimeoResolves(host, digits, "https://" + host + path);
  }

  lemma VimeoResolves(host: string, digits: string, url: string)
    requires Contains(Lower(host), "vimeo.com")
    requires !Contains(Lower(host), "youtube.com") && !Contains(Lower(host), "youtu.be")
    requires digits != [] && forall k :: 0 <= k < |digits| ==> IsDecimalDigit(digits[k])
    ensures ResolveByHost(Lower(host), UrlParts("https", host, "/" + digits, "", ""), url) ==
            Embed(Vimeo, VimeoEmbedBase + digits)
  {
    assert ("/" + digits)[1..] == digits;
    DigitPrefixAll(digits);
  }

  /** `https://<loom host>/share/<id>` embeds `https://www.loom.com/embed/<id>`. */
  lemma LoomUrl(host: string, id: string)
    requires PlainHost(host) && Contains(Lower(host), "loom.com")
    requires !RedditOrTikTok(Lower(host)) && !Contains(Lower(host), "youtube.com")
    requires !Contains(Lower(host), "youtu.be") && !Contains(Lower(host), "vimeo.com")
    requires id != [] && '/' !in id && PlainPath("/" + id)
    ensures NormalizeEmbed("https://" + host + "/share/" + id) == Ok(Embed(Loom, LoomEmbedBase + id))
  {
    var path := "/share/" + id;
    assert "https://" + host + "/share/" + id == "https://" + host + path;
    MarkedPathPlain("/share/", id);
    PlainNormalize(host, path);
    LoomResolves(host, id, "https://" + host + path);
  }

  lemma LoomResolves(host: string, id: string, url: string)
    requires Contains(Lower(host), "loom.com")
    requires !Contains(Lower(host), "youtube.com") && !Contains(Lower(host), "youtu.be") && !Contains(Lower(host), "vimeo.com")
    requires id != [] && '/' !in id && PlainPath("/" + id)
    ensures ResolveByHost(Lower(host), UrlParts("https", host, "/share/" + id, "", ""), url) ==
            Embed(Loom, LoomEmbedBase + id)
  {
    PlainIdNoQuery(id);
    SegmentAfterMarker("/share/", id);
  }

  /** Reddit and TikTok post URLs are kept exactly as pasted (for the oEmbed lookup). */
  lemma PostUrl(host: string, path: string)
    requires PlainHost(host) && PlainPath(path) && RedditOrTikTok(Lower(host))
    ensures var url := "https://" + host + path;
            NormalizeEmbed(url) ==
            Ok(Embed(if Contains(Lower(host), "reddit.com") || Contains(Lower(host), "redd.it") then Reddit else TikTok, url))
  {
    PlainHttps(host, path);
  }

  /** A host that no rule names gives a custom embed of the URL as pasted. */
  lemma UnknownHostUrl(host: string, path: string)
    requires PlainHost(host) && PlainPath(path) && !RedditOrTikTok(Lower(host))
    requires !Contains(Lower(host), "youtube.com") && !Contains(Lower(host), "youtu.be")
    requires !Contains(Lower(host), "vimeo.com") && !Contains(Lower(host), "loom.com")
    ensures NormalizeEmbed("https://" + host + path) == Ok(Embed(Custom, "https://" + host + path))
  {
    PlainHttps(host, path);
  }

  /** A youtube.com URL with neither a `v` value nor a shorts segment falls through the
      remaining rules and, on a host no later rule names, becomes custom. */
  lemma YouTubeWithoutId(host: string, path: string)
    requires PlainHost(host) && PlainPath(path) && !RedditOrTikTok(Lower(host))
    requires Contains(Lower(host), "youtube.com") && SegmentAfter(path, "/shorts/") == None
    requires !Contains(Lower(host), "youtu.be") && !Contains(Lower(host), "vimeo.com") && !Contains(Lower(host), "loom.com")
    ensures NormalizeEmbed("https://" + host + path) == Ok(Embed(Custom, "https://" + host + path))
  {
    PlainHttps(host, path);
    EmptyQuery("v");
  }

  /** The host facts the watch-page example relies on. */
  lemma YouTubeHostFacts()
    ensures PlainHost("www.youtube.com") && Lower("www.youtube.com") == "www.youtube.com"
    ensures Contains("www.youtube.com", "youtube.com") && !RedditOrTikTok("www.youtube.com")
  {
    var host := "www.youtube.com";
    LowerNoCapitals(host);
    YouTubeHostPlain(host);
    YouTubeHostNamed(host);
    YouTubeHostClaimed(host);
  }

  lemma YouTubeHostNamed(host: string)
    requires host == "www.youtube.com"
    ensures Contains(host, "youtube.com")
  {
    assert OccursAt(host, "youtube.com", 4);
  }

  lemma YouTubeHostPlain(host: string)
    requires host == "www.youtube.com"
    ensures PlainHost(host)
  {
    assert forall k :: 0 <= k < |host| ==> host[k] in "wyoutbecm.";
  }

  lemma YouTubeHostClaimed(host: string)
    requires host == "www.youtube.com"
    ensures !RedditOrTikTok(host)
  {
    NotContainsWithout(host, "reddit.com", 0);
    NotContainsWithout(host, "redd.it", 0);
    NotContainsWithout(host, "tiktok.com", 2);
  }

  /** The host facts the unknown-site example relies on. */
  lemma ExampleHostFacts()
    ensures PlainHost("example.com") && Lower("example.com") == "example.com" && !RedditOrTikTok("example.com")
    ensures !Contains("example.com", "youtube.com") && !Contains("example.com", "youtu.be")
    ensures !Contains("example.com", "vimeo.com") && !Contains("example.com", "loom.com")
  {
    var host := "example.com";
    LowerNoCapitals(host);
    ExampleHostPlain(host);
    ExampleHostClaimed(host);
    ExampleHostUnnamed(host);
  }

  lemma ExampleHostPlain(host: string)
    requires host == "example.com"
    ensures PlainHost(host)
  {
    assert forall k :: 0 <= k < |host| ==> host[k] in "examplco.";
  }

  lemma ExampleHostClaimed(host: string)
    requires host == "example.com"
    ensures !RedditOrTikTok(host)
  {
    NotContainsWithout(host, "reddit.com", 0);
    NotContainsWithout(host, "redd.it", 0);
    NotContainsWithout(host, "tiktok.com", 0);
  }

  lemma ExampleHostUnnamed(host: string)
    requires host == "example.com"
    ensures !Contains(host, "youtube.com") && !Contains(host, "youtu.be")
    ensures !Contains(host, "vimeo.com") && !Contains(host, "loom.com")
  {
    NotContainsWithout(host, "youtube.com", 0);
    NotContainsWithout(host, "youtu.be", 0);
    NotContainsWithout(host, "vimeo.com", 0);
    NotContainsByChar(host, "loom.com", 1);
  }

  /** The watch-page example: `https://www.youtube.com/watch?v=abc123` embeds
      `https://www.youtube.com/embed/abc123`. */
  lemma WatchUrlExample(host: string, id: string)
    requires host == "www.youtube.com" && id == "abc123"
    ensures NormalizeEmbed("https://" + host + "/watch?v=" + id) == Ok(Embed(YouTube, YouTubeEmbedBase + id))
  {
    YouTubeHostFacts();
    WatchUrl(host, id);
  }

  /** An unknown site: `https://example.com/abc` is embedded verbatim as custom. */
  lemma UnknownHostExample(host: string, path: string)
    requires host == "example.com" && path == "/abc"
    ensures NormalizeEmbed("https://" + host + path) == Ok(Embed(Custom, "https://" + host + path))
  {
    ExampleHostFacts();
    UnknownHostUrl(host, path);
  }
}
