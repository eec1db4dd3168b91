# MyTube — a Dafny model of its embed resolution and table bookkeeping

MyTube is a small Flask video gallery. An admin pastes a video URL. The application turns
it into a player embed and stores it in a video row. Visitors then watch, like and comment
on the videos, and playlists chain them together. This project models the logic of
`app.py` that decides what gets stored and what a page shows:

- **Embed resolution.** `normalize_embed` turns a pasted URL into a provider and an iframe
  URL. It matches substrings of the lower-cased host name and extracts a YouTube, youtu.be,
  Vimeo or Loom id. Reddit and TikTok posts are kept as pasted, and anything else is a
  custom embed (modules `Url`, `Embed`).
- **Provider choice.** `force_provider_embed` combines the admin's provider choice with
  that detection and with the Reddit and TikTok oEmbed lookups. The lookups are an oracle
  parameter `(site, url) -> Option<string>` (modules `Embed`, `ForceProperties`).
- **Playlist queries.** `get_video_playlist`, `get_playlist_items` and
  `get_next_in_playlist_id` are functions over the `playlist_items` table. The edit form's
  playlist and position fields are parsed as Python's `int()` does (module `Playlists`).
- **Comment rows.** The comment form resolves its author and body (module `Comments`).
- **Username guards.** The reserved main-admin name and the locked main-admin account are
  checked in `register` and `admin_user_edit` (module `Accounts`).
- **Table updates.** The database is a class `Store.Store`. Each table is a map, set or
  sequence field, and each handler is a method that changes only the tables it names:
  - `watch`: view counter and `watch_history` upsert;
  - `like`: like row and counter;
  - `comment`: new comment row;
  - `admin_add`: new video row;
  - `admin_video_edit`: video columns, new playlist and playlist membership;
  - `register`;
  - `admin_user_edit`.

  Every method keeps `Valid()`, the schema's keys, UNIQUE and foreign-key constraints
  together with the invariants the handlers maintain:
  - every video's like counter equals its number of `video_likes` rows;
  - there is one history row per (user, video);
  - a video is in at most one playlist, at a position of at least 1;
  - every stored embed is consistent with its source URL;
  - the seeded main-admin account is present.

  The module-level `*KeepsTables` lemmas in `store.dfy` prove one invariant step per SQL
  statement (module `Tables`, `Store`).

The backend followed is SQLite, with `PRAGMA foreign_keys = ON` (app.py:343). A handler that
ends in an error leaves every table as it was. Under SQLite the failing statement is
rejected, and the uncommitted ones are discarded when the connection closes.

## Model

| member | source | states |
|---|---|---|
| Text.Strip | app.py:623 | `str.strip()`: the result is empty exactly when the input is all whitespace, otherwise it starts and ends with a non-space, and a string already free of whitespace at both ends comes back unchanged |
| Text.StripIsSlice | app.py:623 | `str.strip()` returns the slice of the input left between a whitespace prefix and a whitespace suffix |
| Text.StripIdempotent | app.py:665-666 | stripping twice is stripping once, so `force_provider_embed` re-stripping a stripped URL changes nothing |
| Text.StripCharIs | app.py:645 | `s.strip(c)` is the slice of `s` left between a run of `c` at the start and a run of `c` at the end |
| Text.SplitJoin | app.py:636-637 | joining the pieces of `s.split(sep)` with `sep` gives back `s`, and no piece contains `sep` |
| Text.Lower | app.py:628 | `str.lower()` on ASCII capitals: same length, no capital left, other characters unchanged, each capital replaced by its small letter |
| Text.Take | app.py:1041 | slicing `[:n]`: a prefix of at most n characters, the whole string when it is short enough, exactly n characters otherwise |
| Url.UrlSplit | app.py:627 | `urlsplit` fails only on unbalanced IPv6 brackets; the network location holds no '/', '?' or '#', the path no '?' or '#', the query no '#' |
| Url.Hostname | app.py:628 | `.hostname` holds no '@', and is the network location itself when that has no '@', '[' or ':' |
| Url.UrlParse | app.py:627 | `urlparse` fails exactly as `urlsplit` does; otherwise it has the split's scheme, network location, query and fragment, and its path is the split path without its `;params` for the schemes that use them |
| Url.ParamsCut | app.py:627 | `_splitparams` keeps the path up to the first ';' of its last segment, and the whole path when that segment has no ';' |
| Url.QueryValue | app.py:636-637 | the first `v` value that `parse_qs` keeps is never empty |
| Url.FirstValueFirst | app.py:636-637 | among the query's fields, none exactly when no field gives `v` a non-empty value, and otherwise the value of the first field that does |
| Url.QueryValueFirst | app.py:636-637 | the fields are the '&'-separated pieces of the query, and the `v` value is that of the first piece giving one, none when no piece does |
| Url.SegmentAfter | app.py:639-640 | a `/shorts/` or `/share/` match yields a non-empty segment |
| Url.SegmentAfterFirst | app.py:639-640 | `re.search(marker + "([^/?]+)")`: none exactly when no occurrence of the marker is followed by a character other than '/' and '?', and otherwise the longest run of such characters after the leftmost such occurrence |
| Url.DigitsAfterSlash | app.py:650-652 | the Vimeo match is a non-empty run of decimal digits of any script, as `\d` matches in a `str` pattern |
| Url.DigitsAfterSlashFirst | app.py:650-652 | `re.search(r"/(\d+)")`: none exactly when no '/' is followed by a digit, and otherwise the whole run of digits after the leftmost such '/' |
| Url.FirstSegment | app.py:645 | the youtu.be id contains no '/' |
| Url.FirstSegmentIs | app.py:645 | `path.strip("/").split("/")[0]` is the run that starts after the leading slashes and ends at the next '/' or the end; it is empty exactly for a path of slashes |
| Url.SplitHttps | app.py:627 | `urlsplit` of an https URL with a plain host splits into that host, the path before the first '?', and the query after it |
| Url.ParseHttps | app.py:627 | `urlparse("https://" + host + path)` has that host and path and no query |
| Url.ParseHttpsQuery | app.py:627 | `urlparse("https://" + host + path + "?" + query)` has that host, path and query |
| Embed.ResolveByHost | app.py:635-661 | the rules after Reddit/TikTok give YouTube, Vimeo, Loom or custom; custom keeps the URL; YouTube, Vimeo and Loom give their canonical base followed by a non-empty id, and a Vimeo id is all decimal digits |
| Embed.NormalizeEmbed | app.py:622-661 | refuses the URL as empty exactly when it is blank; Reddit, TikTok and custom keep the stripped URL; YouTube, Vimeo and Loom give the canonical embed forms |
| Embed.NormalizeDetects | app.py:622-633 | on a stripped URL, detection fails as empty exactly for the empty URL, and Reddit, TikTok and custom keep it |
| Embed.ParseChoice | app.py:665 | the stripped, lower-cased choice means detection exactly when it is "" or "auto", and a provider name selects that provider |
| Embed.DecideEmbed | app.py:668-701 | the decision fails only with the detection's own error; an explicit provider other than custom is kept; auto keeps the detected embed URL and the detected provider or custom |
| Embed.ChoiceOfTag | app.py:668-701 | "" and "auto" mean detection; each provider name selects that provider; every other tag falls to custom |
| Embed.Markup | app.py:672 | `fetch(...) or ""`: markup is non-empty only when the lookup returned exactly it |
| Embed.DecideConsistent | app.py:668-701 | for every choice, a stored embed has markup exactly for Reddit/TikTok, and Reddit, TikTok and custom embeds play the URL as given |
| Embed.DecideMarkup | app.py:668-701 | stored markup always comes from the oEmbed oracle of the stored provider's site |
| Embed.DecideErrors | app.py:668-701 | only auto, youtube, vimeo and loom can fail; they fail as "empty URL" exactly when the URL is empty |
| Embed.ForceProviderEmbed | app.py:664-701 | the stored triple is consistent with the stripped URL; markup is present only for Reddit/TikTok and only as the oracle returned it; errors arise only from the choices that call `normalize_embed`, and "empty URL" exactly when such a choice meets a blank URL |
| EmbedProperties.BlankUrlRefused | app.py:623-625 | an empty or whitespace-only URL is refused and names no provider |
| EmbedProperties.NormalizeParsed | app.py:627-661 | a stripped, parsed URL whose host is not Reddit's or TikTok's is resolved by the remaining rules |
| EmbedProperties.QueryValueSingle | app.py:636-637 | `parse_qs(name + "=" + value)[name][0] == value` for a name without '=', '&', '+' or '%' and a non-empty value without '&', '+' or '%', the characters `parse_qs` would split on or decode |
| EmbedProperties.EmptyQuery | app.py:636-637 | an empty query has no `v` value |
| EmbedProperties.SegmentAfterMarker | app.py:639-640 | the segment right after a leading marker is found |
| EmbedProperties.DigitPrefixAll | app.py:650 | a string of digits is its own digit prefix |
| EmbedProperties.FirstSegmentOne | app.py:645 | `"/" + id` strips and splits to `id` |
| EmbedProperties.WatchQueryResolves | app.py:635-642 | a youtube.com host with `v=<id>`, for a non-empty id without '&', '+' or '%', resolves to the canonical YouTube embed |
| EmbedProperties.WatchUrl | app.py:635-642 | `https://<youtube host>/watch?v=<id>` embeds `https://www.youtube.com/embed/<id>` for a non-empty visible id that `parse_qs` leaves as typed (no '#', '&', '+' or '%') |
| EmbedProperties.PlainNormalize | app.py:627-661 | a plain https URL outside Reddit/TikTok is resolved by the remaining rules on its lower-cased host |
| EmbedProperties.ShortsUrl | app.py:638-642 | `https://<youtube host>/shorts/<id>` embeds `https://www.youtube.com/embed/<id>` |
| EmbedProperties.ShortsResolves | app.py:638-642 | without a `v` value the shorts segment is the YouTube id |
| EmbedProperties.ShortLinkUrl | app.py:644-647 | `https://<youtu.be host>/<id>` embeds `https://www.youtube.com/embed/<id>` |
| EmbedProperties.ShortLinkResolves | app.py:644-647 | the first path segment of a youtu.be URL is the YouTube id |
| EmbedProperties.VimeoUrl | app.py:649-653 | `https://<vimeo host>/<decimal digits>` embeds `https://player.vimeo.com/video/<digits>` |
| EmbedProperties.VimeoResolves | app.py:649-653 | the digits after the first slash are the Vimeo id |
| EmbedProperties.LoomUrl | app.py:655-659 | `https://<loom host>/share/<id>` embeds `https://www.loom.com/embed/<id>` |
| EmbedProperties.LoomResolves | app.py:655-659 | the segment after `/share/` is the Loom id |
| EmbedProperties.PostUrl | app.py:630-633 | Reddit and TikTok post URLs are returned unchanged under their provider |
| EmbedProperties.UnknownHostUrl | app.py:661 | a host no rule names gives a custom embed of the URL verbatim |
| EmbedProperties.YouTubeWithoutId | app.py:635-661 | a youtube.com URL without a `v` value or shorts segment falls through and becomes custom |
| EmbedProperties.WatchUrlExample | app.py:635-642 | `https://www.youtube.com/watch?v=abc123` embeds `https://www.youtube.com/embed/abc123` |
| EmbedProperties.UnknownHostExample | app.py:661 | `https://example.com/abc` is stored verbatim as custom |
| ForceProperties.ForceIsDecide | app.py:664-701 | `force_provider_embed` is the decision on the parsed choice, the stripped URL and its detection |
| ForceProperties.DecideOEmbed | app.py:668-687 | an explicit Reddit/TikTok choice, or auto detection of that site, stores the oEmbed outcome |
| ForceProperties.OEmbedStored | app.py:668-687 | when Reddit/TikTok is chosen or auto-detected, the stored row is exactly the outcome of the oEmbed lookup of the stripped URL |
| ForceProperties.OEmbedFailureDowngrades | app.py:671-687 | a failed or empty oEmbed lookup, under auto or an explicit Reddit/TikTok choice, stores `("custom", url, "")` |
| ForceProperties.OEmbedSuccess | app.py:671-687 | a successful lookup stores the site's provider, the URL and the returned markup |
| ForceProperties.AutoWithoutOEmbed | app.py:668-679 | auto detection of a provider other than Reddit/TikTok stores the detected embed without markup |
| ForceProperties.AutoFollowsDetection | app.py:668-679 | auto mode fails exactly as `normalize_embed` does, keeps its embed URL, and keeps its provider except for a Reddit/TikTok post downgraded to custom |
| ForceProperties.DecideAutoFollows | app.py:668-679 | the auto branch follows whatever detection it is given |
| ForceProperties.DecideExplicit | app.py:689-699 | an explicit youtube/vimeo/loom branch keeps the tag, uses the canonical URL only when detection agrees, and stores no markup |
| ForceProperties.ExplicitChoiceKept | app.py:689-699 | an explicit youtube, vimeo or loom choice keeps its tag; the embed URL is canonical when `normalize_embed` detects that provider and the raw URL otherwise; no markup |
| ForceProperties.CustomChoice | app.py:701 | an explicit custom or unrecognised choice stores `("custom", url, "")`, even for an empty URL |
| ForceProperties.DecideCustom | app.py:701 | the custom branch ignores detection and the oracle |
| ForceProperties.UnknownTagIsCustom | app.py:668-701 | a tag outside "", "auto" and the provider names is read as custom |
| ForceProperties.OracleIrrelevant | app.py:689-701 | youtube, vimeo, loom, custom and unknown choices give the same result whatever the oEmbed endpoints reply |
| ForceProperties.DecideOracleIrrelevant | app.py:689-701 | the same, on the decision function |
| ForceProperties.AutoConsultsDetectedSiteOnly | app.py:668-679 | auto mode consults only the endpoint of the detected site |
| ForceProperties.DecideAutoConsults | app.py:668-679 | the same, on the decision function |
| ForceProperties.ErrorsOnlyWhenDetecting | app.py:664-701 | only the choices that call `normalize_embed` can fail |
| ForceProperties.DecideAutoPlain | app.py:668-679 | auto with a non-oEmbed detection stores that detection without markup |
| ForceProperties.AutoWatchUrlExample | app.py:668-679 | "auto" on the watch URL example stores a YouTube embed without markup |
| Playlists.PlaylistOf | app.py:705-725 | `get_video_playlist`: a playlist that holds the video, and none exactly when no playlist does |
| Playlists.PlaylistOfUnique | app.py:705-725 | with one playlist per video, the query returns exactly the playlist holding the video |
| Playlists.NextInPlaylist | app.py:750-779 | None when the video is not in the playlist; otherwise None exactly when no item lies later, and else an item at the smallest later position |
| Playlists.LastHasNoNext | app.py:762-779 | the last item has no successor (no wrap-around) |
| Playlists.NextIsLater | app.py:762-779 | the next item lies strictly later and is never the current video |
| Playlists.NextSkipsNothing | app.py:762-779 | every later item is at or after the next one, whichever tied item is returned |
| Playlists.NextPositionDetermined | app.py:762-779 | tied answers share one position |
| Playlists.BeforeTotal | app.py:736 | the listing order compares any two rows |
| Playlists.BeforeTransitive | app.py:736 | the listing order is transitive |
| Playlists.Listing | app.py:728-747 | `get_playlist_items`: every member exactly once, ordered by position ascending, then creation time descending |
| Playlists.ListingCons | app.py:728-747 | the least row followed by a listing of the others is a listing of all |
| Playlists.Members | app.py:732-735 | the rows of a playlist are exactly its `playlist_items` rows whose video exists, each with its stored position and its video's creation time |
| Playlists.ParseInt | app.py:1236 | `int()` on a field the handler has already stripped (app.py:1232-1234): a value comes back only for text with no whitespace at either end |
| Playlists.ParseIntTooLong | app.py:1236 | Python's `int()` refuses a numeral of more than 4300 digits (underscores not counted), so such a field gives no value |
| Playlists.ParseIntRefuses | app.py:1236 | `int()` refuses text holding a character other than a digit or '_', save a leading sign |
| Playlists.ParseIntNeedsDigit | app.py:1236 | `int()` refuses text without a digit, such as a lone sign |
| Playlists.DecimalValue | app.py:1236 | the digits of `str(n)` read back as n |
| Playlists.ParseDecimal | app.py:1236 | `int(str(n)) == n` when `str(n)` has at most 4300 digits, and a refusal beyond |
| Playlists.ParseNegativeDecimal | app.py:1236 | `int("-" + str(n)) == -n` when `str(n)` has at most 4300 digits, and a refusal beyond |
| Playlists.PlaylistPosition | app.py:1234-1240 | the position is at least 1; a parsed value of at least 1 is kept; empty, unparsable (including numerals over 4300 digits) and smaller values give 1 |
| Playlists.PositionOfDecimal | app.py:1234-1240 | a typed positive number of at most 4300 digits is kept; 0 and longer numerals become 1 |
| Playlists.PositionOfNegative | app.py:1234-1240 | a negative position becomes 1 |
| Playlists.ReadPlaylistRequest | app.py:1232-1283 | a non-blank new name asks for a new playlist named by its first 120 characters; otherwise a field that parses names that id; "none", empty and unparsable fields (including numerals over 4300 digits) ask for none |
| Playlists.Reassign | app.py:1285-1313 | the delete and the upsert on the `playlist_items` map: the chosen playlist holds the video at the given position; other videos' rows are untouched; any other row of the video is an old one outside the current playlist |
| Playlists.ReassignMembership | app.py:1285-1313 | after the delete and the upsert, the video is in exactly the chosen playlist at the given position, and no other video's rows change |
| Playlists.ReassignKeepsInvariants | app.py:1285-1313 | reassignment keeps one playlist per video and positions of at least 1 |
| Comments.AuthorName | app.py:1018-1028 | the stripped author field, else the signed-in user's name, else the anonymous label |
| Comments.ResolveComment | app.py:1017-1041 | refused exactly when the body is blank; otherwise the body is a non-empty prefix of the stripped body of at most 1000 characters, and the whole body when it fits; the author is a prefix of the resolved name, the whole name when it has at most 50 characters and its first 50 otherwise; the body likewise keeps exactly its first 1000 characters |
| Comments.ExplicitAuthorWins | app.py:1018-1028 | a typed name wins over the signed-in user's name |
| Comments.SignedInAuthor | app.py:1025-1026 | a signed-in user who leaves the name empty comments under their username |
| Comments.AnonymousAuthor | app.py:1027-1028 | a visitor who leaves the name empty comments under the anonymous label |
| Comments.LongBodyCut | app.py:1041 | a long body keeps exactly its first 1000 characters |
| Comments.LongAuthorCut | app.py:1041 | a long author name keeps exactly its first 50 characters |
| Accounts.CheckRegistration | app.py:1117-1131 | registration passes exactly when the stripped username and password are non-empty, the passwords match, and the name is not the admin name in any letter case; in the source's order, missing fields are reported first, then mismatched passwords, then the reserved name, each exactly when the earlier checks pass |
| Accounts.IsMainAdmin | app.py:1365 | the lower-cased comparison with the admin name: the exact admin name matches, and a match has its length |
| Accounts.ReservedInAnyCase | app.py:1129-1131 | every case spelling of the admin name is refused as reserved |
| Accounts.MainAdminInAnyCase | app.py:1365-1368 | the main admin account is recognised in any case spelling |
| Tables.AddUserKeepsUnique | app.py:465 | inserting a free name keeps usernames unique |
| Tables.RenameKeepsUnique | app.py:465 | renaming to the same or a free name keeps usernames unique |
| Tables.Likers | app.py:522-530 | the like rows of one video |
| Tables.LikersAdd | app.py:969-980 | a new like row adds one to its own video's likers and no other's |
| Tables.FirstLikeCounted | app.py:969-980 | a first like and the counter increment keep each counter equal to its row count |
| Tables.EditKeepsCounted | app.py:1248-1264 | replacing a video's other columns keeps the counters |
| Tables.NewVideoCounted | app.py:1185-1203 | a new video starts with no likes and no like rows |
| Tables.RowFor | app.py:495-504 | the history row of a (user, video) pair, and none exactly when there is no such row |
| Tables.RowForUnique | app.py:501 | with the UNIQUE constraint, the row found is the pair's only row |
| Tables.UpsertKeepsUnique | app.py:861-880 | the history upsert keeps one row per pair |
| Tables.UpsertCounts | app.py:861-880 | a watch adds one to the pair's count and stamps its row with the watch time; every other pair's count is unchanged |
| Tables.Upserted | app.py:861-880 | `ON CONFLICT ... DO UPDATE`: every old row keeps its (user, video) pair, and the only possible new row is the pair's row under `nextId` with a count of 1 |
| Tables.Upsert | app.py:861-880 | the upsert as one step: the new table and the next id are those of `Upserted` |
| Tables.FirstWatch | app.py:864-865 | the first watch of a pair creates its row with a count of 1 |
| Store.WatchKeepsHistory | app.py:861-880 | a watch by an existing user of an existing video keeps the history table valid |
| Store.VideoEditKeepsTables | app.py:1248-1264 | replacing a video's columns other than its counter keeps every table valid |
| Store.NewVideoKeepsTables | app.py:1185-1203 | inserting a valid video under the next id keeps every table valid |
| Store.LikeKeepsTables | app.py:969-980 | a first like with its counter increment keeps every table valid |
| Store.WatchKeepsTables | app.py:861-880 | the history upsert keeps every table valid |
| Store.CommentKeepsTables | app.py:1030-1043 | appending a valid comment keeps every table valid |
| Store.NewPlaylistKeepsTables | app.py:1267-1278 | inserting a playlist under the next id keeps every table valid |
| Store.MoveKeepsTables | app.py:1285-1313 | reassigning a video to an existing playlist at a positive position keeps every table valid |
| Store.NewUserKeepsTables | app.py:1133-1141 | inserting an account with a free name keeps every table valid |
| Store.UserEditKeepsTables | app.py:1375-1399 | updating an account other than the main admin's to the same or a free name keeps every table valid |
| Store.ProviderField | app.py:1229 | `(provider or "auto").strip().lower()`: an empty field reads "auto", and the result has no capitals |
| Store.ProviderFieldChoice | app.py:1229 | the admin form's field gives the same choice as `force_provider_embed`'s own parsing, the "auto" default included |
| Store.Store.constructor | app.py:543-549 | the tables start empty except for the main admin account, and are valid |
| Store.Store.IsAdmin | app.py:577-580 | `require_admin()` passes exactly for a signed-in existing user whose admin flag is set |
| Store.Store.CurrentUser | app.py:558-569 | the signed-in account exactly when the session names an existing user |
| Store.Store.NextVideo | app.py:905-912 | the watch page's next video is an existing video later in the playlist holding the current one, and none without a playlist |
| Store.Store.PlaylistListing | app.py:905-911 | the playlist's rows are exactly its members that are existing videos, at their stored positions, in listing order |
| Store.Store.FindPlaylist | app.py:705-725 | returns the playlist holding the video, if any |
| Store.Store.UpdateVideo | app.py:1248-1264 | replaces the video's row and keeps the tables valid |
| Store.Store.InsertVideo | app.py:1185-1203 | adds the row under the next id and keeps the tables valid |
| Store.Store.InsertLike | app.py:969-980 | adds the like row and one to the counter, keeping the tables valid |
| Store.Store.UpsertHistory | app.py:861-880 | performs the history upsert and keeps the tables valid |
| Store.Store.InsertComment | app.py:1030-1043 | appends the comment and keeps the tables valid |
| Store.Store.InsertPlaylist | app.py:1267-1278 | adds the playlist under the next id and keeps the tables valid |
| Store.Store.MoveToPlaylist | app.py:1285-1313 | replaces the membership as `Reassign` does and keeps the tables valid |
| Store.Store.InsertUser | app.py:1133-1141 | adds the account under the next id and keeps the tables valid |
| Store.Store.UpdateUser | app.py:1375-1399 | replaces the account's row and keeps the tables valid |
| Store.Store.SaveEdit | app.py:1248-1313 | commits the video row, the new playlist when one is named, and the membership change together |
| Store.Store.Watch | app.py:840-912 | 404 for a missing video; otherwise views grow by one unless `noview` is "1"; a signed-in viewer's history row is bumped or created with a count of 1; reports whether that viewer likes the video |
| Store.Store.Like | app.py:946-1004 | 404, then login required; a first like adds the pair and exactly one to the counter, a repeat changes nothing and is still reported as liked; the reply's count equals the video's number of like rows |
| Store.Store.PostComment | app.py:1007-1045 | 404, then a blank body is refused; otherwise exactly the resolved comment is appended with the signed-in user's id |
| Store.Store.AddVideo | app.py:1166-1208 | 403 for a non-admin, a missing title or URL is refused, an embed error stores nothing; otherwise the stripped fields and the decided embed are stored under a fresh id with no views and likes |
| Store.Store.EditVideo | app.py:1210-1317 | 403, 404, missing title or URL, embed error, a chosen playlist id or position outside SQLite's 64-bit INTEGER (the `OverflowError` of the upsert, app.py:1296-1313) exactly then, and an id that names no playlist all save nothing; with a decided embed and a new, existing or no playlist the edit succeeds, the video's columns are replaced, a named new playlist is created, and the membership moves to the chosen playlist at the clamped position |
| Store.Store.Register | app.py:1114-1151 | the registration checks, then a taken username is refused exactly when it is taken; passing checks with a free name create the account, which is never an admin and never the main admin |
| Store.Store.EditUser | app.py:1351-1402 | 403, 404, and the main admin's account in any letter case are refused; a new name that is taken is refused exactly then; otherwise the edit succeeds and the name, the admin flag and the password hash are updated; the main admin's row never changes |

## Left out

- Flask plumbing is not modelled. This covers routing, redirects, `flash` messages, the JSON-or-redirect choice in `like`, templates and session cookies. The session is an `Option<nat>` user id.
- The i18n table and `t()` are string lookups only. The anonymous author label is a parameter, and errors are datatype values.
- The SQL dialect helpers, driver selection, `get_db`, `init_db`'s migrations and the Postgres backend are not modelled. The model follows SQLite with foreign keys on.
- Integer widths outside the edit form are not modelled. A route id such as `<int:video_id>` beyond 64 bits makes `sqlite3` raise `OverflowError` (a 500) where the model answers 404; the Postgres backend's 32-bit `INTEGER` columns are not modelled either. The edit form's playlist id and position are bounded (Store.Store.EditVideo).
- The oEmbed HTTP requests are network I/O. They are the oracle parameter `fetch`.
- Password hashing is a foreign library. The hash is a parameter `passwordHash`.
- Timestamps come from the clock. They are a `now: nat` parameter counting whole seconds, as `datetime(created_at)` reads the stored ISO time when the listings order by it; the fraction of a second (which the Postgres cast `::timestamp` would keep) is not modelled.
- Search and sort in `index`, the `recommended` query, and the `history` page are out of scope. Their behaviour lives in SQL `LIKE` and datetime casts.
- The comment listing on the watch page is out of scope, and so is `login`/`logout`.
- `admin_delete` and the cascading deletes it triggers are out of scope.
- Concurrency and atomicity between requests are not modelled. Each handler is one atomic step.
- Playlists.NextInPlaylist: which of several items tied at the next position comes back is left open. `LIMIT 1` has no secondary order, so the model picks with `:|` and the lemmas speak only of the position.
- Playlists.Listing: the order of rows that tie on both position and creation time is left open, for the same reason.
- Playlists.PlaylistOf: with several memberships `LIMIT 1` picks one arbitrarily. `Valid()` keeps one membership per video, so the choice is then determined.
- Url.UrlParse: percent-decoding in `parse_qs` is not modelled, so the query lemmas (EmbedProperties.QueryValueSingle, WatchQueryResolves, WatchUrl) speak only of values without '%'. Neither is the validation of IPv6 bracket contents (only unbalanced brackets raise), nor port validation, nor the NFKC check of a non-ASCII network location (`_checknetloc` raises when normalisation brings in '/', '?', '#', '@' or ':'). The lemmas about parsed URLs (Url.SplitHttps, Url.ParseHttps, Url.ParseHttpsQuery and the URL lemmas of `EmbedProperties`) therefore speak only of ASCII hosts, where that check does nothing.
- Embed.NormalizeEmbed: for a non-ASCII host that NFKC normalisation turns into one holding '/', '?', '#', '@' or ':', the source's `urlsplit` raises; the model resolves such a URL by the host rules instead (see Url.UrlParse above).
- Url.Hostname: `.hostname` also lower-cases its result. The model leaves that to the `.lower()` that app.py:628 applies next, so the host the rules see is the same.
- Text.Lower and Accounts.CheckRegistration: `str.lower()` and the case-insensitive admin check cover ASCII letters only, not Unicode case mapping.
- Store.Store.Watch: the view increment and the history upsert are committed separately in the source. The model makes them one step, which no other request can interleave with.
- Store.Store.Like: the source's non-unique database failure branch is not reachable once the video and the user exist, so it is not modelled.
- Store.Store.EditVideo: the form's GET rendering (playlist dropdown) is not modelled.
- Store.Store.EditUser: the form's GET rendering is not modelled.
