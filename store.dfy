/** The application's database as one object, and the state changes of the request
    handlers (`watch`, `like`, `comment`, `admin_add`, `admin_video_edit`, `register`,
    `admin_user_edit`), each as one atomic method. A handler that ends in an error leaves the
    database as it was: SQLite rejects the failing statement, and changes not yet committed
    are discarded when the connection closes. */
module Store {
  import opened Common
  import opened Text
  import opened Embed
  import opened Playlists
  import opened Comments
  import opened Accounts
  import opened Tables

  /** How a handler refuses a request: 404, 403, the like endpoint's "login required",
      the messages the forms flash back, and the 500 an uncaught database or URL error
      produces. */
  datatype Failure =
    | NotFound
    | Forbidden
    | LoginRequired
    | CommentEmpty
    | TitleAndUrlRequired
    | EmbedFailed(error: EmbedError)
    | UnknownPlaylist
    | IntegerTooLarge
    | MainAdminLocked
    | RegisterRefused(reason: RegisterError)

  /** The like endpoint's JSON answer. */
  datatype LikeReply = LikeReply(likes: nat, liked: bool)

  /** The admin form's provider field: `(provider or "auto").strip().lower()`. */
  function ProviderField(raw: string): (tag: string)
    ensures raw == [] ==> tag == "auto"
    ensures Lower(tag) == tag
  {
    if raw == "" then "auto"
    else
      var s := Strip(raw);
      LowerNoCapitals(Lower(s));
      Lower(s)
  }

  /** The `or "auto"` default does not change the choice: an empty field and an explicit
      "auto" both ask for detection. */
  lemma ProviderFieldChoice(raw: string)
    ensures ChoiceOfTag(ProviderField(raw)) == ParseChoice(raw)
  {
    if raw == "" {
      assert Strip(raw) == [];
      assert Lower(Strip(raw)) == [];
    } else {
      assert ProviderField(raw) == Lower(Strip(raw));
    }
  }

  /** The playlist the edit form names: a new playlist takes the next id. */
  function ChosenPlaylist(request: PlaylistRequest, freshId: nat): Option<int> {
    match request
    case NewPlaylist(_) => Some(freshId)
    case ExistingPlaylist(id) => Some(id)
    case NoPlaylist => None
  }

  /** The chosen playlist's id and the position can be bound as parameters of the
      membership upsert; with no playlist chosen nothing is bound. */
  predicate MembershipBindable(chosen: Option<int>, position: int) {
    chosen.Some? ==> Bindable(chosen.value) && Bindable(position)
  }

  function AsPlaylistId(chosen: Option<int>): Option<nat>
    requires chosen.Some? ==> chosen.value >= 0
  {
    match chosen
    case Some(id) => Some(id as nat)
    case None => None
  }

  // The invariant of each table, stated on the table's value so that a handler's proof
  // only reasons about the tables it changes.

  /** Ids below the next id, unique usernames, and the seeded main admin account. */
  predicate UsersOk(users: map<nat, User>, nextId: nat, adminId: nat, adminName: string) {
    && (forall id :: id in users ==> id < nextId)
    && UniqueNames(users)
    && adminId in users && users[adminId].username == adminName && users[adminId].isAdmin
  }

  predicate VideosOk(videos: map<nat, Video>, nextId: nat) {
    forall id :: id in videos ==> id < nextId && VideoRowOk(videos[id])
  }

  /** Like rows refer to existing rows, and every counter counts its video's rows. */
  predicate LikesOk(likes: set<(nat, nat)>, userIds: set<nat>, videos: map<nat, Video>) {
    && (forall p :: p in likes ==> p.0 in userIds && p.1 in videos)
    && LikesCounted(videos, likes)
  }

  predicate HistoryOk(history: map<nat, HistoryRow>, nextId: nat, userIds: set<nat>, videoIds: set<nat>) {
    && (forall r :: r in history ==>
          r < nextId && history[r].user in userIds && history[r].video in videoIds && history[r].watchCount >= 1)
    && HistoryUnique(history)
  }

  /** Membership rows refer to existing rows; a video is in at most one playlist, at a
      position of at least 1. */
  predicate PlaylistsOk(playlists: map<nat, Playlist>, nextId: nat, items: Items, videoIds: set<nat>) {
    && (forall id :: id in playlists ==> id < nextId)
    && (forall k :: k in items ==> k.0 in playlists && k.1 in videoIds)
    && AtMostOnePlaylist(items)
    && PositionsPositive(items)
  }

  predicate CommentsOk(comments: seq<Comment>, userIds: set<nat>, videoIds: set<nat>) {
    forall i :: 0 <= i < |comments| ==> CommentOk(comments[i], userIds, videoIds)
  }

  /** The invariants of all the tables together. */
  predicate TablesOk(
      users: map<nat, User>, nextUserId: nat, adminId: nat, adminName: string,
      videos: map<nat, Video>, nextVideoId: nat, likes: set<(nat, nat)>,
      history: map<nat, HistoryRow>, nextHistoryId: nat,
      playlists: map<nat, Playlist>, nextPlaylistId: nat, items: Items, comments: seq<Comment>)
  {
    && UsersOk(users, nextUserId, adminId, adminName)
    && VideosOk(videos, nextVideoId)
    && LikesOk(likes, users.Keys, videos)
    && HistoryOk(history, nextHistoryId, users.Keys, videos.Keys)
    && PlaylistsOk(playlists, nextPlaylistId, items, videos.Keys)
    && CommentsOk(comments, users.Keys, videos.Keys)
  }

  /** A watch by an existing user of an existing video keeps the history table valid. */
  lemma WatchKeepsHistory(history: map<nat, HistoryRow>, nextId: nat, userIds: set<nat>, videoIds: set<nat>,
                          u: nat, v: nat, now: nat)
    requires HistoryOk(history, nextId, userIds, videoIds) && u in userIds && v in videoIds
    ensures var next := if RowFor(history, u, v).None? then nextId + 1 else nextId;
            HistoryOk(Upserted(history, nextId, u, v, now), next, userIds, videoIds)
  {
    UpsertKeepsUnique(history, nextId, u, v, now);
  }

  // What each statement a handler runs does to the invariants.

  /** Replacing a video's columns other than its like counter keeps every table valid. */
  lemma VideoEditKeepsTables(
      users: map<nat, User>, nextUserId: nat, adminId: nat, adminName: string,
      videos: map<nat, Video>, nextVideoId: nat, likes: set<(nat, nat)>,
      history: map<nat, HistoryRow>, nextHistoryId: nat,
      playlists: map<nat, Playlist>, nextPlaylistId: nat, items: Items, comments: seq<Comment>,
      v: nat, row: Video)
    requires TablesOk(users, nextUserId, adminId, adminName,
                     videos, nextVideoId, likes, history, nextHistoryId,
                     playlists, nextPlaylistId, items, comments)
    requires v in videos && VideoRowOk(row) && row.likes == videos[v].likes
    ensures TablesOk(users, nextUserId, adminId, adminName,
                     videos[v := row], nextVideoId, likes, history, nextHistoryId,
                     playlists, nextPlaylistId, items, comments)
  {
    EditKeepsCounted(videos, likes, v, row);
    assert videos[v := row].Keys == videos.Keys;
  }

  /** A new video row under the next id, without likes, keeps every table valid. */
  lemma NewVideoKeepsTables(
      users: map<nat, User>, nextUserId: nat, adminId: nat, adminName: string,
      videos: map<nat, Video>, nextVideoId: nat, likes: set<(nat, nat)>,
      history: map<nat, HistoryRow>, nextHistoryId: nat,
      playlists: map<nat, Playlist>, nextPlaylistId: nat, items: Items, comments: seq<Comment>,
      row: Video)
    requires TablesOk(users, nextUserId, adminId, adminName,
                     videos, nextVideoId, likes, history, nextHistoryId,
                     playlists, nextPlaylistId, items, comments)
    requires VideoRowOk(row) && row.likes == 0
    ensures TablesOk(users, nextUserId, adminId, adminName,
                     videos[nextVideoId := row], nextVideoId + 1, likes, history, nextHistoryId,
                     playlists, nextPlaylistId, items, comments)
  {
    assert forall p :: p in likes ==> p.1 != nextVideoId;
    NewVideoCounted(videos, likes, nextVideoId, row);
  }

  /** A first like by an existing user, with its counter bumped, keeps every table valid. */
  lemma LikeKeepsTables(
      users: map<nat, User>, nextUserId: nat, adminId: nat, adminName: string,
      videos: map<nat, Video>, nextVideoId: nat, likes: set<(nat, nat)>,
      history: map<nat, HistoryRow>, nextHistoryId: nat,
      playlists: map<nat, Playlist>, nextPlaylistId: nat, items: Items, comments: seq<Comment>,
      u: nat, v: nat)
    requires TablesOk(users, nextUserId, adminId, adminName,
                     videos, nextVideoId, likes, history, nextHistoryId,
                     playlists, nextPlaylistId, items, comments)
    requires u in users && v in videos && (u, v) !in likes
    ensures TablesOk(users, nextUserId, adminId, adminName,
                     videos[v := videos[v].(likes := videos[v].likes + 1)], nextVideoId, likes + {(u, v)}, history, nextHistoryId,
                     playlists, nextPlaylistId, items, comments)
  {
    assert videos[v := videos[v].(likes := videos[v].likes + 1)].Keys == videos.Keys;
    FirstLikeCounted(videos, likes, u, v);
  }

  /** The history upsert of an existing user and video keeps every table valid. */
  lemma WatchKeepsTables(
      users: map<nat, User>, nextUserId: nat, adminId: nat, adminName: string,
      videos: map<nat, Video>, nextVideoId: nat, likes: set<(nat, nat)>,
      history: map<nat, HistoryRow>, nextHistoryId: nat,
      playlists: map<nat, Playlist>, nextPlaylistId: nat, items: Items, comments: seq<Comment>,
      u: nat, v: nat, now: nat)
    requires TablesOk(users, nextUserId, adminId, adminName,
                     videos, nextVideoId, likes, history, nextHistoryId,
                     playlists, nextPlaylistId, items, comments)
    requires u in users && v in videos
    ensures TablesOk(users, nextUserId, adminId, adminName,
                     videos, nextVideoId, likes, Upserted(history, nextHistoryId, u, v, now), if RowFor(history, u, v).None? then nextHistoryId + 1 else nextHistoryId,
                     playlists, nextPlaylistId, items, comments)
  {
    WatchKeepsHistory(history, nextHistoryId, users.Keys, videos.Keys, u, v, now);
  }

  /** A comment on an existing video, by nobody or an existing user, keeps every table valid. */
  lemma CommentKeepsTables(
      users: map<nat, User>, nextUserId: nat, adminId: nat, adminName: string,
      videos: map<nat, Video>, nextVideoId: nat, likes: set<(nat, nat)>,
      history: map<nat, HistoryRow>, nextHistoryId: nat,
      playlists: map<nat, Playlist>, nextPlaylistId: nat, items: Items, comments: seq<Comment>,
      c: Comment)
    requires TablesOk(users, nextUserId, adminId, adminName,
                     videos, nextVideoId, likes, history, nextHistoryId,
                     playlists, nextPlaylistId, items, comments)
    requires CommentOk(c, users.Keys, videos.Keys)
    ensures TablesOk(users, nextUserId, adminId, adminName,
                     videos, nextVideoId, likes, history, nextHistoryId,
                     playlists, nextPlaylistId, items, comments + [c])
  {
    assert forall i :: 0 <= i < |comments| ==> (comments + [c])[i] == comments[i];
  }

  /** A new playlist under the next id keeps every table valid. */
  lemma NewPlaylistKeepsTables(
      users: map<nat, User>, nextUserId: nat, adminId: nat, adminName: string,
      videos: map<nat, Video>, nextVideoId: nat, likes: set<(nat, nat)>,
      history: map<nat, HistoryRow>, nextHistoryId: nat,
      playlists: map<nat, Playlist>, nextPlaylistId: nat, items: Items, comments: seq<Comment>,
      name: string, now: nat)
    requires TablesOk(users, nextUserId, adminId, adminName,
                     videos, nextVideoId, likes, history, nextHistoryId,
                     playlists, nextPlaylistId, items, comments)
    ensures TablesOk(users, nextUserId, adminId, adminName,
                     videos, nextVideoId, likes, history, nextHistoryId,
                     playlists[nextPlaylistId := Playlist(name, now)], nextPlaylistId + 1, items, comments)
  {
    assert playlists.Keys <= playlists[nextPlaylistId := Playlist(name, now)].Keys;
  }

  /** Moving an existing video to an existing playlist, or out of every playlist, at a
      position of at least 1 keeps every table valid. */
  lemma MoveKeepsTables(
      users: map<nat, User>, nextUserId: nat, adminId: nat, adminName: string,
      videos: map<nat, Video>, nextVideoId: nat, likes: set<(nat, nat)>,
      history: map<nat, HistoryRow>, nextHistoryId: nat,
      playlists: map<nat, Playlist>, nextPlaylistId: nat, items: Items, comments: seq<Comment>,
      v: nat, chosen: Option<nat>, position: int)
    requires TablesOk(users, nextUserId, adminId, adminName,
                     videos, nextVideoId, likes, history, nextHistoryId,
                     playlists, nextPlaylistId, items, comments)
    requires v in videos && (chosen.Some? ==> chosen.value in playlists) && position >= 1
    ensures TablesOk(users, nextUserId, adminId, adminName,
                     videos, nextVideoId, likes, history, nextHistoryId,
                     playlists, nextPlaylistId, Reassign(items, v, PlaylistOf(items, v), chosen, position), comments)
  {
    ReassignMembership(items, v, chosen, position);
    ReassignKeepsInvariants(items, v, chosen, position);
  }

  /** A new account under the next id, with a name nobody has, keeps every table valid. */
  lemma NewUserKeepsTables(
      users: map<nat, User>, nextUserId: nat, adminId: nat, adminName: string,
      videos: map<nat, Video>, nextVideoId: nat, likes: set<(nat, nat)>,
      history: map<nat, HistoryRow>, nextHistoryId: nat,
      playlists: map<nat, Playlist>, nextPlaylistId: nat, items: Items, comments: seq<Comment>,
      row: User)
    requires TablesOk(users, nextUserId, adminId, adminName,
                     videos, nextVideoId, likes, history, nextHistoryId,
                     playlists, nextPlaylistId, items, comments)
    requires !NameTaken(users, row.username)
    ensures TablesOk(users[nextUserId := row], nextUserId + 1, adminId, adminName,
                     videos, nextVideoId, likes, history, nextHistoryId,
                     playlists, nextPlaylistId, items, comments)
  {
    AddUserKeepsUnique(users, nextUserId, row);
  }

  /** Editing an account other than the main admin's, keeping its name or taking a free one,
      keeps every table valid. */
  lemma UserEditKeepsTables(
      users: map<nat, User>, nextUserId: nat, adminId: nat, adminName: string,
      videos: map<nat, Video>, nextVideoId: nat, likes: set<(nat, nat)>,
      history: map<nat, HistoryRow>, nextHistoryId: nat,
      playlists: map<nat, Playlist>, nextPlaylistId: nat, items: Items, comments: seq<Comment>,
      id: nat, row: User)
    requires TablesOk(users, nextUserId, adminId, adminName,
                     videos, nextVideoId, likes, history, nextHistoryId,
                     playlists, nextPlaylistId, items, comments)
    requires id in users && id != adminId
    requires row.username == users[id].username || !NameTaken(users, row.username)
    ensures TablesOk(users[id := row], nextUserId, adminId, adminName,
                     videos, nextVideoId, likes, history, nextHistoryId,
                     playlists, nextPlaylistId, items, comments)
  {
    RenameKeepsUnique(users, id, row);
    assert users[id := row].Keys == users.Keys;
  }

  class Store {
    var users: map<nat, User>
    var videos: map<nat, Video>
    var comments: seq<Comment>
    var history: map<nat, HistoryRow>
    var playlists: map<nat, Playlist>
    var items: Items
    var likes: set<(nat, nat)>
    var nextUserId: nat
    var nextVideoId: nat
    var nextHistoryId: nat
    var nextPlaylistId: nat
    /** `ADMIN_USERNAME` and the id of the account seeded under it. */
    const adminName: string
    const adminId: nat

    /** The constraints of the schema (keys, UNIQUE, foreign keys) and the ones the
        handlers keep: the like counters, at most one playlist per video, positions of at
        least 1, consistent embeds, and the seeded main admin account. */
    ghost predicate Valid()
      reads this
    {
      TablesOk(users, nextUserId, adminId, adminName, videos, nextVideoId, likes, history, nextHistoryId,
               playlists, nextPlaylistId, items, comments)
    }

    /** `init_db`: empty tables and the main admin account. */
    constructor (adminName: string, adminPasswordHash: string)
      ensures Valid()
      ensures this.adminName == adminName && users == map[adminId := User(adminName, adminPasswordHash, true)]
      ensures videos == map[] && comments == [] && history == map[] && playlists == map[]
      ensures items == map[] && likes == {}
    {
      this.adminName := adminName;
      adminId := 1;
      users := map[1 := User(adminName, adminPasswordHash, true)];
      videos := map[];
      comments := [];
      history := map[];
      playlists := map[];
      items := map[];
      likes := {};
      nextUserId := 2;
      nextVideoId := 1;
      nextHistoryId := 1;
      nextPlaylistId := 1;
    }

    /** `current_user()`: the signed-in account, if the session names one that exists. */
    function CurrentUser(session: Option<nat>): (u: Option<nat>)
      reads this
      ensures u.Some? ==> u == session && u.value in users
      ensures u.None? <==> session.None? || session.value == 0 || session.value !in users
    {
      if session.Some? && session.value != 0 && session.value in users then session else None
    }

    /** `require_admin()` lets the request through. */
    predicate IsAdmin(session: Option<nat>)
      reads this
      ensures IsAdmin(session) <==>
                session.Some? && session.value != 0 && session.value in users && users[session.value].isAdmin
    {
      CurrentUser(session).Some? && users[CurrentUser(session).value].isAdmin
    }

    /** `get_next_in_playlist_id` as the watch page calls it: the next video of the
        playlist holding `v`, an existing video later in that playlist. */
    ghost function NextVideo(v: nat): (w: Option<nat>)
      reads this
      requires Valid()
      ensures w.Some? ==>
                && PlaylistOf(items, v).Some?
                && var p := PlaylistOf(items, v).value;
                   (p, w.value) in items && items[(p, w.value)] > items[(p, v)] && w.value in videos
      ensures PlaylistOf(items, v).None? ==> w.None?
    {
      match PlaylistOf(items, v)
      case Some(p) => NextInPlaylist(items, p, v)
      case None => None
    }

    /** `get_playlist_items` for the playlist holding `v`. */
    ghost function PlaylistListing(p: nat): (rows: seq<Entry>)
      reads this
      ensures forall e :: e in rows ==> (p, e.video) in items && e.video in videos && e.position == items[(p, e.video)]
      ensures forall e :: e in rows ==> e.createdAt == videos[e.video].createdAt
      ensures forall k :: k in items && k.0 == p && k.1 in videos ==> Entry(k.1, items[k], videos[k.1].createdAt) in rows
      ensures forall i, j :: 0 <= i < j < |rows| ==> Before(rows[i], rows[j])
    {
      Listing(Members(items, p, map v | v in videos :: videos[v].createdAt))
    }

    // -------------------------------------------------------------------------------
    // The SQL statements the handlers run, one method per statement (or per pair of
    // statements committed together), each keeping the invariant on its own.

    /** `SELECT ... FROM playlist_items WHERE video_id = v LIMIT 1` (`get_video_playlist`). */
    method FindPlaylist(v: nat) returns (p: Option<nat>)
      requires Valid()
      ensures p == PlaylistOf(items, v)
      ensures p.Some? <==> exists k :: k in items && k.1 == v
    {
      p := None;
      if exists k :: k in items && k.1 == v {
        var k :| k in items && k.1 == v;
        p := Some(k.0);
        PlaylistOfUnique(items, v, k.0);
      }
    }

    /** `UPDATE videos SET ... WHERE id = v` for every column but the counters. */
    method UpdateVideo(v: nat, row: Video)
      requires Valid() && v in videos && VideoRowOk(row) && row.likes == videos[v].likes
      modifies this`videos
      ensures Valid()
      ensures videos == old(videos)[v := row]
    {
      VideoEditKeepsTables(users, nextUserId, adminId, adminName, videos, nextVideoId, likes, history, nextHistoryId,
                         playlists, nextPlaylistId, items, comments, v, row);
      videos := videos[v := row];
    }

    /** `INSERT INTO videos (...)`: a new row under the next id, with no views and no likes. */
    method InsertVideo(row: Video) returns (id: nat)
      requires Valid() && VideoRowOk(row) && row.likes == 0
      modifies this`videos, this`nextVideoId
      ensures Valid()
      ensures id == old(nextVideoId) && id !in old(videos)
      ensures videos == old(videos)[id := row] && nextVideoId == id + 1
    {
      NewVideoKeepsTables(users, nextUserId, adminId, adminName, videos, nextVideoId, likes, history, nextHistoryId,
                         playlists, nextPlaylistId, items, comments, row);
      id := nextVideoId;
      videos := videos[id := row];
      nextVideoId := nextVideoId + 1;
    }

    /** `INSERT INTO video_likes` and `UPDATE videos SET likes = likes + 1`, committed
        together. */
    method InsertLike(u: nat, v: nat)
      requires Valid() && u in users && v in videos && (u, v) !in likes
      modifies this`likes, this`videos
      ensures Valid()
      ensures likes == old(likes) + {(u, v)}
      ensures videos == old(videos)[v := old(videos)[v].(likes := old(videos)[v].likes + 1)]
    {
      LikeKeepsTables(users, nextUserId, adminId, adminName, videos, nextVideoId, likes, history, nextHistoryId,
                         playlists, nextPlaylistId, items, comments, u, v);
      var row := videos[v].(likes := videos[v].likes + 1);
      likes := likes + {(u, v)};
      videos := videos[v := row];
    }

    /** The `watch_history` upsert of user `u` and video `v`. */
    method UpsertHistory(u: nat, v: nat, now: nat)
      requires Valid() && u in users && v in videos
      modifies this`history, this`nextHistoryId
      ensures Valid()
      ensures history == Upserted(old(history), old(nextHistoryId), u, v, now)
      ensures nextHistoryId == if RowFor(old(history), u, v).None? then old(nextHistoryId) + 1 else old(nextHistoryId)
    {
      WatchKeepsTables(users, nextUserId, adminId, adminName, videos, nextVideoId, likes, history, nextHistoryId,
                         playlists, nextPlaylistId, items, comments, u, v, now);
      history, nextHistoryId := Upsert(history, nextHistoryId, u, v, now);
    }

    /** `INSERT INTO comments (...)`. */
    method InsertComment(c: Comment)
      requires Valid() && CommentOk(c, users.Keys, videos.Keys)
      modifies this`comments
      ensures Valid()
      ensures comments == old(comments) + [c]
    {
      CommentKeepsTables(users, nextUserId, adminId, adminName, videos, nextVideoId, likes, history, nextHistoryId,
                         playlists, nextPlaylistId, items, comments, c);
      comments := comments + [c];
    }

    /** `INSERT INTO playlists (name, created_at)`: the new playlist's id is the next one. */
    method InsertPlaylist(name: string, now: nat) returns (id: nat)
      requires Valid()
      modifies this`playlists, this`nextPlaylistId
      ensures Valid()
      ensures id == old(nextPlaylistId) && id !in old(playlists)
      ensures playlists == old(playlists)[id := Playlist(name, now)] && nextPlaylistId == id + 1
    {
      NewPlaylistKeepsTables(users, nextUserId, adminId, adminName, videos, nextVideoId, likes, history, nextHistoryId,
                         playlists, nextPlaylistId, items, comments, name, now);
      id := nextPlaylistId;
      playlists := playlists[id := Playlist(name, now)];
      nextPlaylistId := nextPlaylistId + 1;
    }

    /** `DELETE FROM playlist_items` of the old membership `current` when the chosen
        playlist differs or is none, then the upsert of `(chosen, v)` at `position`. */
    method MoveToPlaylist(v: nat, current: Option<nat>, chosen: Option<nat>, position: int)
      requires Valid() && v in videos && current == PlaylistOf(items, v)
      requires chosen.Some? ==> chosen.value in playlists
      requires position >= 1
      modifies this`items
      ensures Valid()
      ensures items == Reassign(old(items), v, current, chosen, position)
    {
      MoveKeepsTables(users, nextUserId, adminId, adminName, videos, nextVideoId, likes, history, nextHistoryId,
                         playlists, nextPlaylistId, items, comments, v, chosen, position);
      items := Reassign(items, v, current, chosen, position);
    }

    /** `INSERT INTO users (...)`: refused by the UNIQUE constraint when the name is taken. */
    method InsertUser(row: User) returns (id: nat)
      requires Valid() && !NameTaken(users, row.username)
      modifies this`users, this`nextUserId
      ensures Valid()
      ensures id == old(nextUserId) && id !in old(users)
      ensures users == old(users)[id := row] && nextUserId == id + 1
    {
      NewUserKeepsTables(users, nextUserId, adminId, adminName, videos, nextVideoId, likes, history, nextHistoryId,
                         playlists, nextPlaylistId, items, comments, row);
      id := nextUserId;
      users := users[id := row];
      nextUserId := nextUserId + 1;
    }

    /** `UPDATE users SET ... WHERE id = id` on an account other than the main admin's. */
    method UpdateUser(id: nat, row: User)
      requires Valid() && id in users && id != adminId
      requires row.username == users[id].username || !NameTaken(users, row.username)
      modifies this`users
      ensures Valid()
      ensures users == old(users)[id := row]
    {
      UserEditKeepsTables(users, nextUserId, adminId, adminName, videos, nextVideoId, likes, history, nextHistoryId,
                         playlists, nextPlaylistId, items, comments, id, row);
      users := users[id := row];
    }

    /** The statements `admin_video_edit` commits together: the video's row, the new
        playlist when one is named, and the video's membership. */
    method SaveEdit(v: nat, row: Video, current: Option<nat>, request: PlaylistRequest, position: int, now: nat)
      requires Valid() && v in videos && VideoRowOk(row) && row.likes == videos[v].likes
      requires current == PlaylistOf(items, v)
      requires request.ExistingPlaylist? ==> request.id >= 0 && request.id as nat in playlists
      requires position >= 1
      modifies this`videos, this`playlists, this`nextPlaylistId, this`items
      ensures Valid()
      ensures videos == old(videos)[v := row]
      ensures request.NewPlaylist? ==>
                playlists == old(playlists)[old(nextPlaylistId) := Playlist(request.name, now)] &&
                nextPlaylistId == old(nextPlaylistId) + 1
      ensures !request.NewPlaylist? ==> playlists == old(playlists) && nextPlaylistId == old(nextPlaylistId)
      ensures var chosen := ChosenPlaylist(request, old(nextPlaylistId));
              && (chosen.Some? ==> chosen.value >= 0 && chosen.value as nat in playlists)
              && items == Reassign(old(items), v, current, AsPlaylistId(chosen), position)
    {
      UpdateVideo(v, row);
      var chosen := ChosenPlaylist(request, nextPlaylistId);
      if request.NewPlaylist? {
        var _ := InsertPlaylist(request.name, now);
      }
      MoveToPlaylist(v, current, AsPlaylistId(chosen), position);
    }

    // -------------------------------------------------------------------------------
    // The request handlers. Only the fields named in `modifies` can change.

    /** `watch(video_id)`: counts a view unless `noview` is "1", records the view in the
        signed-in user's history, and reports whether that user likes the video. */
    method Watch(session: Option<nat>, v: nat, noview: string, now: nat) returns (r: Result<bool, Failure>)
      requires Valid()
      modifies this`videos, this`history, this`nextHistoryId
      ensures Valid()
      ensures v !in old(videos) ==> r == Err(NotFound) && unchanged(this)
      ensures v in old(videos) ==>
                && r.Ok?
                && videos == old(videos)[v := old(videos)[v].(views := old(videos)[v].views + if noview == "1" then 0 else 1)]
                && (r.value <==> CurrentUser(session).Some? && (CurrentUser(session).value, v) in likes)
      ensures v in old(videos) && old(CurrentUser(session)).None? ==>
                history == old(history) && nextHistoryId == old(nextHistoryId)
      ensures v in old(videos) && old(CurrentUser(session)).Some? ==>
                var u := old(CurrentUser(session)).value;
                && history == Upserted(old(history), old(nextHistoryId), u, v, now)
                && nextHistoryId == old(nextHistoryId) + if RowFor(old(history), u, v).None? then 1 else 0
    {
      if v !in videos {
        return Err(NotFound);
      }
      if noview != "1" {
        UpdateVideo(v, videos[v].(views := videos[v].views + 1));
      }
      var u := CurrentUser(session);
      if u.Some? {
        UpsertHistory(u.value, v, now);
      }
      r := Ok(u.Some? && (u.value, v) in likes);
    }

    /** `like(video_id)`: a signed-in user's first like inserts the pair and adds one to the
        counter; a repeated like is refused by the UNIQUE constraint and still reported as
        liked. The reply carries the counter read back afterwards. */
    method Like(session: Option<nat>, v: nat) returns (r: Result<LikeReply, Failure>)
      requires Valid()
      modifies this`videos, this`likes
      ensures Valid()
      ensures v !in old(videos) ==> r == Err(NotFound)
      ensures v in old(videos) && old(CurrentUser(session)).None? ==> r == Err(LoginRequired)
      ensures r.Err? ==> unchanged(this)
      ensures v in old(videos) && old(CurrentUser(session)).Some? ==>
                var u := old(CurrentUser(session)).value;
                && likes == old(likes) + {(u, v)}
                && videos == (if (u, v) in old(likes) then old(videos)
                              else old(videos)[v := old(videos)[v].(likes := old(videos)[v].likes + 1)])
                && r == Ok(LikeReply(videos[v].likes, true))
      ensures r.Ok? ==> r.value.likes == |Likers(likes, v)|
    {
      if v !in videos {
        return Err(NotFound);
      }
      var u := CurrentUser(session);
      if u.None? {
        return Err(LoginRequired);
      }
      if (u.value, v) !in likes {
        InsertLike(u.value, v);
      }
      assert LikesCounted(videos, likes);
      r := Ok(LikeReply(videos[v].likes, true));
    }

    /** `comment(video_id)`: appends the comment `ResolveComment` accepts, or refuses a
        blank body. `anonymous` is the localised anonymous label. */
    method PostComment(session: Option<nat>, v: nat, authorField: string, bodyField: string, anonymous: string, now: nat)
      returns (r: Result<(), Failure>)
      requires Valid()
      modifies this`comments
      ensures Valid()
      ensures v !in old(videos) ==> r == Err(NotFound)
      ensures v in old(videos) && IsBlank(bodyField) ==> r == Err(CommentEmpty)
      ensures r.Err? ==> unchanged(this)
      ensures v in old(videos) && !IsBlank(bodyField) ==>
                var u := CurrentUser(session);
                var name := if u.Some? then Some(users[u.value].username) else None;
                var c := ResolveComment(authorField, bodyField, name, anonymous).value;
                r.Ok? && comments == old(comments) + [Comment(v, u, c.author, c.body, now)]
    {
      if v !in videos {
        return Err(NotFound);
      }
      var u := CurrentUser(session);
      var name := if u.Some? then Some(users[u.value].username) else None;
      var c := ResolveComment(authorField, bodyField, name, anonymous);
      if c.Err? {
        return Err(CommentEmpty);
      }
      InsertComment(Comment(v, u, c.value.author, c.value.body, now));
      r := Ok(());
    }

    /** `admin_add`: requires an admin, a title and a source URL; stores the embed
        `force_provider_embed` decides, with no views and no likes, under the next id. */
    method AddVideo(session: Option<nat>, title: string, description: string, sourceUrl: string,
                    thumbnailUrl: string, provider: string, category: string, fetch: OEmbedOracle, now: nat)
      returns (r: Result<nat, Failure>)
      requires Valid()
      modifies this`videos, this`nextVideoId
      ensures Valid()
      ensures !old(IsAdmin(session)) ==> r == Err(Forbidden)
      ensures old(IsAdmin(session)) && (IsBlank(title) || IsBlank(sourceUrl)) ==> r == Err(TitleAndUrlRequired)
      ensures r.Err? ==> unchanged(this)
      ensures r != Err(EmbedFailed(EmptyUrl))
      ensures old(IsAdmin(session)) && !IsBlank(title) && !IsBlank(sourceUrl) ==>
                var e := ForceProviderEmbed(ProviderField(provider), Strip(sourceUrl), fetch);
                && (e.Err? ==> r == Err(EmbedFailed(e.error)))
                && (e.Ok? ==>
                      && r == Ok(old(nextVideoId))
                      && videos == old(videos)[old(nextVideoId) := Video(Strip(title), Strip(description), Strip(sourceUrl),
                           Strip(thumbnailUrl), Strip(category), e.value, now, 0, 0)]
                      && nextVideoId == old(nextVideoId) + 1)
      ensures r.Ok? ==> r.value !in old(videos)
    {
      if !IsAdmin(session) {
        return Err(Forbidden);
      }
      var t := Strip(title);
      var src := Strip(sourceUrl);
      if t == [] || src == [] {
        return Err(TitleAndUrlRequired);
      }
      StripIdempotent(sourceUrl);
      var e := ForceProviderEmbed(ProviderField(provider), src, fetch);
      if e.Err? {
        return Err(EmbedFailed(e.error));
      }
      var id := InsertVideo(Video(t, Strip(description), src, Strip(thumbnailUrl), Strip(category), e.value, now, 0, 0));
      r := Ok(id);
    }

    /** `admin_video_edit` (POST): requires an admin and an existing video with a title and
        a source URL; replaces the video's columns with the new embed, creates the new
        playlist when one is named, and moves the video's membership to the chosen
        playlist at `PlaylistPosition(positionField)`. When a playlist is chosen, its id and
        the position are parameters of the membership upsert: one outside the 64-bit range
        makes `sqlite3` raise `OverflowError` there, and nothing is saved. An id that names no
        playlist fails the foreign key and nothing is saved. */
    method EditVideo(session: Option<nat>, v: nat, title: string, description: string, sourceUrl: string,
                     thumbnailUrl: string, provider: string, category: string,
                     playlistField: string, newPlaylistName: string, positionField: string,
                     fetch: OEmbedOracle, now: nat)
      returns (r: Result<(), Failure>)
      requires Valid()
      modifies this`videos, this`playlists, this`nextPlaylistId, this`items
      ensures Valid()
      ensures !old(IsAdmin(session)) ==> r == Err(Forbidden)
      ensures old(IsAdmin(session)) && v !in old(videos) ==> r == Err(NotFound)
      ensures old(IsAdmin(session)) && v in old(videos) && (IsBlank(title) || IsBlank(sourceUrl)) ==>
                r == Err(TitleAndUrlRequired)
      ensures r.Err? ==> unchanged(this)
      ensures r.Ok? ==>
                var e := ForceProviderEmbed(ProviderField(provider), Strip(sourceUrl), fetch);
                var request := ReadPlaylistRequest(playlistField, newPlaylistName);
                var chosen := ChosenPlaylist(request, old(nextPlaylistId));
                && old(IsAdmin(session)) && v in old(videos)
                && e.Ok?
                && videos == old(videos)[v := old(videos)[v].(title := Strip(title), description := Strip(description),
                     sourceUrl := Strip(sourceUrl), thumbnailUrl := Strip(thumbnailUrl), category := Strip(category),
                     embed := e.value)]
                && (request.NewPlaylist? ==>
                      playlists == old(playlists)[old(nextPlaylistId) := Playlist(request.name, now)] &&
                      nextPlaylistId == old(nextPlaylistId) + 1)
                && (!request.NewPlaylist? ==> playlists == old(playlists) && nextPlaylistId == old(nextPlaylistId))
                && (chosen.Some? ==> chosen.value >= 0 && chosen.value as nat in playlists)
                && items == Reassign(old(items), v, PlaylistOf(old(items), v), AsPlaylistId(chosen), PlaylistPosition(positionField))
      ensures old(IsAdmin(session)) && v in old(videos) && !IsBlank(title) && !IsBlank(sourceUrl) ==>
                var e := ForceProviderEmbed(ProviderField(provider), Strip(sourceUrl), fetch);
                var request := ReadPlaylistRequest(playlistField, newPlaylistName);
                var chosen := ChosenPlaylist(request, old(nextPlaylistId));
                var fits := MembershipBindable(chosen, PlaylistPosition(positionField));
                && (e.Err? ==> r == Err(EmbedFailed(e.error)))
                && (e.Ok? ==> (r == Err(IntegerTooLarge) <==> !fits))
                && (e.Ok? && request.ExistingPlaylist? && fits ==>
                      (r == Err(UnknownPlaylist) <==> request.id < 0 || request.id as nat !in old(playlists)))
                && (e.Ok? && request.ExistingPlaylist? && fits && request.id >= 0 && request.id as nat in old(playlists) ==>
                      r.Ok?)
                && (e.Ok? && !request.ExistingPlaylist? && fits ==> r.Ok?)
    {
      if !IsAdmin(session) {
        return Err(Forbidden);
      }
      if v !in videos {
        return Err(NotFound);
      }
      var current := FindPlaylist(v);
      var request := ReadPlaylistRequest(playlistField, newPlaylistName);
      var position := PlaylistPosition(positionField);
      var t := Strip(title);
      var src := Strip(sourceUrl);
      if t == [] || src == [] {
        return Err(TitleAndUrlRequired);
      }
      StripIdempotent(sourceUrl);
      var e := ForceProviderEmbed(ProviderField(provider), src, fetch);
      if e.Err? {
        return Err(EmbedFailed(e.error));
      }
      var chosen := ChosenPlaylist(request, nextPlaylistId);
      if !MembershipBindable(chosen, position) {
        return Err(IntegerTooLarge);
      }
      if request.ExistingPlaylist? && (request.id < 0 || request.id as nat !in playlists) {
        return Err(UnknownPlaylist);
      }
      SaveEdit(v, videos[v].(title := t, description := Strip(description), sourceUrl := src,
                             thumbnailUrl := Strip(thumbnailUrl), category := Strip(category), embed := e.value),
               current, request, position, now);
      r := Ok(());
    }

    /** `register` (POST): the checks of `CheckRegistration`, then the UNIQUE username; a new
        account is never an admin. `passwordHash` stands for the password's hash. */
    method Register(username: string, password: string, password2: string, passwordHash: string)
      returns (r: Result<nat, Failure>)
      requires Valid()
      modifies this`users, this`nextUserId
      ensures Valid()
      ensures CheckRegistration(username, password, password2, adminName).Some? ==>
                r == Err(RegisterRefused(CheckRegistration(username, password, password2, adminName).value))
      ensures CheckRegistration(username, password, password2, adminName).None? ==>
                (r == Err(RegisterRefused(UsernameExists)) <==> NameTaken(old(users), Strip(username)))
      ensures CheckRegistration(username, password, password2, adminName).None? && !NameTaken(old(users), Strip(username)) ==>
                r.Ok?
      ensures r.Err? ==> unchanged(this)
      ensures r.Ok? ==>
                && r.value == old(nextUserId) && r.value !in old(users)
                && users == old(users)[r.value := User(Strip(username), passwordHash, false)]
                && nextUserId == old(nextUserId) + 1
                && !IsMainAdmin(users[r.value].username, adminName)
    {
      var check := CheckRegistration(username, password, password2, adminName);
      if check.Some? {
        return Err(RegisterRefused(check.value));
      }
      var name := Strip(username);
      if exists id :: id in users && users[id].username == name {
        return Err(RegisterRefused(UsernameExists));
      }
      var id := InsertUser(User(name, passwordHash, false));
      r := Ok(id);
    }

    /** `admin_user_edit` (POST): requires an admin; the main admin's account is refused in
        any letter case; otherwise a new non-blank username different from the current one
        must be free, the admin flag is set from the checkbox, and a non-blank password
        replaces the hash (`passwordHash` stands for its hash). */
    method EditUser(session: Option<nat>, id: nat, usernameField: string, passwordField: string,
                    isAdminField: bool, passwordHash: string)
      returns (r: Result<(), Failure>)
      requires Valid()
      modifies this`users
      ensures Valid()
      ensures !old(IsAdmin(session)) ==> r == Err(Forbidden)
      ensures old(IsAdmin(session)) && id !in old(users) ==> r == Err(NotFound)
      ensures old(IsAdmin(session)) && id in old(users) && IsMainAdmin(old(users)[id].username, adminName) ==>
                r == Err(MainAdminLocked)
      ensures r.Err? ==> unchanged(this)
      ensures r.Ok? ==>
                var name := Strip(usernameField);
                var newName := if name != [] then name else old(users)[id].username;
                && id in old(users) && !IsMainAdmin(old(users)[id].username, adminName)
                && users == old(users)[id := User(newName,
                     if Strip(passwordField) != [] then passwordHash else old(users)[id].passwordHash, isAdminField)]
      ensures old(IsAdmin(session)) && id in old(users) && !IsMainAdmin(old(users)[id].username, adminName) ==>
                var name := Strip(usernameField);
                (r == Err(RegisterRefused(UsernameExists)) <==>
                   name != [] && name != old(users)[id].username && NameTaken(old(users), name))
      ensures old(IsAdmin(session)) && id in old(users) && !IsMainAdmin(old(users)[id].username, adminName) ==>
                var name := Strip(usernameField);
                !(name != [] && name != old(users)[id].username && NameTaken(old(users), name)) ==> r.Ok?
      ensures users[adminId] == old(users)[adminId]
    {
      if !IsAdmin(session) {
        return Err(Forbidden);
      }
      if id !in users {
        return Err(NotFound);
      }
      if IsMainAdmin(users[id].username, adminName) {
        return Err(MainAdminLocked);
      }
      var name := Strip(usernameField);
      var newName := users[id].username;
      if name != [] && name != users[id].username {
        if exists other :: other in users && users[other].username == name {
          return Err(RegisterRefused(UsernameExists));
        }
        newName := name;
      }
      var hash := if Strip(passwordField) != [] then passwordHash else users[id].passwordHash;
      assert id != adminId;
      UpdateUser(id, User(newName, hash, isAdminField));
      r := Ok(());
    }
  }
}
