/** The rows of the application's tables and the invariants the handlers keep on them,
    stated on values so that each handler's proof only touches the tables it changes. */
module Tables {
  import opened Common
  import opened Text
  import opened Embed
  import opened Playlists
  import opened Comments
  import opened Accounts

  /** The range of an SQLite INTEGER: `sqlite3` binds a Python int as a parameter only when
      it fits in 64 bits, and raises `OverflowError` otherwise. */
  const MinInteger: int := -0x8000_0000_0000_0000
  const MaxInteger: int := 0x7FFF_FFFF_FFFF_FFFF

  predicate Bindable(x: int) {
    MinInteger <= x <= MaxInteger
  }

  /** A `users` row (the creation time is not modelled). */
  datatype User = User(username: string, passwordHash: string, isAdmin: bool)

  /** A `videos` row; `embed` holds the provider, embed_url and embed_html columns.
      `createdAt` counts whole seconds: the listings order by `datetime(created_at)`, which
      drops the fraction of the stored ISO time, so videos made in the same second tie. */
  datatype Video = Video(
    title: string, description: string, sourceUrl: string, thumbnailUrl: string, category: string,
    embed: StoredEmbed, createdAt: nat, views: nat, likes: nat)

  /** A `comments` row; `user` is None for a visitor. */
  datatype Comment = Comment(video: nat, user: Option<nat>, author: string, body: string, createdAt: nat)

  /** A `watch_history` row. */
  datatype HistoryRow = HistoryRow(user: nat, video: nat, lastWatchedAt: nat, watchCount: nat)

  /** A `playlists` row. */
  datatype Playlist = Playlist(name: string, createdAt: nat)

  // ---------------------------------------------------------------------------------
  // users

  /** `users.username` is UNIQUE. */
  predicate UniqueNames(users: map<nat, User>) {
    forall a, b :: a in users && b in users && users[a].username == users[b].username ==> a == b
  }

  predicate NameTaken(users: map<nat, User>, name: string) {
    exists id :: id in users && users[id].username == name
  }

  lemma AddUserKeepsUnique(users: map<nat, User>, id: nat, row: User)
    requires UniqueNames(users) && id !in users && !NameTaken(users, row.username)
    ensures UniqueNames(users[id := row])
  {
  }

  lemma RenameKeepsUnique(users: map<nat, User>, id: nat, row: User)
    requires UniqueNames(users) && id in users
    requires row.username == users[id].username || !NameTaken(users, row.username)
    ensures UniqueNames(users[id := row])
  {
  }

  // ---------------------------------------------------------------------------------
  // videos

  /** A stored video: stripped, non-empty title and source URL, and an embed consistent
      with the source URL. */
  predicate VideoRowOk(row: Video) {
    && Trimmed(row.title) && Trimmed(row.sourceUrl)
    && Consistent(row.embed, row.sourceUrl)
  }

  // ---------------------------------------------------------------------------------
  // video_likes

  /** The `video_likes` rows of video `v`. */
  function Likers(likes: set<(nat, nat)>, v: nat): (s: set<(nat, nat)>)
    ensures forall p :: p in s <==> p in likes && p.1 == v
  {
    set p | p in likes && p.1 == v
  }

  /** Each video's `likes` counter is the number of its `video_likes` rows. */
  predicate LikesCounted(videos: map<nat, Video>, likes: set<(nat, nat)>) {
    forall v :: v in videos ==> videos[v].likes == |Likers(likes, v)|
  }

  /** A new like row adds one to its own video's likers and leaves every other video's. */
  lemma LikersAdd(likes: set<(nat, nat)>, u: nat, v: nat, w: nat)
    requires (u, v) !in likes
    ensures w == v ==> Likers(likes + {(u, v)}, w) == Likers(likes, w) + {(u, v)}
    ensures w == v ==> |Likers(likes + {(u, v)}, w)| == |Likers(likes, w)| + 1
    ensures w != v ==> Likers(likes + {(u, v)}, w) == Likers(likes, w)
  {
    if w == v {
      assert Likers(likes + {(u, v)}, w) == Likers(likes, w) + {(u, v)};
      assert (u, v) !in Likers(likes, w);
    } else {
      assert Likers(likes + {(u, v)}, w) == Likers(likes, w);
    }
  }

  /** A first like and the counter increment keep the counters equal to the row counts. */
  lemma FirstLikeCounted(videos: map<nat, Video>, likes: set<(nat, nat)>, u: nat, v: nat)
    requires LikesCounted(videos, likes) && v in videos && (u, v) !in likes
    ensures LikesCounted(videos[v := videos[v].(likes := videos[v].likes + 1)], likes + {(u, v)})
  {
    var after := videos[v := videos[v].(likes := videos[v].likes + 1)];
    forall w | w in after ensures after[w].likes == |Likers(likes + {(u, v)}, w)| {
      LikersAdd(likes, u, v, w);
    }
  }

  /** Replacing a video's other columns keeps its counter. */
  lemma EditKeepsCounted(videos: map<nat, Video>, likes: set<(nat, nat)>, v: nat, row: Video)
    requires LikesCounted(videos, likes) && v in videos && row.likes == videos[v].likes
    ensures LikesCounted(videos[v := row], likes)
  {
  }

  /** A new video starts with no likes and no like rows. */
  lemma NewVideoCounted(videos: map<nat, Video>, likes: set<(nat, nat)>, v: nat, row: Video)
    requires LikesCounted(videos, likes) && row.likes == 0
    requires forall p :: p in likes ==> p.1 != v
    ensures LikesCounted(videos[v := row], likes)
  {
    assert Likers(likes, v) == {};
  }

  // ---------------------------------------------------------------------------------
  // watch_history

  /** `UNIQUE(user_id, video_id)`: at most one history row per pair. */
  predicate HistoryUnique(history: map<nat, HistoryRow>) {
    forall r1, r2 ::
      r1 in history && r2 in history && history[r1].user == history[r2].user && history[r1].video == history[r2].video
      ==> r1 == r2
  }

  predicate IsRowFor(history: map<nat, HistoryRow>, r: nat, u: nat, v: nat) {
    r in history && history[r].user == u && history[r].video == v
  }

  /** The history row of user `u` and video `v`, if there is one. */
  ghost function RowFor(history: map<nat, HistoryRow>, u: nat, v: nat): (r: Option<nat>)
    ensures r.Some? ==> IsRowFor(history, r.value, u, v)
    ensures r.None? <==> forall id :: id in history ==> !IsRowFor(history, id, u, v)
  {
    if exists id :: IsRowFor(history, id, u, v) then
      var id :| IsRowFor(history, id, u, v); Some(id)
    else None
  }

  lemma RowForUnique(history: map<nat, HistoryRow>, u: nat, v: nat, id: nat)
    requires HistoryUnique(history) && IsRowFor(history, id, u, v)
    ensures RowFor(history, u, v) == Some(id)
  {
  }

  /** How often `u` has watched `v`: the row's `watch_count`, or 0 without a row. */
  ghost function WatchCount(history: map<nat, HistoryRow>, u: nat, v: nat): nat {
    match RowFor(history, u, v)
    case Some(r) => history[r].watchCount
    case None => 0
  }

  /** `INSERT ... ON CONFLICT(user_id, video_id) DO UPDATE`: bump the pair's row, or insert
      a new one under the fresh id `nextId` with a count of 1. */
  ghost function Upserted(history: map<nat, HistoryRow>, nextId: nat, u: nat, v: nat, now: nat)
    : (r: map<nat, HistoryRow>)
    ensures forall id :: id in history && id != nextId ==> id in r && r[id].user == history[id].user && r[id].video == history[id].video
    ensures forall id :: id in r && id !in history ==> id == nextId && r[id] == HistoryRow(u, v, now, 1)
  {
    match RowFor(history, u, v)
    case Some(r) => history[r := history[r].(lastWatchedAt := now, watchCount := history[r].watchCount + 1)]
    case None => history[nextId := HistoryRow(u, v, now, 1)]
  }

  /** The upsert keeps one row per pair. */
  lemma UpsertKeepsUnique(history: map<nat, HistoryRow>, nextId: nat, u: nat, v: nat, now: nat)
    requires HistoryUnique(history) && nextId !in history
    ensures HistoryUnique(Upserted(history, nextId, u, v, now))
  {
    var after := Upserted(history, nextId, u, v, now);
    match RowFor(history, u, v)
    case Some(r) =>
    case None =>
      forall r1, r2 | r1 in after && r2 in after && after[r1].user == after[r2].user && after[r1].video == after[r2].video
        ensures r1 == r2
      {
        if r1 != r2 {
          var old1 := if r1 == nextId then r2 else r1;
          assert IsRowFor(history, old1, u, v);
        }
      }
  }

  /** A watch adds one to the pair's count and stamps its row with the watch time; every
      other pair's count is unchanged. */
  lemma UpsertCounts(history: map<nat, HistoryRow>, nextId: nat, u: nat, v: nat, now: nat)
    requires HistoryUnique(history) && nextId !in history
    ensures var after := Upserted(history, nextId, u, v, now);
            && WatchCount(after, u, v) == WatchCount(history, u, v) + 1
            && RowFor(after, u, v).Some? && after[RowFor(after, u, v).value].lastWatchedAt == now
    ensures forall u': nat, v': nat :: (u', v') != (u, v) ==>
              WatchCount(Upserted(history, nextId, u, v, now), u', v') == WatchCount(history, u', v')
  {
    var after := Upserted(history, nextId, u, v, now);
    UpsertKeepsUnique(history, nextId, u, v, now);
    var id := if RowFor(history, u, v).Some? then RowFor(history, u, v).value else nextId;
    assert IsRowFor(after, id, u, v);
    RowForUnique(after, u, v, id);
    forall u': nat, v': nat | (u', v') != (u, v)
      ensures WatchCount(after, u', v') == WatchCount(history, u', v')
    {
      if RowFor(history, u', v').Some? {
        var r := RowFor(history, u', v').value;
        assert IsRowFor(after, r, u', v');
        RowForUnique(after, u', v', r);
      } else if RowFor(after, u', v').Some? {
        var r := RowFor(after, u', v').value;
        assert IsRowFor(history, r, u', v');
      }
    }
  }

  /** The `watch_history` upsert as one atomic step: the pair's row is bumped and stamped, or
      a row with a count of 1 is inserted under `nextId`, which then moves on. */
  method Upsert(history: map<nat, HistoryRow>, nextId: nat, u: nat, v: nat, now: nat)
    returns (after: map<nat, HistoryRow>, nextAfter: nat)
    requires HistoryUnique(history) && nextId !in history
    ensures after == Upserted(history, nextId, u, v, now)
    ensures nextAfter == if RowFor(history, u, v).None? then nextId + 1 else nextId
  {
    if exists id :: id in history && history[id].user == u && history[id].video == v {
      var id :| id in history && history[id].user == u && history[id].video == v;
      RowForUnique(history, u, v, id);
      after := history[id := history[id].(lastWatchedAt := now, watchCount := history[id].watchCount + 1)];
      nextAfter := nextId;
    } else {
      after := history[nextId := HistoryRow(u, v, now, 1)];
      nextAfter := nextId + 1;
    }
  }

  /** The first watch of a pair creates its row with a count of 1. */
  lemma FirstWatch(history: map<nat, HistoryRow>, nextId: nat, u: nat, v: nat, now: nat)
    requires HistoryUnique(history) && nextId !in history && RowFor(history, u, v).None?
    ensures Upserted(history, nextId, u, v, now)[nextId] == HistoryRow(u, v, now, 1)
    ensures WatchCount(Upserted(history, nextId, u, v, now), u, v) == 1
  {
    UpsertCounts(history, nextId, u, v, now);
  }

  // ---------------------------------------------------------------------------------
  // comments

  /** A stored comment refers to existing rows and respects the form's limits. */
  predicate CommentOk(c: Comment, userIds: set<nat>, videoIds: set<nat>) {
    && c.video in videoIds
    && (c.user.Some? ==> c.user.value in userIds)
    && c.body != [] && |c.body| <= BodyLimit && |c.author| <= AuthorLimit
  }
}
