/** The `playlist_items` table and the queries the watch and edit pages run on it
    (`get_video_playlist`, `get_playlist_items`, `get_next_in_playlist_id`), the parsing of
    the position and playlist fields of the edit form, and the reassignment of a video to
    a playlist. */
module Playlists {
  import opened Common
  import opened Text
  import opened Url

  /** `playlist_items`: the position of each (playlist_id, video_id) pair; the pair is the
      table's UNIQUE key, so a map keyed by it holds at most one row per pair. */
  type Items = map<(nat, nat), int>

  /** The playlists holding the video `v`. */
  predicate InSomePlaylist(items: Items, v: nat) {
    exists k :: k in items && k.1 == v
  }

  /** The edit page never puts a video in two playlists. */
  predicate AtMostOnePlaylist(items: Items) {
    forall k1, k2 :: k1 in items && k2 in items && k1.1 == k2.1 ==> k1.0 == k2.0
  }

  /** Every stored position is at least 1. */
  predicate PositionsPositive(items: Items) {
    forall k :: k in items ==> items[k] >= 1
  }

  /** `get_video_playlist(db, v)`: a playlist holding `v`, if any (`LIMIT 1` picks one row,
      the only one when `AtMostOnePlaylist` holds). */
  ghost function PlaylistOf(items: Items, v: nat): (r: Option<nat>)
    ensures r.Some? ==> (r.value, v) in items
    ensures r.None? <==> !InSomePlaylist(items, v)
  {
    if InSomePlaylist(items, v) then
      var k :| k in items && k.1 == v; Some(k.0)
    else None
  }

  lemma PlaylistOfUnique(items: Items, v: nat, p: nat)
    requires AtMostOnePlaylist(items)
    ensures PlaylistOf(items, v) == Some(p) <==> (p, v) in items
  {
    if (p, v) in items {
      assert InSomePlaylist(items, v);
    }
  }

  // ---------------------------------------------------------------------------------
  // get_next_in_playlist_id

  /** Some item of `p` lies after position `pos`. */
  predicate HasLater(items: Items, p: nat, pos: int) {
    exists k :: k in items && k.0 == p && items[k] > pos
  }

  /** `w` is an answer of `... WHERE playlist_id = p AND position > pos ORDER BY position
      LIMIT 1`: a later item with the smallest such position (several may tie). */
  predicate IsNext(items: Items, p: nat, pos: int, w: nat) {
    && (p, w) in items && items[(p, w)] > pos
    && forall k :: k in items && k.0 == p && items[k] > pos ==> items[(p, w)] <= items[k]
  }

  lemma {:induction false} MinimumExists(items: Items, s: set<(nat, nat)>)
    requires s != {} && s <= items.Keys
    ensures exists m :: m in s && forall k :: k in s ==> items[m] <= items[k]
    decreases |s|
  {
    var x :| x in s;
    if s != {x} {
      MinimumExists(items, s - {x});
      var m :| m in s - {x} && forall k :: k in s - {x} ==> items[m] <= items[k];
      if items[x] < items[m] {
        assert forall k :: k in s ==> items[x] <= items[k];
      } else {
        assert forall k :: k in s ==> items[m] <= items[k];
      }
    }
  }

  lemma LaterHasNext(items: Items, p: nat, pos: int)
    requires HasLater(items, p, pos)
    ensures exists w :: IsNext(items, p, pos, w)
  {
    var later := set k | k in items && k.0 == p && items[k] > pos;
    var k0 :| k0 in items && k0.0 == p && items[k0] > pos;
    assert k0 in later;
    MinimumExists(items, later);
    var m :| m in later && forall k :: k in later ==> items[m] <= items[k];
    assert IsNext(items, p, pos, m.1);
  }

  /** `get_next_in_playlist_id(db, p, v)`. */
  ghost function NextInPlaylist(items: Items, p: nat, v: nat): (r: Option<nat>)
    ensures (p, v) !in items ==> r == None
    ensures (p, v) in items ==> (r.None? <==> !HasLater(items, p, items[(p, v)]))
    ensures r.Some? ==> (p, v) in items && IsNext(items, p, items[(p, v)], r.value)
  {
    if (p, v) !in items then None
    else
      var pos := items[(p, v)];
      if !HasLater(items, p, pos) then None
      else
        LaterHasNext(items, p, pos);
        var w :| IsNext(items, p, pos, w);
        Some(w)
  }

  /** The last item of a playlist has no successor: there is no wrap-around to the first. */
  lemma LastHasNoNext(items: Items, p: nat, v: nat)
    requires (p, v) in items
    requires forall k :: k in items && k.0 == p ==> items[k] <= items[(p, v)]
    ensures NextInPlaylist(items, p, v) == None
  {
  }

  /** The next item lies strictly later, so it is never the current video, and following
      the links never returns to an earlier item. */
  lemma NextIsLater(items: Items, p: nat, v: nat)
    requires NextInPlaylist(items, p, v).Some?
    ensures var w := NextInPlaylist(items, p, v).value;
            w != v && (p, w) in items && items[(p, w)] > items[(p, v)]
  {
  }

  /** Every item strictly after the current one is at or after the next one: whichever of
      the tied items the query returns, no item is skipped. */
  lemma NextSkipsNothing(items: Items, p: nat, v: nat, u: nat)
    requires (p, v) in items && (p, u) in items && items[(p, u)] > items[(p, v)]
    ensures NextInPlaylist(items, p, v).Some?
    ensures items[(p, NextInPlaylist(items, p, v).value)] <= items[(p, u)]
  {
    assert HasLater(items, p, items[(p, v)]);
  }

  /** Tied answers share one position: the query fixes the next position, not which of the
      items at it comes back. */
  lemma NextPositionDetermined(items: Items, p: nat, v: nat, w: nat)
    requires (p, v) in items && IsNext(items, p, items[(p, v)], w)
    ensures NextInPlaylist(items, p, v).Some?
    ensures items[(p, NextInPlaylist(items, p, v).value)] == items[(p, w)]
  {
    NextSkipsNothing(items, p, v, w);
  }

  // ---------------------------------------------------------------------------------
  // get_playlist_items

  /** A row of the playlist listing: the video, its position and its creation time in
      whole seconds. */
  datatype Entry = Entry(video: nat, position: int, createdAt: nat)

  /** `ORDER BY pi.position ASC, datetime(v.created_at) DESC`: `a` may be listed before `b`. */
  predicate Before(a: Entry, b: Entry) {
    a.position < b.position || (a.position == b.position && a.createdAt >= b.createdAt)
  }

  lemma BeforeTotal(a: Entry, b: Entry)
    ensures Before(a, b) || Before(b, a)
  {
  }

  lemma BeforeTransitive(a: Entry, b: Entry, c: Entry)
    requires Before(a, b) && Before(b, c)
    ensures Before(a, c)
  {
  }

  lemma {:induction false} FirstExists(entries: set<Entry>)
    requires entries != {}
    ensures exists e :: e in entries && forall x :: x in entries ==> Before(e, x)
    decreases |entries|
  {
    var y :| y in entries;
    if entries != {y} {
      FirstExists(entries - {y});
      var e :| e in entries - {y} && forall x :: x in entries - {y} ==> Before(e, x);
      if Before(e, y) {
        assert forall x :: x in entries ==> Before(e, x);
      } else {
        forall x | x in entries ensures Before(y, x) {
          if x != y { BeforeTransitive(y, e, x); }
        }
      }
    }
  }

  /** `get_playlist_items`: the members' rows in listing order (rows that tie on both keys
      come in an unspecified order). */
  ghost function Listing(entries: set<Entry>): (r: seq<Entry>)
    ensures forall e :: e in r <==> e in entries
    ensures |r| == |entries|
    ensures forall i, j :: 0 <= i < j < |r| ==> r[i] != r[j]
    ensures forall i, j :: 0 <= i < j < |r| ==> Before(r[i], r[j])
    decreases |entries|
  {
    if entries == {} then []
    else
      FirstExists(entries);
      var e :| e in entries && forall x :: x in entries ==> Before(e, x);
      var rest := Listing(entries - {e});
      ListingCons(e, rest, entries);
      [e] + rest
  }

  /** The least entry in front of a listing of the others is a listing of them all. */
  lemma ListingCons(e: Entry, rest: seq<Entry>, entries: set<Entry>)
    requires e in entries && forall x :: x in entries ==> Before(e, x)
    requires forall x :: x in rest <==> x in entries - {e}
    requires |rest| == |entries - {e}|
    requires forall i, j :: 0 <= i < j < |rest| ==> rest[i] != rest[j]
    requires forall i, j :: 0 <= i < j < |rest| ==> Before(rest[i], rest[j])
    ensures var r := [e] + rest;
            && (forall x :: x in r <==> x in entries)
            && |r| == |entries|
            && (forall i, j :: 0 <= i < j < |r| ==> r[i] != r[j])
            && (forall i, j :: 0 <= i < j < |r| ==> Before(r[i], r[j]))
  {
    assert forall i :: 0 <= i < |rest| ==> rest[i] in rest && rest[i] in entries - {e};
  }

  /** The entries of playlist `p`, given each video's creation time. */
  function Members(items: Items, p: nat, createdAt: map<nat, nat>): (s: set<Entry>)
    ensures forall e :: e in s ==> (p, e.video) in items && e.position == items[(p, e.video)]
    ensures forall e :: e in s ==> e.video in createdAt && e.createdAt == createdAt[e.video]
    ensures forall k :: k in items && k.0 == p && k.1 in createdAt ==> Entry(k.1, items[k], createdAt[k.1]) in s
  {
    set k | k in items && k.0 == p && k.1 in createdAt :: Entry(k.1, items[k], createdAt[k.1])
  }

  // ---------------------------------------------------------------------------------
  // The playlist fields of the edit form

  /** The zero of every script's decimal digits, in increasing order: each script's digits
      are the ten characters from its zero on. */
  const DigitZeros: seq<int> :=
    [
     0x30, 0x660, 0x6F0, 0x7C0, 0x966, 0x9E6,
     0xA66, 0xAE6, 0xB66, 0xBE6, 0xC66, 0xCE6,
     0xD66, 0xDE6, 0xE50, 0xED0, 0xF20, 0x1040,
     0x1090, 0x17E0, 0x1810, 0x1946, 0x19D0, 0x1A80,
     0x1A90, 0x1B50, 0x1BB0, 0x1C40, 0x1C50, 0xA620,
     0xA8D0, 0xA900, 0xA9D0, 0xA9F0, 0xAA50, 0xABF0,
     0xFF10, 0x104A0, 0x10D30, 0x11066, 0x110F0, 0x11136,
     0x111D0, 0x112F0, 0x11450, 0x114D0, 0x11650, 0x116C0,
     0x11730, 0x118E0, 0x11950, 0x11C50, 0x11D50, 0x11DA0,
     0x11F50, 0x16A60, 0x16AC0, 0x16B50, 0x1D7CE, 0x1D7D8,
     0x1D7E2, 0x1D7EC, 0x1D7F6, 0x1E140, 0x1E2F0, 0x1E4F0,
     0x1E950, 0x1FBF0]

  /** The zero of the script whose digits include `c`, searching from the `i`-th. */
  function ZeroFrom(c: char, i: nat): (z: Option<int>)
    ensures z.Some? ==> z.value <= c as int < z.value + 10
    decreases |DigitZeros| - i
  {
    if i >= |DigitZeros| then None
    else if DigitZeros[i] <= c as int < DigitZeros[i] + 10 then Some(DigitZeros[i])
    else ZeroFrom(c, i + 1)
  }

  /** The value of a decimal digit (`unicodedata.decimal(c)`); other characters read as 0. */
  function DigitValue(c: char): (d: nat)
    ensures d < 10
  {
    if IsAsciiDigit(c) then c as int - '0' as int
    else
      match ZeroFrom(c, 0)
      case Some(z) => c as int - z
      case None => 0
  }

  function DigitChar(d: nat): (c: char)
    requires d < 10
    ensures IsAsciiDigit(c) && DigitValue(c) == d
  {
    ('0' as nat + d) as char
  }


  /** The digits of a base-10 literal in `int()`: decimal digits of any script, with single
      underscores allowed between two digits. */
  predicate Numeral(s: string) {
    && s != [] && IsDecimalDigit(s[0]) && IsDecimalDigit(s[|s| - 1])
    && (forall i :: 0 <= i < |s| ==> IsDecimalDigit(s[i]) || s[i] == '_')
    && (forall i :: 0 <= i < |s| - 1 && s[i] == '_' ==> IsDecimalDigit(s[i + 1]))
  }

  /** The value of a numeral, underscores ignored. */
  function NumeralValue(s: string): nat
    requires forall i :: 0 <= i < |s| ==> IsDecimalDigit(s[i]) || s[i] == '_'
  {
    if s == [] then 0
    else
      var init := s[..|s| - 1];
      assert forall i :: 0 <= i < |init| ==> init[i] == s[i];
      if s[|s| - 1] == '_' then NumeralValue(init)
      else NumeralValue(init) * 10 + DigitValue(s[|s| - 1])
  }

  /** Python's default `sys.get_int_max_str_digits()`: `int()` refuses a base-10 literal
      of more digits than this with a `ValueError`. */
  const MaxStrDigits: nat := 4300

  /** How many digits a numeral has, underscores not counted. */
  function DigitCount(s: string): (n: nat)
    ensures n <= |s|
  {
    if s == [] then 0 else DigitCount(s[..|s| - 1]) + if s[|s| - 1] == '_' then 0 else 1
  }

  /** The text after an optional leading sign. */
  function Unsigned(text: string): string {
    if text != [] && text[0] in {'-', '+'} then text[1..] else text
  }

  /** Python's `int(text)` on a field already stripped by `.strip()`: an optional sign,
      then a numeral of at most `MaxStrDigits` digits; anything else is a `ValueError`,
      here None. */
  function ParseInt(text: string): (r: Option<int>)
    ensures r.Some? ==> text != [] && !IsSpace(text[0]) && !IsSpace(text[|text| - 1])
  {
    var negative := text != [] && text[0] == '-';
    var digits := Unsigned(text);
    if Numeral(digits) && DigitCount(digits) <= MaxStrDigits then
      SignedEnds(text, digits);
      Some(if negative then -(NumeralValue(digits) as int) else NumeralValue(digits) as int)
    else None
  }

  /** `int()` refuses a numeral of more than `MaxStrDigits` digits. */
  lemma ParseIntTooLong(text: string)
    requires DigitCount(Unsigned(text)) > MaxStrDigits
    ensures ParseInt(text) == None
  {
  }

  /** Without underscores every character is counted. */
  lemma {:induction false} CountWithoutUnderscores(s: string)
    requires forall i :: 0 <= i < |s| ==> s[i] != '_'
    ensures DigitCount(s) == |s|
  {
    if s != [] {
      CountWithoutUnderscores(s[..|s| - 1]);
    }
  }

  /** A numeral, with or without a sign in front, neither starts nor ends with a space. */
  lemma SignedEnds(text: string, digits: string)
    requires digits != [] && IsDecimalDigit(digits[0]) && IsDecimalDigit(digits[|digits| - 1])
    requires digits == text || (text != [] && text[0] in {'-', '+'} && digits == text[1..])
    ensures text != [] && !IsSpace(text[0]) && !IsSpace(text[|text| - 1])
  {
    DigitVisible(digits[0]);
    DigitVisible(digits[|digits| - 1]);
    assert text[|text| - 1] == digits[|digits| - 1];
  }

  /** `int()` refuses a text holding a character that is neither a digit nor '_', unless it
      is a leading sign. */
  lemma ParseIntRefuses(text: string, k: nat)
    requires k < |text| && !IsDecimalDigit(text[k]) && text[k] != '_'
    requires k > 0 || text[k] !in {'-', '+'}
    ensures ParseInt(text) == None
  {
    var digits := if text[0] in {'-', '+'} then text[1..] else text;
    if text[0] in {'-', '+'} {
      assert digits[k - 1] == text[k];
    } else {
      assert digits[k] == text[k];
    }
  }

  /** `int()` refuses a text without digits, such as an empty one or a lone sign. */
  lemma ParseIntNeedsDigit(text: string)
    requires forall k :: 0 <= k < |text| ==> !IsDecimalDigit(text[k])
    ensures ParseInt(text) == None
  {
    var digits := if text != [] && text[0] in {'-', '+'} then text[1..] else text;
    if digits != [] {
      assert digits[0] in text;
    }
  }

  /** The decimal digits of `n`, as `str(n)` writes them. */
  function Decimal(n: nat): (s: string)
    ensures s != [] && forall i :: 0 <= i < |s| ==> IsAsciiDigit(s[i])
  {
    if n < 10 then [DigitChar(n)] else Decimal(n / 10) + [DigitChar(n % 10)]
  }

  lemma {:induction false} DecimalValue(n: nat)
    ensures NumeralValue(Decimal(n)) == n
  {
    if n >= 10 {
      DecimalValue(n / 10);
      var s := Decimal(n);
      assert s[..|s| - 1] == Decimal(n / 10);
    } else {
      var s := Decimal(n);
      assert s[..|s| - 1] == [];
    }
  }

  lemma DecimalStripped(s: string)
    requires s != [] && forall i :: 0 <= i < |s| ==> IsAsciiDigit(s[i])
    ensures Strip(s) == s
  {
    assert !IsSpace(s[0]) && !IsSpace(s[|s| - 1]);
  }

  /** `int(str(n)) == n`, for an `n` of at most `MaxStrDigits` digits; a longer one is
      refused. */
  lemma ParseDecimal(n: nat)
    ensures ParseInt(Decimal(n)) == if |Decimal(n)| <= MaxStrDigits then Some(n) else None
  {
    var s := Decimal(n);
    DecimalValue(n);
    CountWithoutUnderscores(s);
    assert Unsigned(s) == s;
  }

  /** `int("-" + str(n)) == -n`, for an `n` of at most `MaxStrDigits` digits; a longer one is
      refused. */
  lemma ParseNegativeDecimal(n: nat)
    ensures ParseInt("-" + Decimal(n)) == if |Decimal(n)| <= MaxStrDigits then Some(-(n as int)) else None
  {
    var s := Decimal(n);
    DecimalValue(n);
    AsciiNumeral(s);
    CountWithoutUnderscores(s);
    var t := "-" + s;
    assert t[1..] == s;
    ParseNegative(t, s);
  }

  /** A non-empty run of ASCII digits is a numeral. */
  lemma AsciiNumeral(s: string)
    requires s != [] && forall i :: 0 <= i < |s| ==> IsAsciiDigit(s[i])
    ensures Numeral(s)
  {
    forall i | 0 <= i < |s| ensures IsDecimalDigit(s[i]) {
      AsciiIsDecimal(s[i]);
    }
  }

  /** The ASCII digits are decimal digits. */
  lemma AsciiIsDecimal(c: char)
    requires IsAsciiDigit(c)
    ensures IsDecimalDigit(c)
  {
  }

  /** A '-' in front of a numeral negates its value. */
  lemma ParseNegative(t: string, s: string)
    requires t != [] && t[0] == '-' && t[1..] == s && Numeral(s)
    ensures ParseInt(t) == if DigitCount(s) <= MaxStrDigits then Some(-(NumeralValue(s) as int)) else None
  {
    assert Unsigned(t) == s;
  }

  /** The `playlist_position` field after `.strip()`: empty gives 1, otherwise `int()` of
      it, with 1 for text that does not parse and for values below 1. */
  function PlaylistPosition(field: string): (position: int)
    ensures position >= 1
    ensures var n := ParseInt(Strip(field)); n.Some? && n.value >= 1 ==> position == n.value
    ensures var n := ParseInt(Strip(field)); n.None? || n.value < 1 ==> position == 1
  {
    var text := Strip(field);
    if text == [] then 1
    else
      match ParseInt(text)
      case Some(n) => if n < 1 then 1 else n
      case None => 1
  }

  /** A position typed as a positive decimal is kept; zero, and a decimal too long for
      `int()`, default to 1. */
  lemma PositionOfDecimal(n: nat)
    ensures PlaylistPosition(Decimal(n)) == if n == 0 || |Decimal(n)| > MaxStrDigits then 1 else n
  {
    DecimalStripped(Decimal(n));
    ParseDecimal(n);
  }

  /** A negative position is raised to 1. */
  lemma PositionOfNegative(n: nat)
    ensures PlaylistPosition("-" + Decimal(n)) == 1
  {
    var s := Decimal(n);
    var t := "-" + s;
    assert t[|t| - 1] == s[|s| - 1];
    assert !IsSpace(t[0]) && !IsSpace(t[|t| - 1]);
    assert Strip(t) == t;
    ParseNegativeDecimal(n);
    NonPositiveIsOne(t);
  }

  /** A field read as no value, or as one below 1, gives position 1. */
  lemma NonPositiveIsOne(field: string)
    requires Strip(field) == field
    requires ParseInt(field).None? || ParseInt(field).value < 1
    ensures PlaylistPosition(field) == 1
  {
  }

  /** The playlist the edit form asks for: a new one when `new_playlist_name` is set, else
      the `playlist_id` field read with `int()` (its value "none", an empty field and an
      unparsable one ask for no playlist). The id may name no playlist at all. */
  datatype PlaylistRequest = NewPlaylist(name: string) | ExistingPlaylist(id: int) | NoPlaylist

  function ReadPlaylistRequest(playlistField: string, newName: string): (r: PlaylistRequest)
    ensures r.NewPlaylist? <==> Strip(newName) != []
    ensures r.NewPlaylist? ==> r.name == Take(Strip(newName), 120)
    ensures r.ExistingPlaylist? ==> ParseInt(Strip(playlistField)) == Some(r.id)
    ensures r == NoPlaylist ==>
              Strip(playlistField) in {"", "none"} || ParseInt(Strip(playlistField)).None?
  {
    var name := Strip(newName);
    var field := Strip(playlistField);
    if name != [] then NewPlaylist(Take(name, 120))
    else if field != [] && field != "none" then
      match ParseInt(field)
      case Some(id) => ExistingPlaylist(id)
      case None => NoPlaylist
    else NoPlaylist
  }

  // ---------------------------------------------------------------------------------
  // Reassignment

  /** The playlist part of `admin_video_edit`: the old membership `current` is deleted when
      the chosen playlist differs or is none, then `(chosen, v)` is inserted or has its
      position replaced. */
  function Reassign(items: Items, v: nat, current: Option<nat>, chosen: Option<nat>, position: int): (r: Items)
    ensures chosen.Some? ==> (chosen.value, v) in r && r[(chosen.value, v)] == position
    ensures forall k: (nat, nat) :: k.1 != v ==> (k in r <==> k in items)
    ensures forall k :: k in items && k.1 != v ==> r[k] == items[k]
    ensures forall k :: k in r && k.1 == v ==> Some(k.0) == chosen || (k in items && Some(k.0) != current)
  {
    var kept := if current.Some? && chosen != current then items - {(current.value, v)} else items;
    if chosen.Some? then kept[(chosen.value, v) := position] else kept
  }

  /** With the old membership read by `get_video_playlist`, the video ends up in exactly the
      chosen playlist at the given position, and no other video's row changes. */
  lemma ReassignMembership(items: Items, v: nat, chosen: Option<nat>, position: int)
    requires AtMostOnePlaylist(items)
    ensures var r := Reassign(items, v, PlaylistOf(items, v), chosen, position);
            && (forall k :: k in r && k.1 == v ==> chosen == Some(k.0))
            && (chosen.Some? ==> (chosen.value, v) in r && r[(chosen.value, v)] == position)
            && (forall k: (nat, nat) :: k.1 != v ==> (k in r <==> k in items))
            && (forall k: (nat, nat) :: k in items && k.1 != v ==> r[k] == items[k])
  {
    var r := Reassign(items, v, PlaylistOf(items, v), chosen, position);
    forall k | k in r && k.1 == v ensures chosen == Some(k.0) {
      PlaylistOfUnique(items, v, k.0);
    }
  }

  /** Reassignment keeps every video in at most one playlist, and keeps positions positive
      when the new one is. */
  lemma ReassignKeepsInvariants(items: Items, v: nat, chosen: Option<nat>, position: int)
    requires AtMostOnePlaylist(items) && PositionsPositive(items) && position >= 1
    ensures var r := Reassign(items, v, PlaylistOf(items, v), chosen, position);
            AtMostOnePlaylist(r) && PositionsPositive(r)
  {
    ReassignMembership(items, v, chosen, position);
  }
}
