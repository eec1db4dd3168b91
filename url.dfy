/** URL handling as `normalize_embed` sees it: `urllib.parse.urlparse` (CPython 3.12),
    `ParseResult.hostname`, `parse_qs(...).get(name)[0]`, and the three regular
    expressions run on the path, each written out as a string function. */
module Url {
  import opened Common
  import opened Text

  /** The components of `urlparse`; `path` is without its `;params` part. */
  datatype UrlParts = UrlParts(scheme: string, netloc: string, path: string, query: string, fragment: string)

  /** `urlparse` raises `ValueError("Invalid IPv6 URL")` when the network location has an
      opening bracket without a closing one, or the other way round. */
  datatype UrlError = InvalidIPv6

  predicate IsAsciiLetter(c: char) { 'a' <= c <= 'z' || 'A' <= c <= 'Z' }

  predicate IsAsciiDigit(c: char) { '0' <= c <= '9' }

  /** What `\d` matches in a `str` pattern: a character of Unicode category Nd (the
      decimal digits of every script, as in Unicode 15.0, the version of CPython 3.12). */
  predicate IsDecimalDigit(c: char) {
    ('0' <= c <= '9') || ('\U{660}' <= c <= '\U{669}') || ('\U{6F0}' <= c <= '\U{6F9}')
    || ('\U{7C0}' <= c <= '\U{7C9}') || ('\U{966}' <= c <= '\U{96F}') || ('\U{9E6}' <= c <= '\U{9EF}')
    || ('\U{A66}' <= c <= '\U{A6F}') || ('\U{AE6}' <= c <= '\U{AEF}') || ('\U{B66}' <= c <= '\U{B6F}')
    || ('\U{BE6}' <= c <= '\U{BEF}') || ('\U{C66}' <= c <= '\U{C6F}') || ('\U{CE6}' <= c <= '\U{CEF}')
    || ('\U{D66}' <= c <= '\U{D6F}') || ('\U{DE6}' <= c <= '\U{DEF}') || ('\U{E50}' <= c <= '\U{E59}')
    || ('\U{ED0}' <= c <= '\U{ED9}') || ('\U{F20}' <= c <= '\U{F29}') || ('\U{1040}' <= c <= '\U{1049}')
    || ('\U{1090}' <= c <= '\U{1099}') || ('\U{17E0}' <= c <= '\U{17E9}') || ('\U{1810}' <= c <= '\U{1819}')
    || ('\U{1946}' <= c <= '\U{194F}') || ('\U{19D0}' <= c <= '\U{19D9}') || ('\U{1A80}' <= c <= '\U{1A89}')
    || ('\U{1A90}' <= c <= '\U{1A99}') || ('\U{1B50}' <= c <= '\U{1B59}') || ('\U{1BB0}' <= c <= '\U{1BB9}')
    || ('\U{1C40}' <= c <= '\U{1C49}') || ('\U{1C50}' <= c <= '\U{1C59}') || ('\U{A620}' <= c <= '\U{A629}')
    || ('\U{A8D0}' <= c <= '\U{A8D9}') || ('\U{A900}' <= c <= '\U{A909}') || ('\U{A9D0}' <= c <= '\U{A9D9}')
    || ('\U{A9F0}' <= c <= '\U{A9F9}') || ('\U{AA50}' <= c <= '\U{AA59}') || ('\U{ABF0}' <= c <= '\U{ABF9}')
    || ('\U{FF10}' <= c <= '\U{FF19}') || ('\U{104A0}' <= c <= '\U{104A9}') || ('\U{10D30}' <= c <= '\U{10D39}')
    || ('\U{11066}' <= c <= '\U{1106F}') || ('\U{110F0}' <= c <= '\U{110F9}') || ('\U{11136}' <= c <= '\U{1113F}')
    || ('\U{111D0}' <= c <= '\U{111D9}') || ('\U{112F0}' <= c <= '\U{112F9}') || ('\U{11450}' <= c <= '\U{11459}')
    || ('\U{114D0}' <= c <= '\U{114D9}') || ('\U{11650}' <= c <= '\U{11659}') || ('\U{116C0}' <= c <= '\U{116C9}')
    || ('\U{11730}' <= c <= '\U{11739}') || ('\U{118E0}' <= c <= '\U{118E9}') || ('\U{11950}' <= c <= '\U{11959}')
    || ('\U{11C50}' <= c <= '\U{11C59}') || ('\U{11D50}' <= c <= '\U{11D59}') || ('\U{11DA0}' <= c <= '\U{11DA9}')
    || ('\U{11F50}' <= c <= '\U{11F59}') || ('\U{16A60}' <= c <= '\U{16A69}') || ('\U{16AC0}' <= c <= '\U{16AC9}')
    || ('\U{16B50}' <= c <= '\U{16B59}') || ('\U{1D7CE}' <= c <= '\U{1D7FF}') || ('\U{1E140}' <= c <= '\U{1E149}')
    || ('\U{1E2F0}' <= c <= '\U{1E2F9}') || ('\U{1E4F0}' <= c <= '\U{1E4F9}') || ('\U{1E950}' <= c <= '\U{1E959}')
    || ('\U{1FBF0}' <= c <= '\U{1FBF9}')
  }

  predicate IsSchemeChar(c: char) { IsAsciiLetter(c) || IsAsciiDigit(c) || c == '+' || c == '-' || c == '.' }

  /** `url.lstrip(_WHATWG_C0_CONTROL_OR_SPACE)`: drop leading control characters and spaces. */
  function StripLeadingC0(s: string): (r: string)
    ensures r != [] ==> r[0] > ' '
    ensures s != [] && s[0] > ' ' ==> r == s
  {
    if s != [] && s[0] <= ' ' then StripLeadingC0(s[1..]) else s
  }

  /** Tab, carriage return and line feed, which `urlsplit` removes wherever they occur. */
  const Unsafe: set<char> := {'\t', '\r', '\n'}

  function RemoveUnsafe(s: string): (r: string)
    ensures forall k :: 0 <= k < |r| ==> r[k] !in Unsafe
    ensures (forall k :: 0 <= k < |s| ==> s[k] !in Unsafe) ==> r == s
  {
    if s == [] then []
    else if s[0] in Unsafe then RemoveUnsafe(s[1..])
    else [s[0]] + RemoveUnsafe(s[1..])
  }

  /** The lower-cased scheme and the rest of the URL, when the text before the first ':'
      starts with an ASCII letter and consists of scheme characters; otherwise no scheme. */
  function SplitScheme(url: string): (string, string) {
    var i := Find(url, {':'});
    if 0 < i < |url| && IsAsciiLetter(url[0]) && (forall k :: 0 <= k < i ==> IsSchemeChar(url[k]))
    then (Lower(url[..i]), url[i + 1..])
    else ("", url)
  }

  /** `_splitnetloc(url, 2)` after a leading "//": the network location runs up to the first
      '/', '?' or '#'. */
  function SplitNetloc(rest: string): (r: (string, string))
    ensures forall k :: 0 <= k < |r.0| ==> r.0[k] !in {'/', '?', '#'}
  {
    if StartsWith(rest, "//") then
      var j := 2 + Find(rest[2..], {'/', '?', '#'});
      (rest[2..j], rest[j..])
    else ("", rest)
  }

  /** `urlsplit(url)`. */
  function UrlSplit(raw: string): (r: Result<UrlParts, UrlError>)
    ensures r.Err? ==> r.error == InvalidIPv6
    ensures r.Ok? ==> forall k :: 0 <= k < |r.value.netloc| ==> r.value.netloc[k] !in {'/', '?', '#'}
    ensures r.Ok? ==> forall k :: 0 <= k < |r.value.path| ==> r.value.path[k] !in {'?', '#'}
    ensures r.Ok? ==> forall k :: 0 <= k < |r.value.query| ==> r.value.query[k] != '#'
  {
    var url := RemoveUnsafe(StripLeadingC0(raw));
    var (scheme, afterScheme) := SplitScheme(url);
    var (netloc, afterNetloc) := SplitNetloc(afterScheme);
    SplitRest(scheme, netloc, afterNetloc)
  }

  /** The last steps of `urlsplit`: the bracket check on the network location, then the
      fragment after the first '#' and the query after the first '?' before it. */
  function SplitRest(scheme: string, netloc: string, afterNetloc: string): (r: Result<UrlParts, UrlError>)
    ensures r.Err? ==> r.error == InvalidIPv6
    ensures r.Ok? ==> r.value.netloc == netloc
    ensures r.Ok? ==> forall k :: 0 <= k < |r.value.path| ==> r.value.path[k] !in {'?', '#'}
    ensures r.Ok? ==> forall k :: 0 <= k < |r.value.query| ==> r.value.query[k] != '#'
  {
    if ('[' in netloc) != (']' in netloc) then Err(InvalidIPv6)
    else
      var f := Find(afterNetloc, {'#'});
      var beforeFragment := afterNetloc[..f];
      var fragment := if f < |afterNetloc| then afterNetloc[f + 1..] else "";
      var q := Find(beforeFragment, {'?'});
      var query := if q < |beforeFragment| then beforeFragment[q + 1..] else "";
      Ok(UrlParts(scheme, netloc, beforeFragment[..q], query, fragment))
  }

  /** The schemes whose paths carry `;params` (`urllib.parse.uses_params`). */
  const UsesParams: set<string> :=
    {"", "ftp", "hdl", "prospero", "http", "imap", "https", "shttp", "rtsp", "rtsps",
     "rtspu", "sip", "sips", "mms", "sftp", "tel"}

  /** `_splitparams(path)[0]`: the path before the first ';' of its last segment. */
  function PathWithoutParams(path: string): (r: string)
    ensures StartsWith(path, r)
  {
    if ';' !in path then path
    else if '/' in path then
      var j := LastIndexOf(path, '/');
      path[..j + Find(path[j..], {';'})]
    else path[..Find(path, {';'})]
  }

  /** `_splitparams` cuts at a ';' after the last '/', and the part it keeps has no ';'
      in its last segment: so the cut is at the first ';' of the last segment, and a path
      without such a ';' is kept whole. */
  lemma ParamsCut(path: string)
    ensures var r := PathWithoutParams(path);
            && StartsWith(path, r)
            && (|r| < |path| ==> path[|r|] == ';' && forall k :: |r| <= k < |path| ==> path[k] != '/')
            && (forall k :: 0 <= k < |r| && r[k] == ';' ==> '/' in r[k..])
  {
    var r := PathWithoutParams(path);
    if ';' in path && '/' in path {
      var j := LastIndexOf(path, '/');
      var f := Find(path[j..], {';'});
      assert path[j..][0] == '/';
      assert 1 <= f;
      forall k | 0 <= k < |r| && r[k] == ';' ensures '/' in r[k..] {
        assert r[k..][j - k] == '/';
      }
      forall k | |r| <= k < |path| ensures path[k] != '/' {
        assert path[j..][k - j] == path[k];
      }
      if |r| < |path| {
        assert path[j..][f] == ';';
      }
    } else if ';' in path {
      forall k | |r| <= k < |path| ensures path[k] != '/' {
        assert path[k] in path;
      }
    }
  }

  /** `urlparse(url)`: `urlsplit`, then, for the schemes that use parameters, the path
      without its parameters (`params` itself is not read by the application). */
  function UrlParse(raw: string): (r: Result<UrlParts, UrlError>)
    ensures UrlSplit(raw).Err? ==> r == Err(UrlSplit(raw).error)
    ensures UrlSplit(raw).Ok? ==>
              var p := UrlSplit(raw).value;
              && r.Ok?
              && r.value.(path := p.path) == p
              && r.value.path == if p.scheme in UsesParams then PathWithoutParams(p.path) else p.path
  {
    match UrlSplit(raw)
    case Err(e) => Err(e)
    case Ok(p) =>
      if p.scheme in UsesParams && ';' in p.path then Ok(p.(path := PathWithoutParams(p.path)))
      else Ok(p)
  }

  /** `ParseResult.hostname` before lower-casing: the network location without user
      information, port and IPv6 brackets. */
  function Hostname(netloc: string): (r: string)
    ensures forall k :: 0 <= k < |r| ==> r[k] != '@'
    ensures (forall k :: 0 <= k < |netloc| ==> netloc[k] !in {'@', '[', ':'}) ==> r == netloc
  {
    var hostinfo := if '@' in netloc then netloc[LastIndexOf(netloc, '@') + 1..] else netloc;
    if '[' in hostinfo then
      var bracketed := hostinfo[Find(hostinfo, {'['}) + 1..];
      bracketed[..Find(bracketed, {']'})]
    else hostinfo[..Find(hostinfo, {':'})]
  }

  /** `(parsed.hostname or "").lower()`. */
  function Host(p: UrlParts): string {
    Lower(Hostname(p.netloc))
  }

  /** A query field that gives `name` a value `parse_qs` keeps: it has an '=' followed by a
      non-empty value, and the text before the first '=' reads as `name` ('+' as a space). */
  predicate Gives(field: string, name: string) {
    var eq := Find(field, {'='});
    eq + 1 < |field| && ReplaceChar(field[..eq], '+', ' ') == name
  }

  /** The value of a field: the text after its first '=', '+' read as a space. */
  function FieldValue(field: string): (r: string)
    ensures Find(field, {'='}) + 1 < |field| ==> r != []
  {
    var eq := Find(field, {'='});
    if eq < |field| then ReplaceChar(field[eq + 1..], '+', ' ') else []
  }

  /** The first value `parse_qs` keeps for `name` among `fields`: fields without '=' and
      fields with an empty value are dropped, and '+' reads as a space. */
  function FirstValue(fields: seq<string>, name: string): (r: Option<string>)
    ensures r.Some? ==> r.value != []
  {
    if fields == [] then None
    else if Gives(fields[0], name) then Some(FieldValue(fields[0]))
    else FirstValue(fields[1..], name)
  }

  /** `FirstValue` finds nothing exactly when no field gives `name` a value, and otherwise
      the value of the first field that does. */
  lemma {:induction false} FirstValueFirst(fields: seq<string>, name: string)
    ensures FirstValue(fields, name).None? <==> forall k :: 0 <= k < |fields| ==> !Gives(fields[k], name)
    ensures FirstValue(fields, name).Some? ==>
              exists k :: && 0 <= k < |fields| && Gives(fields[k], name)
                          && (forall j :: 0 <= j < k ==> !Gives(fields[j], name))
                          && FirstValue(fields, name).value == FieldValue(fields[k])
  {
    if fields != [] && !Gives(fields[0], name) {
      FirstValueFirst(fields[1..], name);
      assert forall k :: 1 <= k < |fields| ==> fields[k] == fields[1..][k - 1];
      if FirstValue(fields[1..], name).Some? {
        var k :| && 0 <= k < |fields[1..]| && Gives(fields[1..][k], name)
                 && (forall j :: 0 <= j < k ==> !Gives(fields[1..][j], name))
                 && FirstValue(fields[1..], name).value == FieldValue(fields[1..][k]);
        assert Gives(fields[k + 1], name);
      }
    } else if fields != [] {
      assert Gives(fields[0], name);
    }
  }

  /** `(parse_qs(query).get(name) or [None])[0]`. */
  function QueryValue(query: string, name: string): (r: Option<string>)
    ensures r.Some? ==> r.value != []
  {
    FirstValue(Split(query, '&'), name)
  }

  /** The query's fields are its '&'-separated pieces; the value read for `name` is that
      of the first piece giving it one, and there is none when no piece does. */
  lemma QueryValueFirst(query: string, name: string)
    ensures var fields := Split(query, '&');
            && JoinWith(fields, '&') == query
            && (QueryValue(query, name).None? <==> forall k :: 0 <= k < |fields| ==> !Gives(fields[k], name))
            && (QueryValue(query, name).Some? ==>
                  exists k :: && 0 <= k < |fields| && Gives(fields[k], name)
                              && (forall j :: 0 <= j < k ==> !Gives(fields[j], name))
                              && QueryValue(query, name).value == FieldValue(fields[k]))
  {
    SplitJoin(query, '&');
    FirstValueFirst(Split(query, '&'), name);
  }

  /** The longest prefix of `s` without any character of `stop`. */
  function RunUntil(s: string, stop: set<char>): (r: string)
    ensures StartsWith(s, r)
    ensures forall k :: 0 <= k < |r| ==> r[k] !in stop
    ensures |r| < |s| ==> s[|r|] in stop
  {
    s[..Find(s, stop)]
  }

  /** `marker` occurs at `i` in `path` and is followed by a character other than '/' and
      '?': a place where `re.search(marker + "([^/?]+)", path)` can match. */
  predicate SegmentAt(path: string, marker: string, i: nat) {
    i + |marker| < |path| && path[i..i + |marker|] == marker && path[i + |marker|] !in {'/', '?'}
  }

  /** `re.search(marker + "([^/?]+)", path).group(1)`: the first non-empty run of
      characters other than '/' and '?' right after an occurrence of `marker`. */
  function SegmentAfter(path: string, marker: string): (r: Option<string>)
    requires marker != []
    ensures r.Some? ==> r.value != []
    decreases |path|
  {
    if |path| <= |marker| then None
    else if StartsWith(path, marker) && path[|marker|] !in {'/', '?'}
    then Some(RunUntil(path[|marker|..], {'/', '?'}))
    else SegmentAfter(path[1..], marker)
  }

  /** `SegmentAfter` is the search: nothing when the pattern matches nowhere, and otherwise
      the greedy run at the leftmost place it matches. */
  lemma {:induction false} SegmentAfterFirst(path: string, marker: string)
    requires marker != []
    ensures SegmentAfter(path, marker).None? <==> forall i: nat :: !SegmentAt(path, marker, i)
    ensures SegmentAfter(path, marker).Some? ==>
              exists i: nat :: && SegmentAt(path, marker, i)
                               && (forall j: nat :: j < i ==> !SegmentAt(path, marker, j))
                               && SegmentAfter(path, marker).value == RunUntil(path[i + |marker|..], {'/', '?'})
    decreases |path|
  {
    if |path| <= |marker| {
    } else if StartsWith(path, marker) && path[|marker|] !in {'/', '?'} {
      assert path[0..|marker|] == path[..|marker|];
      assert SegmentAt(path, marker, 0);
    } else {
      assert path[0..|marker|] == path[..|marker|];
      assert !SegmentAt(path, marker, 0);
      SegmentAfterFirst(path[1..], marker);
      FirstInTail(path, marker, SegmentAfter(path[1..], marker));
    }
  }

  /** When `marker` does not match at the head of `path`, what the search finds in the tail
      is the first match in `path` itself. */
  lemma FirstInTail(path: string, marker: string, r: Option<string>)
    requires path != [] && !SegmentAt(path, marker, 0)
    requires r.None? <==> forall i: nat :: !SegmentAt(path[1..], marker, i)
    requires r.Some? ==>
               exists i: nat :: && SegmentAt(path[1..], marker, i)
                                && (forall j: nat :: j < i ==> !SegmentAt(path[1..], marker, j))
                                && r.value == RunUntil(path[1..][i + |marker|..], {'/', '?'})
    ensures r.None? <==> forall i: nat :: !SegmentAt(path, marker, i)
    ensures r.Some? ==>
              exists i: nat :: && SegmentAt(path, marker, i)
                               && (forall j: nat :: j < i ==> !SegmentAt(path, marker, j))
                               && r.value == RunUntil(path[i + |marker|..], {'/', '?'})
  {
    forall i: nat ensures SegmentAt(path, marker, i + 1) <==> SegmentAt(path[1..], marker, i) {
      SegmentAtShift(path, marker, i);
    }
    if r.Some? {
      var i: nat :| && SegmentAt(path[1..], marker, i)
                    && (forall j: nat :: j < i ==> !SegmentAt(path[1..], marker, j))
                    && r.value == RunUntil(path[1..][i + |marker|..], {'/', '?'});
      assert path[1..][i + |marker|..] == path[i + 1 + |marker|..];
      assert SegmentAt(path, marker, i + 1);
      forall j: nat | j < i + 1 ensures !SegmentAt(path, marker, j) {
        if j > 0 { assert !SegmentAt(path[1..], marker, j - 1); }
      }
    } else {
      forall i: nat ensures !SegmentAt(path, marker, i) {
        if i > 0 { assert !SegmentAt(path[1..], marker, i - 1); }
      }
    }
  }

  /** A match one place further into `path` is a match in its tail. */
  lemma SegmentAtShift(path: string, marker: string, i: nat)
    requires path != []
    ensures SegmentAt(path, marker, i + 1) <==> SegmentAt(path[1..], marker, i)
  {
    if i + 1 + |marker| < |path| {
      assert path[1..][i..i + |marker|] == path[i + 1..i + 1 + |marker|];
    }
  }

  /** The longest prefix of decimal digits. */
  function DigitPrefix(s: string): (r: string)
    ensures StartsWith(s, r)
    ensures forall k :: 0 <= k < |r| ==> IsDecimalDigit(r[k])
    ensures |r| < |s| ==> !IsDecimalDigit(s[|r|])
  {
    if s != [] && IsDecimalDigit(s[0]) then [s[0]] + DigitPrefix(s[1..]) else []
  }

  /** A '/' at `i` followed by a digit: a place where `re.search(r"/(\d+)", path)` can match. */
  predicate DigitsAt(path: string, i: nat) {
    i + 1 < |path| && path[i] == '/' && IsDecimalDigit(path[i + 1])
  }

  /** `re.search(r"/(\d+)", path).group(1)`: the first run of digits right after a '/'. */
  function DigitsAfterSlash(path: string): (r: Option<string>)
    ensures r.Some? ==> r.value != [] && forall k :: 0 <= k < |r.value| ==> IsDecimalDigit(r.value[k])
  {
    if |path| < 2 then None
    else if path[0] == '/' && IsDecimalDigit(path[1]) then Some(DigitPrefix(path[1..]))
    else DigitsAfterSlash(path[1..])
  }

  /** `DigitsAfterSlash` is the search: nothing when no '/' is followed by a digit, and
      otherwise the whole run of digits after the leftmost such '/'. */
  lemma {:induction false} DigitsAfterSlashFirst(path: string)
    ensures DigitsAfterSlash(path).None? <==> forall i: nat :: !DigitsAt(path, i)
    ensures DigitsAfterSlash(path).Some? ==>
              exists i: nat :: && DigitsAt(path, i)
                               && (forall j: nat :: j < i ==> !DigitsAt(path, j))
                               && DigitsAfterSlash(path).value == DigitPrefix(path[i + 1..])
  {
    if |path| < 2 {
    } else if path[0] == '/' && IsDecimalDigit(path[1]) {
      assert DigitsAt(path, 0);
    } else {
      assert !DigitsAt(path, 0);
      DigitsAfterSlashFirst(path[1..]);
      forall i: nat ensures DigitsAt(path, i + 1) <==> DigitsAt(path[1..], i) {
      }
      if DigitsAfterSlash(path[1..]).Some? {
        var i: nat :| && DigitsAt(path[1..], i)
                      && (forall j: nat :: j < i ==> !DigitsAt(path[1..], j))
                      && DigitsAfterSlash(path[1..]).value == DigitPrefix(path[1..][i + 1..]);
        assert path[1..][i + 1..] == path[i + 2..];
        assert DigitsAt(path, i + 1);
        forall j: nat | j < i + 1 ensures !DigitsAt(path, j) {
          if j > 0 { assert !DigitsAt(path[1..], j - 1); }
        }
      } else {
        forall i: nat ensures !DigitsAt(path, i) {
          if i > 0 { assert !DigitsAt(path[1..], i - 1); }
        }
      }
    }
  }

  /** `path.strip("/").split("/")[0]`: the first path segment. */
  function FirstSegment(path: string): (r: string)
    ensures '/' !in r
  {
    var s := StripChar(path, '/');
    s[..Find(s, {'/'})]
  }

  /** `r` is the run of `path` at `k`: only slashes before it, and a '/' or the end of the
      path right after it. */
  predicate SegmentFrom(path: string, r: string, k: nat) {
    && k + |r| <= |path| && path[k..k + |r|] == r
    && (forall i :: 0 <= i < k ==> path[i] == '/')
    && (k + |r| == |path| || path[k + |r|] == '/')
  }

  /** The first segment is the run of characters that starts after the leading slashes and
      ends at the next '/' or at the end; it is empty only for a path made of slashes. */
  lemma FirstSegmentIs(path: string)
    ensures FirstSegment(path) == [] <==> forall i :: 0 <= i < |path| ==> path[i] == '/'
    ensures exists k: nat :: SegmentFrom(path, FirstSegment(path), k)
  {
    var s := StripChar(path, '/');
    var f := Find(s, {'/'});
    StripCharIs(path, '/');
    var k: nat :| Framed(path, s, k, '/');
    SegmentOfFramed(path, s, s[..f], k);
  }

  /** The text before the first '/' of a slice framed by slashes, which itself does not
      start with one, is the run at the slice's place. */
  lemma SegmentOfFramed(path: string, s: string, r: string, k: nat)
    requires Framed(path, s, k, '/')
    requires s != [] ==> s[0] != '/'
    requires |r| <= |s| && r == s[..|r|]
    requires |r| < |s| ==> s[|r|] == '/'
    ensures SegmentFrom(path, r, k)
    ensures r == [] <==> forall i :: 0 <= i < |path| ==> path[i] == '/'
  {
    assert path[k..k + |r|] == s[..|r|];
    if |r| < |s| {
      assert path[k + |r|] == s[|r|];
    }
    if r != [] {
      assert path[k] == s[0];
    } else {
      assert s == [];
    }
  }

  // ---------------------------------------------------------------------------------
  // What the parser makes of URLs as they are usually typed.

  /** A character that is neither a control character nor whitespace. */
  predicate Visible(c: char) { c > ' ' && !IsSpace(c) }

  /** A decimal digit is visible and delimits no URL component. */
  lemma DigitVisible(c: char)
    requires IsDecimalDigit(c)
    ensures Visible(c) && c !in {'/', '?', '#', ';'}
  {
  }

  /** An ASCII host name without the characters that delimit other URL components. */
  predicate PlainHost(host: string) {
    forall k :: 0 <= k < |host| ==>
      Visible(host[k]) && host[k] < '\U{80}' && host[k] !in {'/', '?', '#', '@', '[', ']', ':'}
  }

  /** A path that starts with '/' and has no query, fragment or parameter delimiter. */
  predicate PlainPath(path: string) {
    path != [] && path[0] == '/' &&
    forall k :: 0 <= k < |path| ==> Visible(path[k]) && path[k] !in {'?', '#', ';'}
  }

  /** A query without a fragment delimiter. */
  predicate PlainQuery(query: string) {
    forall k :: 0 <= k < |query| ==> Visible(query[k]) && query[k] != '#'
  }

  /** The clean-up `urlsplit` does first leaves a URL alone when it starts with a visible
      character and has no tab or line break. */
  lemma CleanUrlUnchanged(url: string)
    requires url != [] && Visible(url[0])
    requires forall k :: 0 <= k < |url| ==> Visible(url[k])
    ensures RemoveUnsafe(StripLeadingC0(url)) == url
  {
  }

  lemma SchemeHttps(rest: string)
    ensures SplitScheme("https:" + rest) == ("https", rest)
  {
    var url := "https:" + rest;
    FindIs(url, {':'}, 5);
    assert url[..5] == "https";
    LowerNoCapitals("https");
    assert url[6..] == rest;
  }

  lemma NetlocPlain(host: string, tail: string)
    requires PlainHost(host)
    requires tail != [] && tail[0] == '/'
    ensures SplitNetloc("//" + host + tail) == (host, tail)
  {
    var rest := "//" + host + tail;
    assert rest[2..] == host + tail;
    FindIs(host + tail, {'/', '?', '#'}, |host|);
    assert rest[2..2 + |host|] == host;
    assert rest[2 + |host|..] == tail;
  }

  /** `urlsplit` of "https://" + host + tail, for a tail that starts with '/'. */
  lemma SplitHttps(host: string, tail: string)
    requires PlainHost(host)
    requires tail != [] && tail[0] == '/'
    requires forall k :: 0 <= k < |tail| ==> Visible(tail[k]) && tail[k] != '#'
    ensures var q := Find(tail, {'?'});
            UrlSplit("https://" + host + tail) ==
            Ok(UrlParts("https", host, tail[..q], if q < |tail| then tail[q + 1..] else "", ""))
  {
    HttpsSteps(host, tail);
    SplitSteps("https://" + host + tail, "https", "//" + host + tail, host, tail);
  }

  /** The steps of `urlsplit` on "https://" + host + tail, one by one. */
  lemma HttpsSteps(host: string, tail: string)
    requires PlainHost(host)
    requires tail != [] && tail[0] == '/'
    requires forall k :: 0 <= k < |tail| ==> Visible(tail[k])
    ensures var url := "https://" + host + tail;
            var rest := "//" + host + tail;
            && RemoveUnsafe(StripLeadingC0(url)) == url
            && SplitScheme(url) == ("https", rest)
            && SplitNetloc(rest) == (host, tail)
            && '[' !in host && ']' !in host
  {
    var url := "https://" + host + tail;
    var rest := "//" + host + tail;
    assert url == "https:" + rest;
    VisibleHttps(host, tail);
    CleanUrlUnchanged(url);
    SchemeHttps(rest);
    NetlocPlain(host, tail);
  }

  /** `urlsplit` put together from its steps, for a URL without a fragment. */
  lemma SplitSteps(url: string, scheme: string, rest: string, netloc: string, after: string)
    requires RemoveUnsafe(StripLeadingC0(url)) == url
    requires SplitScheme(url) == (scheme, rest)
    requires SplitNetloc(rest) == (netloc, after)
    requires '[' !in netloc && ']' !in netloc
    requires forall k :: 0 <= k < |after| ==> after[k] != '#'
    ensures var q := Find(after, {'?'});
            UrlSplit(url) == Ok(UrlParts(scheme, netloc, after[..q], if q < |after| then after[q + 1..] else "", ""))
  {
    assert UrlSplit(url) == SplitRest(scheme, netloc, after);
    RestWithoutFragment(scheme, netloc, after);
  }

  /** Without '#' and brackets, the rest after the network location is the path up to the
      first '?' and the query after it. */
  lemma RestWithoutFragment(scheme: string, netloc: string, after: string)
    requires '[' !in netloc && ']' !in netloc
    requires forall k :: 0 <= k < |after| ==> after[k] != '#'
    ensures var q := Find(after, {'?'});
            SplitRest(scheme, netloc, after) ==
            Ok(UrlParts(scheme, netloc, after[..q], if q < |after| then after[q + 1..] else "", ""))
  {
    FindIs(after, {'#'}, |after|);
    assert after[..|after|] == after;
  }

  lemma VisibleHttps(host: string, tail: string)
    requires PlainHost(host)
    requires forall k :: 0 <= k < |tail| ==> Visible(tail[k])
    ensures var url := "https://" + host + tail;
            url != [] && forall k :: 0 <= k < |url| ==> Visible(url[k])
  {
    var url := "https://" + host + tail;
    forall k | 0 <= k < |url| ensures Visible(url[k]) {
      if k >= 8 + |host| { assert url[k] == tail[k - 8 - |host|]; }
      else if k >= 8 { assert url[k] == host[k - 8]; }
    }
  }

  /** `urlparse` of "https://" + host + path + "?" + query. */
  lemma ParseHttpsQuery(host: string, path: string, query: string)
    requires PlainHost(host) && PlainPath(path) && PlainQuery(query)
    ensures UrlParse("https://" + host + path + "?" + query) == Ok(UrlParts("https", host, path, query, ""))
  {
    var tail := path + "?" + query;
    assert "https://" + host + path + "?" + query == "https://" + host + tail;
    QueryTailVisible(path, query);
    SplitHttps(host, tail);
    QueryTailSplit(path, query);
  }

  /** The first '?' of a plain path and a query joined by '?' is the joining one. */
  lemma QueryTailSplit(path: string, query: string)
    requires PlainPath(path)
    ensures var tail := path + "?" + query;
            var q := Find(tail, {'?'});
            q == |path| && tail[..q] == path && tail[q + 1..] == query
  {
    var tail := path + "?" + query;
    FindIs(tail, {'?'}, |path|);
    assert tail[..|path|] == path;
    assert tail[|path| + 1..] == query;
  }

  /** A plain path and a plain query joined by '?' have no fragment delimiter. */
  lemma QueryTailVisible(path: string, query: string)
    requires PlainPath(path) && PlainQuery(query)
    ensures var tail := path + "?" + query;
            tail != [] && tail[0] == '/' && forall k :: 0 <= k < |tail| ==> Visible(tail[k]) && tail[k] != '#'
  {
    var tail := path + "?" + query;
    forall k | 0 <= k < |tail| ensures Visible(tail[k]) && tail[k] != '#' {
      if k < |path| { assert tail[k] == path[k]; }
      else if k > |path| { assert tail[k] == query[k - |path| - 1]; }
    }
  }

  /** `urlparse` of "https://" + host + path. */
  lemma ParseHttps(host: string, path: string)
    requires PlainHost(host) && PlainPath(path)
    ensures UrlParse("https://" + host + path) == Ok(UrlParts("https", host, path, "", ""))
  {
    SplitHttps(host, path);
    FindIs(path, {'?'}, |path|);
    assert path[..|path|] == path;
  }

  /** The host name of a plain network location is the location itself. */
  lemma HostnamePlain(host: string)
    requires PlainHost(host)
    ensures Hostname(host) == host
  {
    FindIs(host, {':'}, |host|);
    assert host[..|host|] == host;
  }
}
