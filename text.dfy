/** The few Python `str` operations the application relies on, with Python's semantics
    where they matter: `str.strip()`, `str.lower()` (ASCII letters), `in`, `find`,
    `split` and slicing. */
module Text {

  /** `str.isspace()` for one character: exactly the characters CPython treats as whitespace. */
  predicate IsSpace(c: char) {
    || c == ' '
    || ('\t' <= c <= '\r')
    || ('\U{1c}' <= c <= '\U{1f}')
    || c == '\U{85}' || c == '\U{a0}' || c == '\U{1680}'
    || ('\U{2000}' <= c <= '\U{200a}')
    || c == '\U{2028}' || c == '\U{2029}' || c == '\U{202f}' || c == '\U{205f}' || c == '\U{3000}'
  }

  /** `s.lstrip()`. */
  function TrimStart(s: string): (r: string)
    ensures |r| <= |s| && r == s[|s| - |r|..]
    ensures forall i :: 0 <= i < |s| - |r| ==> IsSpace(s[i])
    ensures r != [] ==> !IsSpace(r[0])
  {
    if s != [] && IsSpace(s[0]) then TrimStart(s[1..]) else s
  }

  /** `s.rstrip()`. */
  function TrimEnd(s: string): (r: string)
    ensures |r| <= |s| && r == s[..|r|]
    ensures forall i :: |r| <= i < |s| ==> IsSpace(s[i])
    ensures r != [] ==> !IsSpace(r[|r| - 1])
  {
    if s != [] && IsSpace(s[|s| - 1]) then TrimEnd(s[..|s| - 1]) else s
  }

  /** `s.strip()`: the text without its leading and trailing whitespace. */
  function Strip(s: string): (r: string)
    ensures r == [] <==> forall i :: 0 <= i < |s| ==> IsSpace(s[i])
    ensures r != [] ==> !IsSpace(r[0]) && !IsSpace(r[|r| - 1])
    ensures s != [] && !IsSpace(s[0]) && !IsSpace(s[|s| - 1]) ==> r == s
  {
    var t := TrimStart(s);
    var r := TrimEnd(t);
    assert r != [] ==> r[0] == t[0];
    TrimFramed(s);
    FramedFacts(s, r, |s| - |t|);
    r
  }

  /** `s.strip()` is the slice of `s` left between a whitespace prefix and a whitespace
      suffix. */
  lemma StripIsSlice(s: string)
    ensures exists k: nat :: SpaceFramed(s, Strip(s), k)
  {
    TrimFramed(s);
    assert SpaceFramed(s, Strip(s), |s| - |TrimStart(s)|);
  }

  /** A non-space slice framed by whitespace is empty only for an all-space text, and is
      the whole text when the text has no whitespace at its ends. */
  lemma FramedFacts(s: string, r: string, k: nat)
    requires SpaceFramed(s, r, k)
    requires r != [] ==> !IsSpace(r[0])
    ensures r == [] <==> forall i :: 0 <= i < |s| ==> IsSpace(s[i])
    ensures s != [] && !IsSpace(s[0]) && !IsSpace(s[|s| - 1]) ==> r == s
  {
    if r != [] {
      assert s[k] == r[0];
    }
    if s != [] && !IsSpace(s[0]) && !IsSpace(s[|s| - 1]) {
      assert k == 0;
      assert k + |r| == |s|;
      assert s[0..|s|] == s;
    }
  }

  /** What `TrimStart` and `TrimEnd` cut off is whitespace at either end. */
  lemma TrimFramed(s: string)
    ensures SpaceFramed(s, TrimEnd(TrimStart(s)), |s| - |TrimStart(s)|)
  {
    var t := TrimStart(s);
    TrimmedFramed(s, t, TrimEnd(t));
  }

  /** A suffix `t` of `s` after whitespace, and a prefix `r` of `t` before whitespace: `r`
      is framed by whitespace in `s`. */
  lemma TrimmedFramed(s: string, t: string, r: string)
    requires |t| <= |s| && t == s[|s| - |t|..]
    requires forall i :: 0 <= i < |s| - |t| ==> IsSpace(s[i])
    requires |r| <= |t| && r == t[..|r|]
    requires forall i :: |r| <= i < |t| ==> IsSpace(t[i])
    ensures SpaceFramed(s, r, |s| - |t|)
  {
    var k := |s| - |t|;
    assert s[k..k + |r|] == r;
    forall i | k + |r| <= i < |s| ensures IsSpace(s[i]) {
      assert s[i] == t[i - k];
    }
  }

  /** `r` is the slice of `s` at `k`, with only whitespace before and after it. */
  predicate SpaceFramed(s: string, r: string, k: nat) {
    && k + |r| <= |s| && s[k..k + |r|] == r
    && (forall i :: 0 <= i < k ==> IsSpace(s[i]))
    && (forall i :: k + |r| <= i < |s| ==> IsSpace(s[i]))
  }

  /** Stripping twice is stripping once, so helpers that strip again on already-stripped
      input (`force_provider_embed` calls `normalize_embed`, which strips) change nothing. */
  lemma StripIdempotent(s: string)
    ensures Strip(Strip(s)) == Strip(s)
  {
  }

  /** Non-empty, with no whitespace at either end: what `.strip()` leaves of a non-blank
      text, and a text `.strip()` leaves alone. */
  predicate Trimmed(s: string) {
    s != [] && !IsSpace(s[0]) && !IsSpace(s[|s| - 1])
  }

  /** Python `not s.strip()`: the text is empty or only whitespace. */
  predicate IsBlank(s: string) {
    Strip(s) == []
  }

  /** `str.lower()` restricted to ASCII letters. */
  function LowerChar(c: char): char {
    if 'A' <= c <= 'Z' then (c as int + 32) as char else c
  }

  function Lower(s: string): (r: string)
    ensures |r| == |s|
    ensures forall i :: 0 <= i < |r| ==> !('A' <= r[i] <= 'Z')
    ensures forall i :: 0 <= i < |s| && !('A' <= s[i] <= 'Z') ==> r[i] == s[i]
    ensures forall i :: 0 <= i < |s| && 'A' <= s[i] <= 'Z' ==> 'a' <= r[i] <= 'z' && r[i] as int - s[i] as int == 32
  {
    seq(|s|, i requires 0 <= i < |s| => LowerChar(s[i]))
  }

  lemma LowerConcat(a: string, b: string)
    ensures Lower(a + b) == Lower(a) + Lower(b)
  {
  }

  /** Text without ASCII capitals is its own lower-case form. */
  lemma LowerNoCapitals(s: string)
    requires forall i :: 0 <= i < |s| ==> !('A' <= s[i] <= 'Z')
    ensures Lower(s) == s
  {
  }

  predicate OccursAt(s: string, t: string, i: nat) {
    i + |t| <= |s| && s[i..i + |t|] == t
  }

  /** Python `t in s` for strings: `t` is a substring of `s`. */
  predicate Contains(s: string, t: string) {
    exists i: nat :: i <= |s| && OccursAt(s, t, i)
  }

  /** A string cannot contain a text when no window of it has the text's `j`-th character
      in the right place. */
  lemma NotContainsByChar(s: string, t: string, j: nat)
    requires j < |t|
    requires forall k :: j <= k && k + |t| - j <= |s| ==> s[k] != t[j]
    ensures !Contains(s, t)
  {
    forall i: nat | i <= |s| ensures !OccursAt(s, t, i) {
      if i + |t| <= |s| {
        assert s[i..i + |t|][j] == s[i + j];
      }
    }
  }

  /** A string cannot contain a text with a character the string lacks. */
  lemma NotContainsWithout(s: string, t: string, j: nat)
    requires j < |t| && t[j] !in s
    ensures !Contains(s, t)
  {
    NotContainsByChar(s, t, j);
  }

  predicate StartsWith(s: string, p: string) {
    |p| <= |s| && s[..|p|] == p
  }

  /** Index of the first character of `s` in `cs`, or `|s|` when there is none
      (Python's `find` returning -1 corresponds to `|s|`). */
  function Find(s: string, cs: set<char>): (r: nat)
    ensures r <= |s|
    ensures r < |s| ==> s[r] in cs
    ensures forall k :: 0 <= k < r ==> s[k] !in cs
  {
    if s == [] then 0 else if s[0] in cs then 0 else 1 + Find(s[1..], cs)
  }

  /** The three facts of `Find`'s contract determine its value. */
  lemma FindIs(s: string, cs: set<char>, k: nat)
    requires k <= |s|
    requires k < |s| ==> s[k] in cs
    requires forall j :: 0 <= j < k ==> s[j] !in cs
    ensures Find(s, cs) == k
  {
  }

  /** Index of the last occurrence of `c` in `s` (`s.rfind(c)` when `c in s`). */
  function LastIndexOf(s: string, c: char): (r: nat)
    requires c in s
    ensures r < |s| && s[r] == c
    ensures forall k :: r < k < |s| ==> s[k] != c
  {
    if s[|s| - 1] == c then |s| - 1 else LastIndexOf(s[..|s| - 1], c)
  }

  /** `s.split(sep)`: the pieces between the separators, empty pieces included. */
  function Split(s: string, sep: char): (r: seq<string>)
    ensures |r| >= 1
    ensures forall k :: 0 <= k < |r| ==> sep !in r[k]
    decreases |s|
  {
    var i := Find(s, {sep});
    if i == |s| then [s] else [s[..i]] + Split(s[i + 1..], sep)
  }

  /** `sep.join(pieces)`. */
  function JoinWith(pieces: seq<string>, sep: char): string {
    if pieces == [] then [] else if |pieces| == 1 then pieces[0]
    else pieces[0] + [sep] + JoinWith(pieces[1..], sep)
  }

  /** Joining the pieces of a split with the separator gives back the text; with the
      pieces free of the separator, this determines the split. */
  lemma {:induction false} SplitJoin(s: string, sep: char)
    ensures JoinWith(Split(s, sep), sep) == s
    decreases |s|
  {
    var i := Find(s, {sep});
    if i < |s| {
      var rest := Split(s[i + 1..], sep);
      SplitJoin(s[i + 1..], sep);
      var pieces := [s[..i]] + rest;
      assert Split(s, sep) == pieces;
      assert pieces[1..] == rest;
      assert JoinWith(pieces, sep) == s[..i] + [sep] + JoinWith(rest, sep);
      assert s == s[..i] + [sep] + s[i + 1..];
    }
  }

  /** `s.replace(a, b)` for single characters. */
  function ReplaceChar(s: string, a: char, b: char): (r: string)
    ensures |r| == |s|
  {
    seq(|s|, i requires 0 <= i < |s| => if s[i] == a then b else s[i])
  }

  /** A text without `a` is unchanged by replacing `a`. */
  lemma ReplaceCharAbsent(s: string, a: char, b: char)
    requires a !in s
    ensures ReplaceChar(s, a, b) == s
  {
  }

  /** `s.strip(c)`: drop every leading and trailing `c`. */
  function StripChar(s: string, c: char): (r: string)
    ensures r != [] ==> r[0] != c && r[|r| - 1] != c
    ensures c !in s ==> r == s
    decreases |s|
  {
    if s != [] && s[0] == c then StripChar(s[1..], c)
    else if s != [] && s[|s| - 1] == c then StripChar(s[..|s| - 1], c)
    else s
  }

  /** `r` is the slice of `s` at `k`, with only `c` before and after it. */
  predicate Framed(s: string, r: string, k: nat, c: char) {
    && k + |r| <= |s| && s[k..k + |r|] == r
    && (forall i :: 0 <= i < k ==> s[i] == c)
    && (forall i :: k + |r| <= i < |s| ==> s[i] == c)
  }

  /** `s.strip(c)` is the slice of `s` left between a run of `c` at the start and a run
      of `c` at the end. */
  lemma {:induction false} StripCharIs(s: string, c: char)
    ensures exists k: nat :: Framed(s, StripChar(s, c), k, c)
    decreases |s|
  {
    var r := StripChar(s, c);
    if s != [] && s[0] == c {
      StripCharIs(s[1..], c);
      var k: nat :| Framed(s[1..], r, k, c);
      FramedAfterFirst(s, r, k, c);
    } else if s != [] && s[|s| - 1] == c {
      StripCharIs(s[..|s| - 1], c);
      var k: nat :| Framed(s[..|s| - 1], r, k, c);
      FramedBeforeLast(s, r, k, c);
    } else {
      assert s[0..|s|] == s;
      assert Framed(s, r, 0, c);
    }
  }

  /** A slice framed by `c` in `s[1..]` is framed in `s` when `s` starts with `c`. */
  lemma FramedAfterFirst(s: string, r: string, k: nat, c: char)
    requires s != [] && s[0] == c && Framed(s[1..], r, k, c)
    ensures Framed(s, r, k + 1, c)
  {
    forall i | 0 <= i < |r| ensures s[k + 1..k + 1 + |r|][i] == r[i] {
      assert r[i] == s[1..][k..k + |r|][i] == s[k + 1 + i];
    }
    assert s[k + 1..k + 1 + |r|] == r;
    forall i | 1 <= i < |s| ensures s[i] == s[1..][i - 1] {
    }
  }

  /** A slice framed by `c` in `s` without its last character is framed in `s` when `s`
      ends with `c`. */
  lemma FramedBeforeLast(s: string, r: string, k: nat, c: char)
    requires s != [] && s[|s| - 1] == c && Framed(s[..|s| - 1], r, k, c)
    ensures Framed(s, r, k, c)
  {
    var t := s[..|s| - 1];
    forall i | 0 <= i < |r| ensures s[k..k + |r|][i] == r[i] {
      assert r[i] == t[k..k + |r|][i] == s[k + i];
    }
    assert s[k..k + |r|] == r;
    forall i | 0 <= i < |t| ensures s[i] == t[i] {
    }
  }

  /** `s[:n]`: at most the first `n` characters. */
  function Take(s: string, n: nat): (r: string)
    ensures |r| <= n && StartsWith(s, r)
    ensures |s| <= n ==> r == s
    ensures |s| >= n ==> |r| == n
  {
    if |s| <= n then s else s[..n]
  }
}
