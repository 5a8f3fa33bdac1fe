/** The Python string built-ins that the chatbot relies on: the substring
    test `pat in s`, `s.split(sep)`, `sep.join(parts)` and `s.strip()`. */
module Text {
  import opened Wrappers

  /** `pat` occurs in `s` starting at index `i`. */
  predicate OccursAt(s: string, pat: string, i: int)
  {
    0 <= i && i + |pat| <= |s| && s[i..i + |pat|] == pat
  }

  /** Python's `pat in s`; the empty string occurs in every string, and a
      pattern longer than the text occurs in it nowhere. */
  predicate Contains(s: string, pat: string)
    ensures pat == [] ==> Contains(s, pat)
    ensures Contains(s, pat) ==> |pat| <= |s|
  {
    assert pat == [] ==> OccursAt(s, pat, 0);
    exists i :: 0 <= i <= |s| - |pat| && OccursAt(s, pat, i)
  }

  /** The first occurrence of `pat` in `s` at or after index `k`. */
  function FindFrom(s: string, pat: string, k: nat): (r: Option<nat>)
    requires k <= |s|
    ensures r.Some? ==> k <= r.value && OccursAt(s, pat, r.value)
    ensures r.Some? ==> forall j :: k <= j < r.value ==> !OccursAt(s, pat, j)
    ensures r.None? ==> forall j :: k <= j ==> !OccursAt(s, pat, j)
    decreases |s| - k
  {
    if OccursAt(s, pat, k) then Some(k)
    else if k == |s| then None
    else FindFrom(s, pat, k + 1)
  }

  /** The first occurrence of `pat` in `s`, the position `str.split` cuts at. */
  function Find(s: string, pat: string): (r: Option<nat>)
    ensures r.None? <==> !Contains(s, pat)
    ensures r.Some? ==> OccursAt(s, pat, r.value)
    ensures r.Some? ==> forall j :: 0 <= j < r.value ==> !OccursAt(s, pat, j)
  {
    FindFrom(s, pat, 0)
  }

  /** Python's `s.split(sep)` for a non-empty separator: the pieces between
      non-overlapping occurrences of `sep`, scanned from the left. */
  function Split(s: string, sep: string): (r: seq<string>)
    requires sep != []
    ensures |r| >= 1
    ensures |r| >= 2 <==> Contains(s, sep)
    decreases |s|
  {
    match Find(s, sep)
    case None => [s]
    case Some(i) => [s[..i]] + Split(s[i + |sep|..], sep)
  }

  /** Python's `sep.join(parts)`. */
  function Join(sep: string, parts: seq<string>): string
  {
    if |parts| == 0 then ""
    else if |parts| == 1 then parts[0]
    else parts[0] + sep + Join(sep, parts[1..])
  }

  /** Joining one more part adds the separator and the part at the end. */
  lemma {:induction false} JoinSnoc(sep: string, parts: seq<string>, x: string)
    requires |parts| >= 1
    ensures Join(sep, parts + [x]) == Join(sep, parts) + sep + x
    decreases |parts|
  {
    if |parts| > 1 {
      assert (parts + [x])[1..] == parts[1..] + [x];
      JoinSnoc(sep, parts[1..], x);
    }
  }

  /** Joining the pieces of a split with the separator gives back the string. */
  lemma {:induction false} SplitJoin(s: string, sep: string)
    requires sep != []
    ensures Join(sep, Split(s, sep)) == s
    decreases |s|
  {
    match Find(s, sep)
    case None =>
    case Some(i) =>
      var rest := s[i + |sep|..];
      SplitJoin(rest, sep);
      var tail := Split(rest, sep);
      assert Split(s, sep) == [s[..i]] + tail;
      assert ([s[..i]] + tail)[1..] == tail;
      assert s == s[..i] + s[i..i + |sep|] + rest;
  }

  /** No piece of a split contains the separator. */
  lemma {:induction false} SplitPiecesClean(s: string, sep: string)
    requires sep != []
    ensures forall k :: 0 <= k < |Split(s, sep)| ==> !Contains(Split(s, sep)[k], sep)
    decreases |s|
  {
    match Find(s, sep)
    case None =>
    case Some(i) =>
      var rest := s[i + |sep|..];
      SplitPiecesClean(rest, sep);
      PrefixBeforeFirst(s, sep, i);
  }

  /** The text before the first occurrence of `sep` does not contain `sep`. */
  lemma PrefixBeforeFirst(s: string, sep: string, i: nat)
    requires sep != [] && i <= |s|
    requires forall j :: 0 <= j < i ==> !OccursAt(s, sep, j)
    ensures !Contains(s[..i], sep)
  {
    forall j | 0 <= j <= |s[..i]| - |sep|
      ensures !OccursAt(s[..i], sep, j)
    {
      assert !OccursAt(s, sep, j);
      assert s[..i][j..j + |sep|] == s[j..j + |sep|];
    }
  }

  /** The first piece of a split is the text before the first occurrence of
      `sep`, or the whole string when there is none. */
  lemma SplitHead(s: string, sep: string)
    requires sep != []
    ensures var p := Split(s, sep)[0];
      |p| <= |s| && p == s[..|p|] && !Contains(p, sep) && (p == s || OccursAt(s, sep, |p|))
  {
    SplitPiecesClean(s, sep);
  }

  /** `SplitHead`, naming the length `n` of the first piece. */
  lemma FirstPiece(s: string, sep: string) returns (n: nat)
    requires sep != []
    ensures n <= |s| && Split(s, sep)[0] == s[..n] && !Contains(s[..n], sep)
    ensures n == |s| || OccursAt(s, sep, n)
  {
    SplitHead(s, sep);
    n := |Split(s, sep)[0]|;
    if n == |s| {
      assert s[..n] == s;
    }
  }

  /** An occurrence in a suffix is an occurrence in the whole string. */
  lemma OccursInSuffix(s: string, pat: string, d: nat, k: nat)
    requires d <= |s| && OccursAt(s[d..], pat, k)
    ensures OccursAt(s, pat, d + k)
  {
    assert s[d..][k..k + |pat|] == s[d + k..d + k + |pat|];
  }

  /** When `sep` first occurs in `s` at `i`, the second piece of the split is
      the first piece of the text after that occurrence. */
  lemma SplitSecond(s: string, sep: string, i: nat)
    requires sep != [] && Find(s, sep) == Some(i)
    ensures i + |sep| <= |s| && Split(s, sep)[1] == Split(s[i + |sep|..], sep)[0]
  {
  }

  /** The second piece of a split is the text between the first occurrence
      of `sep` (at `i`) and the next one (at `j`), or the end (`j == |s|`). */
  lemma SecondPiece(s: string, sep: string) returns (i: nat, j: nat)
    requires sep != [] && Contains(s, sep)
    ensures OccursAt(s, sep, i) && forall k :: 0 <= k < i ==> !OccursAt(s, sep, k)
    ensures i + |sep| <= j <= |s| && Split(s, sep)[1] == s[i + |sep|..j]
    ensures !Contains(s[i + |sep|..j], sep)
    ensures j == |s| || OccursAt(s, sep, j)
  {
    var f := Find(s, sep);
    i := f.value;
    j := SecondPieceAt(s, sep, i);
  }

  /** `SecondPiece`, for the first occurrence `i` already known. */
  lemma SecondPieceAt(s: string, sep: string, i: nat) returns (j: nat)
    requires sep != [] && Find(s, sep) == Some(i)
    ensures i + |sep| <= j <= |s| && Split(s, sep)[1] == s[i + |sep|..j]
    ensures !Contains(s[i + |sep|..j], sep)
    ensures j == |s| || OccursAt(s, sep, j)
  {
    var n := SecondPieceLength(s, sep, i);
    PieceInSuffix(s, sep, i + |sep|, n);
    j := i + |sep| + n;
  }

  /** The second piece of a split, as a prefix of length `n` of the text
      after the first occurrence of `sep` (at `i`). */
  lemma SecondPieceLength(s: string, sep: string, i: nat) returns (n: nat)
    requires sep != [] && Find(s, sep) == Some(i)
    ensures i + |sep| <= |s| && n <= |s| - (i + |sep|)
    ensures Split(s, sep)[1] == s[i + |sep|..][..n] && !Contains(s[i + |sep|..][..n], sep)
    ensures n == |s| - (i + |sep|) || OccursAt(s[i + |sep|..], sep, n)
  {
    SplitSecond(s, sep, i);
    n := FirstPiece(s[i + |sep|..], sep);
  }

  /** A piece `s[d..][..n]` of a suffix, read as a slice of `s` itself. */
  lemma PieceInSuffix(s: string, sep: string, d: nat, n: nat)
    requires d <= |s| && n <= |s| - d
    requires n == |s| - d || OccursAt(s[d..], sep, n)
    ensures s[d..][..n] == s[d..d + n]
    ensures d + n == |s| || OccursAt(s, sep, d + n)
  {
    if n < |s| - d {
      OccursInSuffix(s, sep, d, n);
    }
  }

  /** When `sep` occurs only once in `s`, at `i`, the second piece of the
      split is everything after it. */
  lemma SecondPieceOnly(s: string, sep: string, i: nat)
    requires sep != [] && OccursAt(s, sep, i)
    requires forall k :: 0 <= k < i ==> !OccursAt(s, sep, k)
    requires !Contains(s[i + |sep|..], sep)
    ensures Contains(s, sep) && |Split(s, sep)| >= 2 && Split(s, sep)[1] == s[i + |sep|..]
  {
    assert Contains(s, sep);
    assert Find(s, sep) == Some(i);
    var j := SecondPieceAt(s, sep, i);
    NoOccurrenceIn(s, sep, i + |sep|);
    assert j == |s|;
  }

  /** No occurrence in a suffix means no occurrence of `sep` from there on. */
  lemma NoOccurrenceIn(s: string, sep: string, d: nat)
    requires d <= |s| && !Contains(s[d..], sep)
    ensures forall m :: d <= m ==> !OccursAt(s, sep, m)
  {
    forall m | d <= m
      ensures !OccursAt(s, sep, m)
    {
      if m + |sep| <= |s| {
        assert !OccursAt(s[d..], sep, m - d);
        assert s[d..][m - d..m - d + |sep|] == s[m..m + |sep|];
      }
    }
  }

  /** Splitting text joined with a one-character separator that occurs in
      no part gives back the parts. */
  lemma {:induction false} JoinSplitChar(c: char, parts: seq<string>)
    requires |parts| >= 1
    requires forall k :: 0 <= k < |parts| ==> c !in parts[k]
    ensures Split(Join([c], parts), [c]) == parts
  {
    var s := Join([c], parts);
    if |parts| == 1 {
      NoCharNoOccurrence(c, parts[0]);
    } else {
      var rest := Join([c], parts[1..]);
      assert s == parts[0] + [c] + rest;
      var n := |parts[0]|;
      assert OccursAt(s, [c], n) by { assert s[n..n + 1] == [c]; }
      forall j | 0 <= j < n ensures !OccursAt(s, [c], j) {
        assert s[j] == parts[0][j];
      }
      var f := Find(s, [c]);
      assert f == Some(n);
      assert s[n + 1..] == rest;
      assert s[..n] == parts[0];
      assert Split(s, [c]) == [parts[0]] + Split(rest, [c]);
      JoinSplitChar(c, parts[1..]);
      assert parts == [parts[0]] + parts[1..];
    }
  }

  /** A string without the character `c` has no occurrence of `[c]`. */
  lemma NoCharNoOccurrence(c: char, s: string)
    requires c !in s
    ensures Split(s, [c]) == [s]
  {
    forall j | 0 <= j < |s| ensures !OccursAt(s, [c], j) {
      assert s[j..j + 1][0] == s[j] != c;
    }
  }

  /** `pat` cannot occur at a position of `s` that does not hold its first
      character; so it occurs nowhere before `i` if that character is not in
      `s[..i]`. */
  lemma NoFirstCharBefore(s: string, pat: string, i: nat)
    requires pat != [] && i <= |s| && pat[0] !in s[..i]
    ensures forall k :: 0 <= k < i ==> !OccursAt(s, pat, k)
  {
    forall k | 0 <= k < i ensures !OccursAt(s, pat, k) {
      assert s[..i][k] == s[k];
      if k + |pat| <= |s| {
        assert s[k..k + |pat|][0] == s[k];
      }
    }
  }

  /** Python's `str.isspace()` on one character: the characters `strip()` removes. */
  predicate IsSpace(c: char)
  {
    c == ' ' || c == '\t' || c == '\n' || c == '\r' || c == '\U{0B}' || c == '\U{0C}'
    || ('\U{1C}' <= c <= '\U{1F}') || c == '\U{85}' || c == '\U{A0}' || c == '\U{1680}'
    || ('\U{2000}' <= c <= '\U{200A}') || c == '\U{2028}' || c == '\U{2029}'
    || c == '\U{202F}' || c == '\U{205F}' || c == '\U{3000}'
  }

  predicate AllSpace(s: string)
  {
    forall k :: 0 <= k < |s| ==> IsSpace(s[k])
  }

  /** Python's `s.lstrip()`. */
  function StripStart(s: string): (r: string)
    ensures |r| <= |s| && r == s[|s| - |r|..]
    ensures AllSpace(s[..|s| - |r|])
    ensures r == [] || !IsSpace(r[0])
  {
    if |s| > 0 && IsSpace(s[0]) then
      var r := StripStart(s[1..]);
      LeadingSpace(s, r);
      r
    else s
  }

  /** Python's `s.rstrip()`. */
  function StripEnd(s: string): (r: string)
    ensures |r| <= |s| && r == s[..|r|]
    ensures AllSpace(s[|r|..])
    ensures r == [] || !IsSpace(r[|r| - 1])
  {
    if |s| > 0 && IsSpace(s[|s| - 1]) then
      var r := StripEnd(s[..|s| - 1]);
      TrailingSpace(s, r);
      r
    else s
  }

  /** One more leading whitespace character in front of what `lstrip()` cut. */
  lemma LeadingSpace(s: string, r: string)
    requires |s| > 0 && IsSpace(s[0]) && |r| <= |s| - 1
    requires r == s[1..][|s| - 1 - |r|..] && AllSpace(s[1..][..|s| - 1 - |r|])
    ensures r == s[|s| - |r|..] && AllSpace(s[..|s| - |r|])
  {
    assert s[..|s| - |r|] == [s[0]] + s[1..][..|s| - 1 - |r|];
  }

  /** One more trailing whitespace character behind what `rstrip()` cut. */
  lemma TrailingSpace(s: string, r: string)
    requires |s| > 0 && IsSpace(s[|s| - 1]) && |r| <= |s| - 1
    requires r == s[..|s| - 1][..|r|] && AllSpace(s[..|s| - 1][|r|..])
    ensures r == s[..|r|] && AllSpace(s[|r|..])
  {
    assert s[|r|..] == s[..|s| - 1][|r|..] + [s[|s| - 1]];
  }

  /** Python's `s.strip()`: the result neither starts nor ends with whitespace. */
  function Strip(s: string): (r: string)
    ensures r == [] || (!IsSpace(r[0]) && !IsSpace(r[|r| - 1]))
  {
    StripEnd(StripStart(s))
  }

  /** Stripping a word with one space before it gives the word back. */
  lemma StripSpaced(w: string)
    requires w != [] && !IsSpace(w[0]) && !IsSpace(w[|w| - 1])
    ensures Strip(" " + w) == w
  {
    assert (" " + w)[1..] == w;
  }

  /** `strip()` removes only whitespace, and only from the two ends. */
  lemma StripTrims(s: string)
    ensures exists a, b ::
              0 <= a <= b <= |s| && Strip(s) == s[a..b] && AllSpace(s[..a]) && AllSpace(s[b..])
  {
    var t := StripStart(s);
    var r := StripEnd(t);
    TrimmedSlice(s, t, r);
    assert Strip(s) == s[|s| - |t|..|s| - |t| + |r|];
  }

  /** A prefix `r` of a suffix `t` of `s`, both cut off at whitespace, is the
      slice of `s` between the two cuts. */
  lemma TrimmedSlice(s: string, t: string, r: string)
    requires |t| <= |s| && t == s[|s| - |t|..] && AllSpace(s[..|s| - |t|])
    requires |r| <= |t| && r == t[..|r|] && AllSpace(t[|r|..])
    ensures r == s[|s| - |t|..|s| - |t| + |r|] && AllSpace(s[|s| - |t| + |r|..])
  {
    var b := |s| - |t| + |r|;
    assert s[b..] == t[|r|..];
  }

  /** A slice of a text without `pat` has no `pat` either. */
  lemma SliceNoOccurrence(s: string, pat: string, a: nat, b: nat)
    requires a <= b <= |s| && !Contains(s, pat)
    ensures !Contains(s[a..b], pat)
  {
    forall k | 0 <= k <= (b - a) - |pat|
      ensures !OccursAt(s[a..b], pat, k)
    {
      OccursInSlice(s, pat, a, b, k);
    }
  }

  /** An occurrence in `s[a..b]` at `k` is an occurrence in `s` at `a + k`. */
  lemma OccursInSlice(s: string, pat: string, a: nat, b: nat, k: nat)
    requires a <= b <= |s|
    ensures OccursAt(s[a..b], pat, k) ==> OccursAt(s, pat, a + k)
  {
    if OccursAt(s[a..b], pat, k) {
      var m := |pat|;
      forall x | 0 <= x < m ensures s[a + k..a + k + m][x] == pat[x] {
        assert s[a..b][k..k + m][x] == pat[x];
        assert s[a..b][k + x] == s[a + k + x];
      }
      assert s[a + k..a + k + m] == pat;
    }
  }

  /** Stripping a text without `pat` cannot create `pat`. */
  lemma StripNoOccurrence(s: string, pat: string)
    requires !Contains(s, pat)
    ensures !Contains(Strip(s), pat)
  {
    StripTrims(s);
    var a, b :| 0 <= a <= b <= |s| && Strip(s) == s[a..b] && AllSpace(s[..a]) && AllSpace(s[b..]);
    SliceNoOccurrence(s, pat, a, b);
  }

  /** Stripping twice is stripping once. */
  lemma StripIdempotent(s: string)
    ensures Strip(Strip(s)) == Strip(s)
  {
    var r := Strip(s);
    if r != [] {
      assert StripStart(r) == r;
      assert StripEnd(r) == r;
    }
  }
}
