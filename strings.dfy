/** String operations of Python's `str` that the services rely on. */
module Strings {
  import opened Wrappers

  /** The characters for which Python's `str.isspace()` holds. A regular
      expression `\s` over `str` and the argument-less `str.strip()` both use
      exactly these. */
  const Whitespace: set<char> := {'\t', '\n', '\U{0B}', '\U{0C}', '\r', '\U{1C}', '\U{1D}', '\U{1E}', '\U{1F}',
    ' ', '\U{85}', '\U{A0}', '\U{1680}',
    '\U{2000}', '\U{2001}', '\U{2002}', '\U{2003}', '\U{2004}', '\U{2005}',
    '\U{2006}', '\U{2007}', '\U{2008}', '\U{2009}', '\U{200A}',
    '\U{2028}', '\U{2029}', '\U{202F}', '\U{205F}', '\U{3000}'}

  predicate IsSpace(c: char) {
    c in Whitespace
  }

  predicate StartsWith(s: string, prefix: string) {
    |prefix| <= |s| && s[..|prefix|] == prefix
  }

  predicate EndsWith(s: string, suffix: string) {
    |suffix| <= |s| && s[|s| - |suffix|..] == suffix
  }

  /** `p` occurs in `t` as a contiguous block starting at index `i`. */
  predicate OccursAt(p: string, t: string, i: int) {
    0 <= i <= |t| - |p| && t[i..i + |p|] == p
  }

  /** `p` occurs somewhere in `t` as a contiguous block. */
  ghost predicate Occurs(p: string, t: string) {
    exists i :: OccursAt(p, t, i)
  }

  /** The first index at or after `i` where `c` stands in `s`, as
      `s.find(c, i)` finds it. */
  function IndexFrom(s: string, c: char, i: nat): (r: Option<nat>)
    ensures r.Some? ==> i <= r.value < |s| && s[r.value] == c
    ensures r.Some? ==> forall k :: i <= k < r.value ==> s[k] != c
    ensures r.None? ==> forall k :: i <= k < |s| ==> s[k] != c
    decreases |s| - i
  {
    if i >= |s| then None
    else if s[i] == c then Some(i)
    else IndexFrom(s, c, i + 1)
  }

  // ---------------------------------------------------------------------
  // str.strip(chars): character-set strip at both ends
  // ---------------------------------------------------------------------

  /** Number of leading characters of `s` that `drop` accepts. */
  function LeadLen(s: string, drop: char -> bool): (n: nat)
    ensures n <= |s|
    ensures forall i :: 0 <= i < n ==> drop(s[i])
    ensures n < |s| ==> !drop(s[n])
  {
    if s == [] || !drop(s[0]) then 0 else 1 + LeadLen(s[1..], drop)
  }

  /** Number of trailing characters of `s` that `drop` accepts. */
  function TrailLen(s: string, drop: char -> bool): (n: nat)
    ensures n <= |s|
    ensures forall i :: |s| - n <= i < |s| ==> drop(s[i])
    ensures n < |s| ==> !drop(s[|s| - 1 - n])
  {
    if s == [] || !drop(s[|s| - 1]) then 0 else 1 + TrailLen(s[..|s| - 1], drop)
  }

  /** Python's `s.strip(chars)` where `drop` tells the characters of `chars`
      (for the argument-less `s.strip()`, `IsSpace`): leading characters that
      `drop` accepts are removed first, then trailing
      ones from what is left. */
  function Strip(s: string, drop: char -> bool): (r: string)
    ensures |r| <= |s|
    ensures r != [] ==> !drop(r[0]) && !drop(r[|r| - 1])
  {
    var i := LeadLen(s, drop);
    s[i..|s| - TrailLen(s[i..], drop)]
  }

  /** Everything strip removes is accepted by `drop`, and what it keeps is one contiguous
      block of the input. */
  lemma StripIsInfix(s: string, drop: char -> bool)
    ensures var r, i := Strip(s, drop), LeadLen(s, drop);
      i + |r| <= |s| && s[i..i + |r|] == r &&
      (forall k :: 0 <= k < i ==> drop(s[k])) &&
      (forall k :: i + |r| <= k < |s| ==> drop(s[k]))
  {
    var i := LeadLen(s, drop);
    var t := TrailLen(s[i..], drop);
    var r := Strip(s, drop);
    assert r == s[i..|s| - t];
    forall k | i + |r| <= k < |s| ensures drop(s[k]) {
      assert s[k] == s[i..][k - i];
    }
  }

  /** A string that already has no dropped character at either end is left as it is. */
  lemma StripNoop(s: string, drop: char -> bool)
    requires s == [] || (!drop(s[0]) && !drop(s[|s| - 1]))
    ensures Strip(s, drop) == s
  {
    if s != [] {
      assert LeadLen(s, drop) == 0;
      assert s[0..] == s;
      assert TrailLen(s, drop) == 0;
    }
  }

  /** Stripping twice removes nothing more than stripping once. */
  lemma StripIdempotent(s: string, drop: char -> bool)
    ensures Strip(Strip(s, drop), drop) == Strip(s, drop)
  {
    StripNoop(Strip(s, drop), drop);
  }

  lemma {:induction false} TrailLenOfSuffix(p: string, q: string, drop: char -> bool)
    requires p == [] || !drop(p[|p| - 1])
    requires forall k :: 0 <= k < |q| ==> drop(q[k])
    ensures TrailLen(p + q, drop) == |q|
    decreases |q|
  {
    if q == [] {
      assert p + q == p;
    } else {
      assert (p + q)[..|p + q| - 1] == p + q[..|q| - 1];
      TrailLenOfSuffix(p, q[..|q| - 1], drop);
    }
  }

  /** Stripping a text followed by dropped characters only gives the text
      back when its own ends are kept. */
  lemma StripTrailing(p: string, q: string, drop: char -> bool)
    requires p != [] && !drop(p[0]) && !drop(p[|p| - 1])
    requires forall k :: 0 <= k < |q| ==> drop(q[k])
    ensures Strip(p + q, drop) == p
  {
    assert LeadLen(p + q, drop) == 0;
    assert (p + q)[0..] == p + q;
    TrailLenOfSuffix(p, q, drop);
    assert (p + q)[..|p|] == p;
  }

  // ---------------------------------------------------------------------
  // str.replace(p, ''): delete every non-overlapping occurrence, left to right
  // ---------------------------------------------------------------------

  /** Python's `s.replace(p, '')` for a non-empty `p`: scanning from the left,
      each occurrence of `p` is removed and the scan resumes after it. */
  function RemoveAll(s: string, p: string): (r: string)
    requires p != []
    ensures |r| <= |s|
    ensures |s| < |p| ==> r == s
    decreases |s|
  {
    if |s| < |p| then s
    else if s[..|p|] == p then RemoveAll(s[|p|..], p)
    else [s[0]] + RemoveAll(s[1..], p)
  }

  /** Removal never lengthens the text, and when `p` occurs the text loses at
      least one copy of it. */
  lemma {:induction false} RemoveAllShrinks(s: string, p: string)
    requires p != []
    ensures |RemoveAll(s, p)| <= |s|
    ensures Occurs(p, s) ==> |RemoveAll(s, p)| <= |s| - |p|
    decreases |s|
  {
    if |s| < |p| {
    } else if s[..|p|] == p {
      RemoveAllShrinks(s[|p|..], p);
    } else {
      RemoveAllShrinks(s[1..], p);
      if Occurs(p, s) {
        var i :| OccursAt(p, s, i);
        assert i != 0;
        assert s[1..][i - 1..i - 1 + |p|] == p;
        assert OccursAt(p, s[1..], i - 1);
      }
    }
  }

  /** When `p` does not occur, removal leaves the text unchanged. */
  lemma {:induction false} RemoveAllAbsent(s: string, p: string)
    requires p != []
    requires !Occurs(p, s)
    ensures RemoveAll(s, p) == s
    decreases |s|
  {
    if |s| >= |p| {
      assert s[0..|p|] == s[..|p|];
      assert !OccursAt(p, s, 0);
      forall i | OccursAt(p, s[1..], i) ensures OccursAt(p, s, i + 1) {
        assert s[1..][i..i + |p|] == s[i + 1..i + 1 + |p|];
      }
      RemoveAllAbsent(s[1..], p);
      assert [s[0]] + s[1..] == s;
    }
  }

  /** An occurrence at `i > 0` with none before it is, in `s[1..]`, an
      occurrence at `i - 1` with none before it, and `s` does not start with
      `p`. */
  lemma FirstOccurrenceShift(s: string, p: string, i: nat)
    requires p != [] && 0 < i && OccursAt(p, s, i)
    requires forall j :: 0 <= j < i ==> !OccursAt(p, s, j)
    ensures |s| >= |p| && s[..|p|] != p
    ensures OccursAt(p, s[1..], i - 1)
    ensures forall j :: 0 <= j < i - 1 ==> !OccursAt(p, s[1..], j)
  {
    assert s[0..|p|] == s[..|p|];
    assert !OccursAt(p, s, 0);
    assert s[1..][i - 1..i - 1 + |p|] == s[i..i + |p|];
    forall j | 0 <= j < i - 1 ensures !OccursAt(p, s[1..], j) {
      assert s[1..][j..j + |p|] == s[j + 1..j + 1 + |p|];
      assert !OccursAt(p, s, j + 1);
    }
  }

  /** Putting back the first character of a text before a split of the rest
      at `i - 1` gives the split of the text at `i`. */
  lemma ConsSplit(s: string, i: nat, k: nat, rest: string)
    requires 0 < i && i + k <= |s|
    ensures [s[0]] + (s[1..][..i - 1] + rest) == s[..i] + rest
    ensures s[1..][i - 1 + k..] == s[i + k..]
  {
    assert [s[0]] + s[1..][..i - 1] == s[..i];
  }

  /** One step of the scan over a text that does not start with `p`. */
  lemma RemoveAllStep(s: string, p: string)
    requires p != [] && |s| >= |p| && s[..|p|] != p
    ensures RemoveAll(s, p) == [s[0]] + RemoveAll(s[1..], p)
  {
  }

  /** The scan finds the first occurrence of `p`, at `i`, keeps what comes
      before it, deletes it and resumes right after it. */
  lemma {:induction false} RemoveAllFirst(s: string, p: string, i: nat)
    requires p != [] && OccursAt(p, s, i)
    requires forall j :: 0 <= j < i ==> !OccursAt(p, s, j)
    ensures RemoveAll(s, p) == s[..i] + RemoveAll(s[i + |p|..], p)
    decreases i
  {
    if i == 0 {
      assert s[..|p|] == p;
      assert s[..0] + RemoveAll(s[|p|..], p) == RemoveAll(s[|p|..], p);
    } else {
      var t := s[1..];
      FirstOccurrenceShift(s, p, i);
      RemoveAllFirst(t, p, i - 1);
      RemoveAllStep(s, p);
      ConsSplit(s, i, |p|, RemoveAll(s[i + |p|..], p));
    }
  }

  // ---------------------------------------------------------------------
  // sep.join(parts)
  // ---------------------------------------------------------------------

  /** Python's `sep.join(parts)`. */
  function Join(sep: string, parts: seq<string>): (r: string)
    ensures parts == [] ==> r == ""
    ensures |parts| == 1 ==> r == parts[0]
    ensures |parts| > 1 ==> parts[0] + sep <= r
  {
    if parts == [] then ""
    else if |parts| == 1 then parts[0]
    else parts[0] + sep + Join(sep, parts[1..])
  }

  function TotalLength(parts: seq<string>): nat {
    if parts == [] then 0 else |parts[0]| + TotalLength(parts[1..])
  }

  /** The joined text holds every part and one separator between each two
      neighbours. */
  lemma {:induction false} JoinLength(sep: string, parts: seq<string>)
    requires parts != []
    ensures |Join(sep, parts)| == TotalLength(parts) + (|parts| - 1) * |sep|
  {
    if |parts| > 1 {
      JoinLength(sep, parts[1..]);
    }
  }

  /** Joining with one more part appends the separator and that part. */
  lemma {:induction false} JoinSnoc(sep: string, parts: seq<string>, last: string)
    requires parts != []
    ensures Join(sep, parts + [last]) == Join(sep, parts) + sep + last
  {
    if |parts| == 1 {
      assert (parts + [last])[1..] == [last];
    } else {
      assert (parts + [last])[1..] == parts[1..] + [last];
      JoinSnoc(sep, parts[1..], last);
    }
  }

  // ---------------------------------------------------------------------
  // str.lower(), restricted to the letters the services compare
  // ---------------------------------------------------------------------

  /** Lower-case mapping of one character for Latin A–Z and the Cyrillic
      capitals U+0400–U+042F; every other character is left unchanged. */
  function LowerChar(c: char): (l: char)
    ensures c != l ==> ('A' <= c <= 'Z' || '\U{400}' <= c <= '\U{42F}')
  {
    if 'A' <= c <= 'Z' then (c as int + 32) as char
    else if '\U{410}' <= c <= '\U{42F}' then (c as int + 32) as char
    else if '\U{400}' <= c <= '\U{40F}' then (c as int + 80) as char
    else c
  }

  function Lower(s: string): (r: string)
    ensures |r| == |s|
    ensures forall i :: 0 <= i < |s| ==> r[i] == LowerChar(s[i])
  {
    seq(|s|, i requires 0 <= i < |s| => LowerChar(s[i]))
  }
}
