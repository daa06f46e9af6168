/** The corpus reader: splits a trailing metadata block off each Markdown
    file and turns every such file into a document. */
module Reader {
  import opened Wrappers
  import opened Strings
  import opened Documents
  import Sequences

  // ---------------------------------------------------------------------
  // The metadata pattern
  //   ` Metadata\s*link: (https?://[^\s]+)\s*date: (\d{2}-\d{4})`
  // ---------------------------------------------------------------------

  const Marker: string := " Metadata"
  const LinkLabel: string := "link: "
  const DateLabel: string := "date: "

  predicate IsDigit(c: char) {
    '0' <= c <= '9'
  }

  /** `t[p..q]` is all whitespace. */
  predicate AllWs(t: string, p: nat, q: nat)
    requires p <= q <= |t|
  {
    forall k {:trigger IsSpace(t[k])} :: p <= k < q ==> IsSpace(t[k])
  }

  /** `t[p..q]` holds no whitespace. */
  predicate NoWs(t: string, p: nat, q: nat)
    requires p <= q <= |t|
  {
    forall k {:trigger IsSpace(t[k])} :: p <= k < q ==> !IsSpace(t[k])
  }

  /** The word `w` appears in `t` at position `p`. */
  predicate HasAt(t: string, p: nat, w: string) {
    p + |w| <= |t| && forall k :: 0 <= k < |w| ==> t[p + k] == w[k]
  }

  /** The date group at `p`: two digits, a dash, four digits. */
  predicate DateShapeAt(t: string, p: nat) {
    p + 7 <= |t| && IsDigit(t[p]) && IsDigit(t[p + 1]) && t[p + 2] == '-' &&
    IsDigit(t[p + 3]) && IsDigit(t[p + 4]) && IsDigit(t[p + 5]) && IsDigit(t[p + 6])
  }

  /** The link group in `t[ls..le]`: `http://` or `https://` followed by at
      least one non-whitespace character and nothing else. */
  predicate LinkShapeAt(t: string, ls: nat, le: nat) {
    le <= |t| &&
    ((HasAt(t, ls, "http://") && ls + 7 < le && NoWs(t, ls + 7, le)) ||
     (HasAt(t, ls, "https://") && ls + 8 < le && NoWs(t, ls + 8, le)))
  }

  /** Where one match of the pattern lies in a text: the start of the
      ` Metadata` marker, the link group `[linkStart, linkEnd)` and the start
      of the seven-character date group. */
  datatype Span = Span(start: nat, linkStart: nat, linkEnd: nat, dateStart: nat) {
    function End(): nat { dateStart + 7 }

    /** The parts lie in this order inside a text of length `n`. */
    predicate Within(n: nat) {
      start + 15 <= linkStart < linkEnd && linkEnd + 6 <= dateStart && End() <= n
    }
  }

  /** ` Metadata\s*link: ` from `a`, the link group starting at `ls`. */
  predicate LinkLabelAt(t: string, a: nat, ls: nat) {
    a + 15 <= ls <= |t| &&
    HasAt(t, a, Marker) && AllWs(t, a + 9, ls - 6) && HasAt(t, ls - 6, LinkLabel)
  }

  /** `\s*date: (\d{2}-\d{4})` from `le`, the date group starting at `ds`. */
  predicate DateLabelAt(t: string, le: nat, ds: nat) {
    le + 6 <= ds && ds + 7 <= |t| &&
    AllWs(t, le, ds - 6) && HasAt(t, ds - 6, DateLabel) && DateShapeAt(t, ds)
  }

  /** `m` is one way in which the pattern matches `t`. */
  predicate IsMatch(t: string, m: Span) {
    LinkLabelAt(t, m.start, m.linkStart) &&
    LinkShapeAt(t, m.linkStart, m.linkEnd) &&
    DateLabelAt(t, m.linkEnd, m.dateStart)
  }

  // ---------------------------------------------------------------------
  // The matcher: leftmost start, then the longest link that lets the rest match
  // ---------------------------------------------------------------------

  /** Greedy `\s*` from `p`: the end of the run of whitespace there. */
  function SkipWs(t: string, p: nat): (q: nat)
    requires p <= |t|
    ensures p <= q <= |t|
    decreases |t| - p
  {
    if p < |t| && IsSpace(t[p]) then SkipWs(t, p + 1) else p
  }

  /** Greedy `[^\s]*` from `p`: the end of the run of non-whitespace there. */
  function SkipNonWs(t: string, p: nat): (q: nat)
    requires p <= |t|
    ensures p <= q <= |t|
    decreases |t| - p
  {
    if p < |t| && !IsSpace(t[p]) then SkipNonWs(t, p + 1) else p
  }

  /** `https?://` at `p`: the position after it, if it is there. */
  function SchemeEnd(t: string, p: nat): (r: Option<nat>)
    ensures r.Some? ==> r.value <= |t|
  {
    if HasAt(t, p, "https://") then Some(p + 8)
    else if HasAt(t, p, "http://") then Some(p + 7)
    else None
  }

  /** `\s*date: (\d{2}-\d{4})` tried at `e`: the start of the date group if
      it matches there. */
  function DateAfter(t: string, e: nat): (r: Option<nat>)
    requires e <= |t|
    ensures r.Some? ==> e + 6 <= r.value && r.value + 7 <= |t|
  {
    var p := SkipWs(t, e);
    if HasAt(t, p, DateLabel) && DateShapeAt(t, p + 6) then Some(p + 6) else None
  }

  /** Backtracking of `[^\s]+`: the link ends `e`, `e - 1`, …, `lo + 1` are
      tried in that order and the first one after which the date part
      matches is kept, with the start of the date group. */
  function LinkEnd(t: string, lo: nat, e: nat): (r: Option<(nat, nat)>)
    requires lo < e <= |t|
    ensures r.Some? ==> lo < r.value.0 <= e && r.value.0 + 6 <= r.value.1 && r.value.1 + 7 <= |t|
    decreases e
  {
    if DateAfter(t, e).Some? then Some((e, DateAfter(t, e).value))
    else if e - 1 > lo then LinkEnd(t, lo, e - 1)
    else None
  }

  /** `(https?://[^\s]+)\s*date: (\d{2}-\d{4})` tried at `ls`: the end of
      the link group and the start of the date group, if it matches there. */
  function LinkAndDate(t: string, ls: nat): (r: Option<(nat, nat)>)
    requires ls <= |t|
    ensures r.Some? ==> ls < r.value.0 && r.value.0 + 6 <= r.value.1 && r.value.1 + 7 <= |t|
  {
    var rs := SchemeEnd(t, ls);
    if rs.None? then None
    else
      var re := SkipNonWs(t, rs.value);
      if re == rs.value then None else LinkEnd(t, rs.value, re)
  }

  /** The match that the regular-expression engine finds when it tries the
      pattern at position `a`, if any. */
  function MatchAt(t: string, a: nat): (r: Option<Span>)
    requires a <= |t|
    ensures r.Some? ==> r.value.start == a && r.value.Within(|t|)
  {
    if !HasAt(t, a, Marker) then None
    else
      var p := SkipWs(t, a + 9);
      var ld := if HasAt(t, p, LinkLabel) then LinkAndDate(t, p + 6) else None;
      if ld.None? then None else Some(Span(a, p + 6, ld.value.0, ld.value.1))
  }

  /** `re.search`: the match found at the first position from `a` on where
      the pattern matches. */
  function Search(t: string, a: nat): (r: Option<Span>)
    requires a <= |t|
    ensures r.Some? ==> a <= r.value.start && r.value.Within(|t|)
    decreases |t| - a
  {
    if MatchAt(t, a).Some? then MatchAt(t, a)
    else if a == |t| then None
    else Search(t, a + 1)
  }

  // ---------------------------------------------------------------------
  // What each step of the matcher accepts
  // ---------------------------------------------------------------------

  lemma {:induction false} SkipWsSpec(t: string, p: nat)
    requires p <= |t|
    ensures AllWs(t, p, SkipWs(t, p))
    ensures SkipWs(t, p) < |t| ==> !IsSpace(t[SkipWs(t, p)])
    decreases |t| - p
  {
    if p < |t| && IsSpace(t[p]) {
      SkipWsSpec(t, p + 1);
    }
  }

  lemma {:induction false} SkipNonWsSpec(t: string, p: nat)
    requires p <= |t|
    ensures NoWs(t, p, SkipNonWs(t, p))
    decreases |t| - p
  {
    if p < |t| && !IsSpace(t[p]) {
      SkipNonWsSpec(t, p + 1);
    }
  }

  lemma DateAfterSpec(t: string, e: nat)
    requires e <= |t| && DateAfter(t, e).Some?
    ensures DateLabelAt(t, e, DateAfter(t, e).value)
  {
    SkipWsSpec(t, e);
  }

  lemma {:induction false} LinkEndSpec(t: string, lo: nat, e: nat)
    requires lo < e <= |t| && LinkEnd(t, lo, e).Some?
    ensures DateAfter(t, LinkEnd(t, lo, e).value.0) == Some(LinkEnd(t, lo, e).value.1)
    decreases e
  {
    if DateAfter(t, e).None? {
      LinkEndSpec(t, lo, e - 1);
    }
  }

  lemma LinkAndDateSpec(t: string, ls: nat)
    requires ls <= |t| && LinkAndDate(t, ls).Some?
    ensures var r := LinkAndDate(t, ls).value;
      LinkShapeAt(t, ls, r.0) && DateLabelAt(t, r.0, r.1)
  {
    var rs := SchemeEnd(t, ls).value;
    var re := SkipNonWs(t, rs);
    SkipNonWsSpec(t, rs);
    LinkEndSpec(t, rs, re);
    DateAfterSpec(t, LinkAndDate(t, ls).value.0);
  }

  /** Whatever `MatchAt` finds is a match of the pattern. */
  lemma MatchAtSound(t: string, a: nat)
    requires a <= |t| && MatchAt(t, a).Some?
    ensures IsMatch(t, MatchAt(t, a).value)
  {
    var m := MatchAt(t, a).value;
    SkipWsSpec(t, a + 9);
    assert LinkLabelAt(t, a, m.linkStart);
    LinkAndDateSpec(t, m.linkStart);
  }

  // ---------------------------------------------------------------------
  // The matcher finds exactly the leftmost match, with the longest link
  // ---------------------------------------------------------------------

  /** A run of whitespace that stops at a non-space or at the end is exactly
      what `\s*` consumes. */
  lemma {:induction false} SkipWsExact(t: string, p: nat, q: nat)
    requires p <= q <= |t| && AllWs(t, p, q) && (q < |t| ==> !IsSpace(t[q]))
    ensures SkipWs(t, p) == q
    decreases q - p
  {
    if p < q {
      SkipWsExact(t, p + 1, q);
    }
  }

  /** `[^\s]*` consumes at least every run without whitespace. */
  lemma {:induction false} SkipNonWsReaches(t: string, p: nat, q: nat)
    requires p <= q <= |t| && NoWs(t, p, q)
    ensures q <= SkipNonWs(t, p)
    decreases q - p
  {
    if p < q {
      SkipNonWsReaches(t, p + 1, q);
    }
  }

  /** Trying link ends downward from `e` reaches any end `f` after which the
      date part matches, so the end kept is at least `f`. */
  lemma {:induction false} LinkEndReaches(t: string, lo: nat, e: nat, f: nat)
    requires lo < f <= e <= |t| && DateAfter(t, f).Some?
    ensures LinkEnd(t, lo, e).Some? && f <= LinkEnd(t, lo, e).value.0
    decreases e
  {
    if DateAfter(t, e).None? {
      LinkEndReaches(t, lo, e - 1, f);
    }
  }

  /** A text of the link shape starts with a scheme that `https?://`
      consumes, followed by at least one character and no whitespace. */
  lemma SchemeOfLink(t: string, ls: nat, le: nat)
    requires LinkShapeAt(t, ls, le)
    ensures SchemeEnd(t, ls).Some? && SchemeEnd(t, ls).value < le && NoWs(t, SchemeEnd(t, ls).value, le)
  {
    if HasAt(t, ls, "http://") {
      assert t[ls + 4] == "http://"[4] == ':';
      assert "https://"[4] == 's';
    }
  }

  lemma LinkLabelFound(t: string, a: nat, ls: nat)
    requires LinkLabelAt(t, a, ls)
    ensures SkipWs(t, a + 9) == ls - 6
  {
    assert t[ls - 6] == LinkLabel[0] == 'l' && !IsSpace('l');
    SkipWsExact(t, a + 9, ls - 6);
  }

  /** Whenever a link and the date part can follow at `ls`, trying them there
      succeeds, with a link at least as long. */
  lemma LinkAndDateComplete(t: string, ls: nat, le: nat, ds: nat)
    requires LinkShapeAt(t, ls, le) && DateLabelAt(t, le, ds)
    ensures LinkAndDate(t, ls).Some? && le <= LinkAndDate(t, ls).value.0
  {
    SchemeOfLink(t, ls, le);
    var rs := SchemeEnd(t, ls).value;
    SkipNonWsReaches(t, rs, le);
    var re := SkipNonWs(t, rs);
    assert t[ds - 6] == DateLabel[0] == 'd' && !IsSpace('d');
    SkipWsExact(t, le, ds - 6);
    assert DateAfter(t, le) == Some(ds);
    LinkEndReaches(t, rs, re, le);
  }

  lemma MatchAtFromParts(t: string, a: nat, ls: nat, le: nat)
    requires LinkLabelAt(t, a, ls) && SkipWs(t, a + 9) == ls - 6
    requires LinkAndDate(t, ls).Some? && le <= LinkAndDate(t, ls).value.0
    ensures MatchAt(t, a).Some? && le <= MatchAt(t, a).value.linkEnd
  {
  }

  /** If the pattern can match at `a`, trying it there succeeds, and the
      link kept is at least as long as that of any match starting at `a`. */
  lemma MatchAtCompleteAt(t: string, m: Span)
    requires IsMatch(t, m)
    ensures MatchAt(t, m.start).Some? && m.linkEnd <= MatchAt(t, m.start).value.linkEnd
  {
    LinkLabelFound(t, m.start, m.linkStart);
    LinkAndDateComplete(t, m.linkStart, m.linkEnd, m.dateStart);
    MatchAtFromParts(t, m.start, m.linkStart, m.linkEnd);
  }

  /** Whatever `Search` finds is a match of the pattern. */
  lemma {:induction false} SearchSound(t: string, a: nat)
    requires a <= |t| && Search(t, a).Some?
    ensures IsMatch(t, Search(t, a).value)
    decreases |t| - a
  {
    if MatchAt(t, a).Some? {
      MatchAtSound(t, a);
    } else {
      SearchSound(t, a + 1);
    }
  }

  /** A match starting at or after `a` is found by `Search`, or a match
      starting before it is, or one starting at the same place with a link at
      least as long. */
  lemma {:induction false} SearchReaches(t: string, a: nat, m: Span)
    requires a <= m.start && IsMatch(t, m)
    ensures Search(t, a).Some? && Search(t, a).value.start <= m.start
    ensures m.start == Search(t, a).value.start ==> m.linkEnd <= Search(t, a).value.linkEnd
    decreases m.start - a
  {
    if m.start == a {
      MatchAtCompleteAt(t, m);
    } else if MatchAt(t, a).None? {
      SearchReaches(t, a + 1, m);
    }
  }

  /** `Search` finds the leftmost match from `a` on and, among the matches
      starting there, the one with the longest link (the greedy choice of
      `[^\s]+`); it finds nothing only when no match starts at or after `a`. */
  lemma SearchLeftmost(t: string, a: nat)
    requires a <= |t|
    ensures Search(t, a).None? ==> forall m :: IsMatch(t, m) ==> m.start < a
    ensures Search(t, a).Some? ==> forall m :: IsMatch(t, m) && a <= m.start ==>
      Search(t, a).value.start <= m.start &&
      (m.start == Search(t, a).value.start ==> m.linkEnd <= Search(t, a).value.linkEnd)
  {
    forall m | IsMatch(t, m) && a <= m.start
      ensures Search(t, a).Some? && Search(t, a).value.start <= m.start
      ensures m.start == Search(t, a).value.start ==> m.linkEnd <= Search(t, a).value.linkEnd
    {
      SearchReaches(t, a, m);
    }
  }

  // ---------------------------------------------------------------------
  // datetime.strptime(s, '%d-%m-%Y')
  // ---------------------------------------------------------------------

  predicate IsNonZeroDigit(c: char) {
    '1' <= c <= '9'
  }

  /** The text `%d` accepts: `3[01]|[12]\d|0[1-9]|[1-9]| [1-9]`. */
  predicate DayField(f: string) {
    (|f| == 1 && IsNonZeroDigit(f[0])) ||
    (|f| == 2 &&
      ((f[0] == '3' && (f[1] == '0' || f[1] == '1')) ||
       ((f[0] == '1' || f[0] == '2') && IsDigit(f[1])) ||
       ((f[0] == '0' || f[0] == ' ') && IsNonZeroDigit(f[1]))))
  }

  /** The text `%m` accepts: `1[0-2]|0[1-9]|[1-9]`. */
  predicate MonthField(f: string) {
    (|f| == 1 && IsNonZeroDigit(f[0])) ||
    (|f| == 2 && ((f[0] == '1' && '0' <= f[1] <= '2') || (f[0] == '0' && IsNonZeroDigit(f[1]))))
  }

  /** The text `%Y` accepts: four digits. */
  predicate YearField(f: string) {
    |f| == 4 && IsDigit(f[0]) && IsDigit(f[1]) && IsDigit(f[2]) && IsDigit(f[3])
  }

  /** `int(f)` for a field of digits, a leading blank counting as nothing. */
  function FieldValue(f: string): nat {
    if f == [] then 0
    else FieldValue(f[..|f| - 1]) * 10 + (if IsDigit(f[|f| - 1]) then f[|f| - 1] as nat - '0' as nat else 0)
  }

  predicate IsLeapYear(y: nat) {
    y % 4 == 0 && (y % 100 != 0 || y % 400 == 0)
  }

  function DaysInMonth(m: nat, y: nat): nat {
    if m == 2 then (if IsLeapYear(y) then 29 else 28)
    else if m == 4 || m == 6 || m == 9 || m == 11 then 30
    else 31
  }

  /** A day of the proleptic Gregorian calendar that `datetime` accepts. */
  predicate IsCalendarDate(d: Date) {
    1 <= d.year && 1 <= d.month <= 12 && 1 <= d.day <= DaysInMonth(d.month, d.year)
  }

  /** `datetime.strptime(s, '%d-%m-%Y')`, with `None` where it raises
      `ValueError`: the day, month and year fields are separated by the
      first two dashes, each must have the form its directive accepts, the
      year field must end the text and the date must exist. */
  function ParseDate(s: string): (r: Option<Date>)
    ensures r.Some? ==> IsCalendarDate(r.value)
    ensures r.Some? ==> IndexFrom(s, '-', 0).Some? && IndexFrom(s, '-', IndexFrom(s, '-', 0).value + 1).Some?
  {
    var i := IndexFrom(s, '-', 0);
    if i.None? then None
    else
      var j := IndexFrom(s, '-', i.value + 1);
      if j.None? then None
      else
        var day, month, year := s[..i.value], s[i.value + 1..j.value], s[j.value + 1..];
        if !(DayField(day) && MonthField(month) && YearField(year)) then None
        else
          var d := Date(FieldValue(year), FieldValue(month), FieldValue(day));
          if IsCalendarDate(d) then Some(d) else None
  }

  /** The date group of the pattern holds a single dash, so `strptime`
      with two dashes in its format rejects it. */
  lemma DateGroupUnparsable(t: string, p: nat)
    requires DateShapeAt(t, p)
    ensures ParseDate(t[p..p + 7]).None?
  {
    var s := t[p..p + 7];
    assert s[2] == '-';
    assert IndexFrom(s, '-', 0) == Some(2);
    assert forall k :: 3 <= k < 7 ==> IsDigit(s[k]);
    assert IndexFrom(s, '-', 3).None?;
  }

  /** A well-formed two-dash date parses to that day. */
  lemma ParseDateExample()
    ensures ParseDate("15-03-2024") == Some(Date(2024, 3, 15))
  {
    var s := "15-03-2024";
    assert IndexFrom(s, '-', 0) == Some(2);
    assert IndexFrom(s, '-', 3) == Some(5);
    assert s[..2] == "15" && s[3..5] == "03" && s[6..] == "2024";
    assert FieldValue("2024") == 2024 by {
      assert "2024"[..3] == "202" && "202"[..2] == "20" && "20"[..1] == "2" && "2"[..0] == "";
    }
    assert FieldValue("03") == 3 by {
      assert "03"[..1] == "0" && "0"[..0] == "";
    }
    assert FieldValue("15") == 15 by {
      assert "15"[..1] == "1" && "1"[..0] == "";
    }
  }

  /** A day that does not exist is rejected like any other malformed date. */
  lemma ParseDateNoSuchDay()
    ensures ParseDate("29-02-2023") == None
  {
    var s := "29-02-2023";
    assert IndexFrom(s, '-', 0) == Some(2);
    assert IndexFrom(s, '-', 3) == Some(5);
    assert s[..2] == "29" && s[3..5] == "02" && s[6..] == "2023";
    assert FieldValue("2023") == 2023 by {
      assert "2023"[..3] == "202" && "202"[..2] == "20" && "20"[..1] == "2" && "2"[..0] == "";
    }
    assert FieldValue("02") == 2 by {
      assert "02"[..1] == "0" && "0"[..0] == "";
    }
  }

  // ---------------------------------------------------------------------
  // extract_metadata
  // ---------------------------------------------------------------------

  /** The shape of a captured link: `http://` or `https://`, at least one
      more character, and no whitespace anywhere. */
  predicate IsLink(l: string) {
    ((StartsWith(l, "http://") && |l| > 7) || (StartsWith(l, "https://") && |l| > 8)) &&
    forall i :: 0 <= i < |l| ==> !IsSpace(l[i])
  }

  /** The metadata map of a document that carries a metadata block. */
  function BlockMetadata(link: string, date: Option<Date>): (md: map<string, Value>)
    ensures md.Keys == {"link", "date"}
  {
    map["link" := Str(link), "date" := if date.Some? then DateValue(date.value) else Null]
  }

  /** Deleting the matched block, which occurs at `m.start`, shortens the
      text by at least the block's length. */
  lemma BlockRemovalShrinks(text: string, m: Span)
    requires m.Within(|text|)
    ensures |RemoveAll(text, text[m.start..m.End()])| <= |text| - (m.End() - m.start)
  {
    var block := text[m.start..m.End()];
    assert OccursAt(block, text, m.start);
    RemoveAllShrinks(text, block);
  }

  /** What `extract_metadata` returns once the pattern has matched at `m`:
      every occurrence of the matched block is deleted from the text and the
      rest stripped of whitespace; the stripped link and the parsed date
      become the metadata. */
  function SplitOff(text: string, m: Span): (r: (string, map<string, Value>))
    requires m.Within(|text|)
    ensures |r.0| <= |text| - (m.End() - m.start)
    ensures r.0 != [] ==> !IsSpace(r.0[0]) && !IsSpace(r.0[|r.0| - 1])
    ensures r.1.Keys == {"link", "date"}
  {
    var block := text[m.start..m.End()];
    var link := Strip(text[m.linkStart..m.linkEnd], IsSpace);
    var dateText := Strip(text[m.dateStart..m.End()], IsSpace);
    BlockRemovalShrinks(text, m);
    (Strip(RemoveAll(text, block), IsSpace), BlockMetadata(link, ParseDate(dateText)))
  }

  /** Splits the leftmost metadata block off `text`; without a block the
      text comes back unchanged with empty metadata. */
  function ExtractMetadata(text: string): (r: (string, map<string, Value>))
    ensures r.1 == map[] <==> Search(text, 0).None?
    ensures Search(text, 0).None? ==> r.0 == text
    ensures Search(text, 0).Some? ==> |r.0| < |text|
  {
    var found := Search(text, 0);
    if found.None? then (text, map[]) else SplitOff(text, found.value)
  }

  lemma DigitNotSpace(c: char)
    requires IsDigit(c)
    ensures !IsSpace(c)
  {
  }

  lemma HasAtPrefix(t: string, p: nat, w: string, q: nat)
    requires HasAt(t, p, w) && p + |w| <= q <= |t|
    ensures StartsWith(t[p..q], w)
  {
    assert t[p..q][..|w|] == w;
  }

  /** Without a metadata block anywhere in the text, the text comes back
      unchanged with empty metadata, and only then. */
  lemma ExtractNoMatch(text: string)
    ensures ExtractMetadata(text) == (text, map[]) <==> forall m :: !IsMatch(text, m)
  {
    SearchLeftmost(text, 0);
    if Search(text, 0).Some? {
      SearchSound(text, 0);
    }
  }

  /** The block that is cut out is the leftmost match of the pattern and
      begins with ` Metadata`. */
  lemma ExtractUsesLeftmost(text: string)
    requires Search(text, 0).Some?
    ensures var m := Search(text, 0).value;
      IsMatch(text, m) && StartsWith(text[m.start..m.End()], Marker) &&
      forall m' :: IsMatch(text, m') ==> m.start <= m'.start
  {
    var m := Search(text, 0).value;
    SearchSound(text, 0);
    SearchLeftmost(text, 0);
    HasAtPrefix(text, m.start, Marker, m.End());
  }

  lemma SchemeNotSpace(w: string)
    requires w == "http://" || w == "https://"
    ensures forall i :: 0 <= i < |w| ==> !IsSpace(w[i])
  {
  }

  /** A link group starts with `http://` or `https://` and holds no
      whitespace. */
  lemma LinkShapeIsLink(t: string, ls: nat, le: nat)
    requires LinkShapeAt(t, ls, le)
    ensures IsLink(t[ls..le])
  {
    var l := t[ls..le];
    var w := if HasAt(t, ls, "https://") then "https://" else "http://";
    HasAtPrefix(t, ls, w, le);
    SchemeNotSpace(w);
    forall i | 0 <= i < |l|
      ensures !IsSpace(l[i])
    {
      if i < |w| {
        assert l[i] == w[i];
      } else {
        assert l[i] == t[ls + i];
      }
    }
  }

  /** The link in the metadata is the whole link group. */
  lemma LinkGroup(text: string, m: Span)
    requires m.Within(|text|) && LinkShapeAt(text, m.linkStart, m.linkEnd)
    ensures SplitOff(text, m).1["link"] == Str(text[m.linkStart..m.linkEnd])
  {
    var l := text[m.linkStart..m.linkEnd];
    LinkShapeIsLink(text, m.linkStart, m.linkEnd);
    StripNoop(l, IsSpace);
  }

  /** The date group is two digits, a dash and four digits; `strptime` with
      `%d-%m-%Y` rejects every such text, so a match always yields the date
      `None`. */
  lemma DateGroup(text: string, m: Span)
    requires m.Within(|text|) && DateShapeAt(text, m.dateStart)
    ensures SplitOff(text, m).1["date"] == Null
  {
    var d := text[m.dateStart..m.End()];
    DigitNotSpace(d[0]);
    DigitNotSpace(d[6]);
    StripNoop(d, IsSpace);
    DateGroupUnparsable(text, m.dateStart);
  }

  /** On a text with a metadata block, the map is exactly `link`, the whole
      link group, and `date`, always `None`; the link has the shape the
      pattern demands and the date group that of two digits, a dash and four
      digits. */
  lemma ExtractFound(text: string)
    requires Search(text, 0).Some?
    ensures var m := Search(text, 0).value;
      ExtractMetadata(text).1 == map["link" := Str(text[m.linkStart..m.linkEnd]), "date" := Null] &&
      IsLink(text[m.linkStart..m.linkEnd]) && DateShapeAt(text, m.dateStart)
  {
    var m := Search(text, 0).value;
    SearchSound(text, 0);
    LinkShapeIsLink(text, m.linkStart, m.linkEnd);
    LinkGroup(text, m);
    DateGroup(text, m);
  }

  /** The clean text is what is left once every occurrence of the block is
      deleted, with the whitespace at both ends stripped: it is shorter than
      the text by at least the block, and neither of its ends is
      whitespace. */
  lemma ExtractClean(text: string)
    requires Search(text, 0).Some?
    ensures var m := Search(text, 0).value;
      var block, r := text[m.start..m.End()], ExtractMetadata(text).0;
      r == Strip(RemoveAll(text, block), IsSpace) &&
      |r| <= |text| - |block| &&
      (r != [] ==> !IsSpace(r[0]) && !IsSpace(r[|r| - 1]))
  {
    var m := Search(text, 0).value;
    assert ExtractMetadata(text) == SplitOff(text, m);
  }

  // ---------------------------------------------------------------------
  // read_documents
  // ---------------------------------------------------------------------

  /** A file met by the directory walk: its name and its contents. */
  datatype File = File(name: string, content: string)

  predicate IsMarkdown(f: File) {
    EndsWith(f.name, ".md")
  }

  /** The document made from one Markdown file. */
  function DocumentOf(f: File): (d: Document)
    ensures |d.content| <= |f.content|
    ensures d.metadata == map[] <==> Search(f.content, 0).None?
    ensures d.metadata != map[] ==> d.metadata.Keys == {"link", "date"}
  {
    Document(ExtractMetadata(f.content).0, ExtractMetadata(f.content).1)
  }

  /** The documents of the files the walk meets, in that order: one for each
      file whose name ends in `.md`, none for any other file. */
  function DocumentsOf(files: seq<File>): (documents: seq<Document>)
    ensures |documents| <= |files|
    ensures (forall i :: 0 <= i < |files| ==> !IsMarkdown(files[i])) ==> documents == []
  {
    if files == [] then []
    else
      var last := files[|files| - 1];
      DocumentsOf(files[..|files| - 1]) + (if IsMarkdown(last) then [DocumentOf(last)] else [])
  }

  method ReadDocuments(files: seq<File>) returns (documents: seq<Document>)
    ensures documents == DocumentsOf(files)
  {
    documents := [];
    for n := 0 to |files|
      invariant documents == DocumentsOf(files[..n])
    {
      assert files[..n + 1][..n] == files[..n];
      if IsMarkdown(files[n]) {
        documents := documents + [DocumentOf(files[n])];
      }
    }
    assert files[..|files|] == files;
  }

  /** One document for each Markdown file, made from it, in the order of the
      walk. */
  lemma {:induction false} DocumentsOfMarkdown(files: seq<File>)
    ensures var md := Sequences.Filter(files, IsMarkdown);
      |DocumentsOf(files)| == |md| &&
      forall i :: 0 <= i < |md| ==> DocumentsOf(files)[i] == DocumentOf(md[i])
  {
    if files != [] {
      DocumentsOfMarkdown(files[..|files| - 1]);
    }
  }

  /** Every Markdown file is kept, at its rank among the Markdown files, and
      no other file is. */
  lemma MarkdownExact(files: seq<File>)
    ensures var md, idx := Sequences.Filter(files, IsMarkdown), Sequences.KeptIndices(files, IsMarkdown);
      |idx| == |md| &&
      (forall k :: 0 <= k < |idx| ==> md[k] == files[idx[k]]) &&
      (forall i :: 0 <= i < |files| ==> (i in idx <==> IsMarkdown(files[i])))
  {
    Sequences.FilterIsSubsequence(files, IsMarkdown);
  }
}
