/**
 * The three confidence-interval regular expressions of extract_numbers.py
 * (`pattern1`, `pattern2`, `pattern3`) and a dedicated matcher for them.
 *
 * Each pattern reads, in order: a 35-character look-behind capture, a number
 * token `\d+(?:,\d+)*(?:\.\d+)?` (the estimate), a gap `[^0-9]{0,5}`, a marker
 * literal, a gap, a number (the lower bound), a gap, a number (the upper
 * bound) and a closing `)`.
 */
module CiPattern {
  import opened Text

  /** Python's `\s` on text patterns: the code points for which `str.isspace()` holds. */
  predicate IsSpace(c: char) {
    ('\t' <= c <= '\r') || ('\U{1C}' <= c <= ' ') || c == '\U{85}' || c == '\U{A0}'
    || c == '\U{1680}' || ('\U{2000}' <= c <= '\U{200A}') || c == '\U{2028}' || c == '\U{2029}'
    || c == '\U{202F}' || c == '\U{205F}' || c == '\U{3000}'
  }

  /** A marker character matches `c`; a blank in a marker stands for `\s`. */
  predicate MarkerCharMatches(m: char, c: char) {
    if m == ' ' then IsSpace(c) else c == m
  }

  /** `pattern1` (`95%\sCI`), `pattern2` (`95%\sconfidence\sinterval`), `pattern3` (`...interval\s\(CI\)`). */
  datatype Pattern = Ci | ConfidenceInterval | ConfidenceIntervalCi

  function Marker(pat: Pattern): string {
    match pat
    case Ci => "95% CI"
    case ConfidenceInterval => "95% confidence interval"
    case ConfidenceIntervalCi => "95% confidence interval (CI)"
  }

  predicate MarkerAt(s: string, g: nat, mk: string) {
    g + |mk| <= |s| && forall k :: 0 <= k < |mk| ==> MarkerCharMatches(mk[k], s[g + k])
  }

  // ---------------------------------------------------------------------------
  // The number token `\d+(?:,\d+)*(?:\.\d+)?`

  predicate IsNumChar(c: char) {
    IsDigit(c) || c == ',' || c == '.'
  }

  /** `\d+(?:,\d+)*`, read as the grammar `G ::= D | G "," D` with `D ::= \d+`. */
  predicate IsGrouped(t: string) {
    IsDigits(t)
    || exists k :: 0 < k < |t| && t[k] == ',' && IsGrouped(t[..k]) && IsDigits(t[k + 1..])
  }

  /** `G "." D`: a grouped integer part, a dot and a run of digits. */
  predicate IsDecimal(t: string) {
    exists k :: 0 < k < |t| && t[k] == '.' && IsGrouped(t[..k]) && IsDigits(t[k + 1..])
  }

  /** The number token `\d+(?:,\d+)*(?:\.\d+)?`. */
  predicate IsNumber(t: string) {
    IsGrouped(t) || IsDecimal(t)
  }

  /** `t` is a grouped number followed by the separator `sep`. */
  predicate EndsWithSep(t: string, sep: char) {
    |t| > 1 && t[|t| - 1] == sep && IsGrouped(t[..|t| - 1])
  }

  /** How `\d+` grows by one character at its end. */
  lemma DigitsSnoc(a: string, c: char)
    ensures IsDigits(a + [c]) <==> IsDigit(c) && (a == [] || IsDigits(a))
  {
    var t := a + [c];
    assert t[|a|] == c;
    assert forall j :: 0 <= j < |a| ==> t[j] == a[j];
  }

  /** Cutting `u + [c]` at a separator position `k` inside `u`. */
  lemma CutSnoc(u: string, c: char, k: nat)
    requires k < |u|
    ensures (u + [c])[k] == u[k] && (u + [c])[..k] == u[..k] && (u + [c])[k + 1..] == u[k + 1..] + [c]
  {
  }

  /** How `G` grows by one character at its end. */
  lemma GroupedSnoc(u: string, c: char)
    ensures IsGrouped(u + [c]) <==> IsDigit(c) && (u == [] || IsGrouped(u) || EndsWithSep(u, ','))
  {
    if IsGrouped(u + [c]) {
      GroupedSnocDown(u, c);
    }
    if IsDigit(c) && (u == [] || IsGrouped(u) || EndsWithSep(u, ',')) {
      GroupedSnocUp(u, c);
    }
  }

  lemma GroupedSnocDown(u: string, c: char)
    requires IsGrouped(u + [c])
    ensures IsDigit(c) && (u == [] || IsGrouped(u) || EndsWithSep(u, ','))
  {
    var t := u + [c];
    DigitsSnoc(u, c);
    if !IsDigits(t) {
      var k :| 0 < k < |t| && t[k] == ',' && IsGrouped(t[..k]) && IsDigits(t[k + 1..]);
      if k < |u| {
        CutSnoc(u, c, k);
        DigitsSnoc(u[k + 1..], c);
        if k + 1 == |u| {
          assert u[..|u| - 1] == u[..k];
        }
      }
    }
  }

  lemma GroupedSnocUp(u: string, c: char)
    requires IsDigit(c) && (u == [] || IsGrouped(u) || EndsWithSep(u, ','))
    ensures IsGrouped(u + [c])
  {
    var t := u + [c];
    DigitsSnoc(u, c);
    if u == [] || IsDigits(u) {
    } else if IsGrouped(u) {
      var k :| 0 < k < |u| && u[k] == ',' && IsGrouped(u[..k]) && IsDigits(u[k + 1..]);
      CutSnoc(u, c, k);
      DigitsSnoc(u[k + 1..], c);
    } else {
      var k := |u| - 1;
      CutSnoc(u, c, k);
      assert u[k + 1..] == [];
      DigitsSnoc(u[k + 1..], c);
    }
  }

  /** How `G "." D` grows by one character at its end. */
  lemma DecimalSnoc(u: string, c: char)
    ensures IsDecimal(u + [c]) <==> IsDigit(c) && (IsDecimal(u) || EndsWithSep(u, '.'))
  {
    if IsDecimal(u + [c]) {
      DecimalSnocDown(u, c);
    }
    if IsDigit(c) && (IsDecimal(u) || EndsWithSep(u, '.')) {
      DecimalSnocUp(u, c);
    }
  }

  lemma DecimalSnocDown(u: string, c: char)
    requires IsDecimal(u + [c])
    ensures IsDigit(c) && (IsDecimal(u) || EndsWithSep(u, '.'))
  {
    var t := u + [c];
    var k :| 0 < k < |t| && t[k] == '.' && IsGrouped(t[..k]) && IsDigits(t[k + 1..]);
    if k < |u| {
      CutSnoc(u, c, k);
      DigitsSnoc(u[k + 1..], c);
      if k + 1 == |u| {
        assert u[..|u| - 1] == u[..k];
      }
    }
  }

  lemma DecimalSnocUp(u: string, c: char)
    requires IsDigit(c) && (IsDecimal(u) || EndsWithSep(u, '.'))
    ensures IsDecimal(u + [c])
  {
    var t := u + [c];
    if IsDecimal(u) {
      var k :| 0 < k < |u| && u[k] == '.' && IsGrouped(u[..k]) && IsDigits(u[k + 1..]);
      CutSnoc(u, c, k);
      DigitsSnoc(u[k + 1..], c);
    } else {
      var k := |u| - 1;
      CutSnoc(u, c, k);
      assert u[k + 1..] == [];
      DigitsSnoc(u[k + 1..], c);
    }
  }

  lemma SepSnoc(u: string, c: char, sep: char)
    ensures EndsWithSep(u + [c], sep) <==> c == sep && IsGrouped(u)
  {
    assert (u + [c])[..|u|] == u;
  }

  /** States of a left-to-right reader of the number token. */
  datatype NumState = Start | IntPart | AfterComma | AfterDot | Fraction | Reject

  function NumStep(st: NumState, c: char): NumState {
    match st
    case Start => if IsDigit(c) then IntPart else Reject
    case IntPart => if IsDigit(c) then IntPart else if c == ',' then AfterComma else if c == '.' then AfterDot else Reject
    case AfterComma => if IsDigit(c) then IntPart else Reject
    case AfterDot => if IsDigit(c) then Fraction else Reject
    case Fraction => if IsDigit(c) then Fraction else Reject
    case Reject => Reject
  }

  /** The reader's state after the whole of `t`. */
  function NumRun(t: string): NumState
    decreases |t|
  {
    if t == [] then Start else NumStep(NumRun(t[..|t| - 1]), t[|t| - 1])
  }

  /** Each state of the reader is one shape of the grammar. */
  lemma {:induction false} NumRunShape(t: string)
    ensures NumRun(t) == Start <==> t == []
    ensures NumRun(t) == IntPart <==> IsGrouped(t)
    ensures NumRun(t) == AfterComma <==> EndsWithSep(t, ',')
    ensures NumRun(t) == AfterDot <==> EndsWithSep(t, '.')
    ensures NumRun(t) == Fraction <==> IsDecimal(t)
    decreases |t|
  {
    if t == [] {
      assert !IsDigits(t);
    } else {
      var u, c := t[..|t| - 1], t[|t| - 1];
      assert t == u + [c];
      NumRunShape(u);
      GroupedSnoc(u, c);
      DecimalSnoc(u, c);
      SepSnoc(u, c, ',');
      SepSnoc(u, c, '.');
    }
  }

  /** The reader accepts exactly the number tokens. */
  lemma NumRunAccepts(t: string)
    ensures IsNumber(t) <==> NumRun(t) == IntPart || NumRun(t) == Fraction
  {
    NumRunShape(t);
  }

  /** The reader run over `s[i..e]` in place. */
  function NumScan(s: string, i: nat, e: nat): NumState
    requires i <= e <= |s|
    decreases e
  {
    if e == i then Start else NumStep(NumScan(s, i, e - 1), s[e - 1])
  }

  lemma {:induction false} NumScanSlice(s: string, i: nat, e: nat)
    requires i <= e <= |s|
    ensures NumScan(s, i, e) == NumRun(s[i..e])
    decreases e
  {
    if e > i {
      NumScanSlice(s, i, e - 1);
      assert s[i..e][..e - i - 1] == s[i..e - 1];
    }
  }

  /** `s[i..e]` is a number token, read position by position. */
  predicate NumberSpan(s: string, i: nat, e: nat) {
    i <= e <= |s| && (NumScan(s, i, e) == IntPart || NumScan(s, i, e) == Fraction)
  }

  /** The in-place reader agrees with the grammar. */
  lemma NumberSpanIsNumber(s: string, i: nat, e: nat)
    requires i <= e <= |s|
    ensures NumberSpan(s, i, e) <==> IsNumber(s[i..e])
  {
    NumScanSlice(s, i, e);
    NumRunAccepts(s[i..e]);
  }

  /** A number token starts with a digit and holds only digits, commas and dots. */
  lemma NumberChars(t: string)
    requires IsNumber(t)
    ensures |t| > 0 && IsDigit(t[0])
    ensures forall k :: 0 <= k < |t| ==> IsNumChar(t[k])
  {
    NumRunShape(t);
    NumScanSlice(t, 0, |t|);
    assert t[0..|t|] == t;
    NumScanChars(t, 0, |t|);
  }

  /** A number read in place is non-empty, starts with a digit and holds only digits, commas and dots. */
  lemma {:induction false} NumScanChars(s: string, i: nat, e: nat)
    requires i <= e <= |s|
    ensures NumScan(s, i, e) == Start <==> e == i
    ensures NumScan(s, i, e) != Reject ==> forall k :: i <= k < e ==> IsNumChar(s[k])
    ensures NumScan(s, i, e) != Reject && i < e ==> IsDigit(s[i])
    decreases e
  {
    if e > i {
      NumScanChars(s, i, e - 1);
    }
  }

  /** End of the run of digits, commas and dots that starts at `i`. */
  function NumRunEnd(s: string, i: nat): (r: nat)
    requires i <= |s|
    ensures i <= r <= |s|
    ensures forall k :: i <= k < r ==> IsNumChar(s[k])
    ensures r < |s| ==> !IsNumChar(s[r])
    decreases |s| - i
  {
    if i < |s| && IsNumChar(s[i]) then NumRunEnd(s, i + 1) else i
  }

  /** A number that starts at `i` ends inside the run of number characters there. */
  lemma NumberWithinRun(s: string, i: nat, e: nat)
    requires NumberSpan(s, i, e)
    ensures i < e && IsDigit(s[i]) && e <= NumRunEnd(s, i)
  {
    NumScanChars(s, i, e);
  }

  // ---------------------------------------------------------------------------
  // Gaps `[^0-9]{0,5}`

  predicate GapWithin(s: string, p: nat, g: nat, n: nat) {
    p <= g <= |s| && g - p <= n && forall k :: p <= k < g ==> !IsDigit(s[k])
  }

  /** `[^0-9]{0,5}` spans `s[p..g]`. */
  predicate Gap(s: string, p: nat, g: nat) {
    GapWithin(s, p, g, 5)
  }

  /**
   * The end of the gap at `p` when the gap must be followed by a digit: the
   * first digit at or after `p`, if no more than `n` non-digits come first.
   */
  function SkipGapWithin(s: string, p: nat, n: nat): (r: Option<nat>)
    ensures r.Some? ==> GapWithin(s, p, r.value, n) && r.value < |s| && IsDigit(s[r.value])
    ensures forall g: nat :: GapWithin(s, p, g, n) && g < |s| && IsDigit(s[g]) ==> r == Some(g)
    decreases n
  {
    if p >= |s| then None
    else if IsDigit(s[p]) then Some(p)
    else if n == 0 then None
    else SkipGapWithin(s, p + 1, n - 1)
  }

  function SkipGap(s: string, p: nat): (r: Option<nat>) {
    SkipGapWithin(s, p, 5)
  }

  // ---------------------------------------------------------------------------
  // Matches

  /** Width of the look-behind capture `(?<=(.{35}))`. */
  const ContextWidth: nat := 35

  /** `(?<=(.{35}))` succeeds at `start`: 35 characters precede it and none is a newline. */
  predicate ContextOk(s: string, start: nat) {
    ContextWidth <= start <= |s| && forall k :: start - ContextWidth <= k < start ==> s[k] != '\n'
  }

  /** Positions of one match: estimate `[start, estEnd)`, marker at `markerAt`, lower and upper bounds, `)` at `upEnd`. */
  datatype Parse = Parse(start: nat, estEnd: nat, markerAt: nat, lowStart: nat, lowEnd: nat, upStart: nat, upEnd: nat)

  /** `p` is a way for the pattern `pat` to match `s`: the grammar, read position by position. */
  predicate ValidParse(s: string, pat: Pattern, p: Parse) {
    ContextOk(s, p.start)
    && NumberSpan(s, p.start, p.estEnd)
    && Gap(s, p.estEnd, p.markerAt) && MarkerAt(s, p.markerAt, Marker(pat))
    && Gap(s, p.markerAt + |Marker(pat)|, p.lowStart)
    && NumberSpan(s, p.lowStart, p.lowEnd)
    && Gap(s, p.lowEnd, p.upStart)
    && NumberSpan(s, p.upStart, p.upEnd) && p.upEnd < |s|
    && s[p.upEnd] == ')'
  }

  /**
   * The order in which Python's backtracking tries the parses at one start:
   * the number token gives back characters from its end one at a time, so
   * longer estimates come first, then longer lower bounds.
   */
  predicate Preferred(p: Parse, q: Parse) {
    q.estEnd < p.estEnd || (q.estEnd == p.estEnd && q.lowEnd <= p.lowEnd)
  }

  /** What a parse leaves no choice about: every gap ends at the next digit, the upper bound at `)`. */
  predicate Forced(s: string, pat: Pattern, q: Parse) {
    q.start <= |s| && q.lowStart <= |s|
    && q.start < q.estEnd <= NumRunEnd(s, q.start)
    && SkipGap(s, q.estEnd) == Some(q.markerAt)
    && SkipGap(s, q.markerAt + |Marker(pat)|) == Some(q.lowStart)
    && q.lowStart < q.lowEnd <= NumRunEnd(s, q.lowStart)
    && SkipGap(s, q.lowEnd) == Some(q.upStart)
    && q.upEnd == NumRunEnd(s, q.upStart)
  }

  lemma GapEndsAtDigit(s: string, p: nat, g: nat)
    requires Gap(s, p, g) && g < |s| && IsDigit(s[g])
    ensures SkipGap(s, p) == Some(g)
  {
  }

  lemma MarkerStartsWithNine(s: string, g: nat, pat: Pattern)
    requires MarkerAt(s, g, Marker(pat))
    ensures g < |s| && IsDigit(s[g])
  {
    assert Marker(pat)[0] == '9';
    assert MarkerCharMatches(Marker(pat)[0], s[g + 0]);
  }

  lemma ParseForced(s: string, pat: Pattern, q: Parse)
    requires ValidParse(s, pat, q)
    ensures Forced(s, pat, q)
  {
    NumberWithinRun(s, q.start, q.estEnd);
    NumberWithinRun(s, q.lowStart, q.lowEnd);
    NumberWithinRun(s, q.upStart, q.upEnd);
    GapsForced(s, pat, q);
  }

  lemma GapsForced(s: string, pat: Pattern, q: Parse)
    requires ValidParse(s, pat, q)
    ensures SkipGap(s, q.estEnd) == Some(q.markerAt)
    ensures SkipGap(s, q.markerAt + |Marker(pat)|) == Some(q.lowStart)
    ensures SkipGap(s, q.lowEnd) == Some(q.upStart)
  {
    MarkerStartsWithNine(s, q.markerAt, pat);
    NumberWithinRun(s, q.lowStart, q.lowEnd);
    NumberWithinRun(s, q.upStart, q.upEnd);
    GapEndsAtDigit(s, q.estEnd, q.markerAt);
    GapEndsAtDigit(s, q.markerAt + |Marker(pat)|, q.lowStart);
    GapEndsAtDigit(s, q.lowEnd, q.upStart);
  }

  lemma AllParsesForced(s: string, pat: Pattern)
    ensures forall q :: ValidParse(s, pat, q) ==> Forced(s, pat, q)
  {
    forall q | ValidParse(s, pat, q)
      ensures Forced(s, pat, q)
    {
      ParseForced(s, pat, q);
    }
  }

  /** With estimate, marker and lower bound fixed: the upper bound and `)` are forced. */
  function TryUpper(s: string, pat: Pattern, i: nat, e: nat, g1: nat, g2: nat, e2: nat): (r: Option<Parse>)
    requires ContextOk(s, i) && NumberSpan(s, i, e)
    requires SkipGap(s, e) == Some(g1) && MarkerAt(s, g1, Marker(pat))
    requires SkipGap(s, g1 + |Marker(pat)|) == Some(g2) && g2 <= e2 <= |s|
    ensures r.Some? ==> ValidParse(s, pat, r.value)
    ensures r.Some? ==> r.value.start == i && r.value.estEnd == e && r.value.lowEnd == e2
    ensures r.None? ==> forall q :: ValidParse(s, pat, q) && q.start == i && q.estEnd == e ==> q.lowEnd != e2
  {
    AllParsesForced(s, pat);
    if !NumberSpan(s, g2, e2) then None
    else match SkipGap(s, e2)
      case None => None
      case Some(g3) =>
        var e3 := NumRunEnd(s, g3);
        if e3 < |s| && s[e3] == ')' && NumberSpan(s, g3, e3) then Some(Parse(i, e, g1, g2, e2, g3, e3))
        else None
  }

  /** Lower-bound ends `e2, e2 - 1, ..., g2 + 1`, longest first. */
  function TryLower(s: string, pat: Pattern, i: nat, e: nat, g1: nat, g2: nat, e2: nat): (r: Option<Parse>)
    requires ContextOk(s, i) && NumberSpan(s, i, e)
    requires SkipGap(s, e) == Some(g1) && MarkerAt(s, g1, Marker(pat))
    requires SkipGap(s, g1 + |Marker(pat)|) == Some(g2) && g2 <= e2 <= |s|
    ensures r.Some? ==> ValidParse(s, pat, r.value)
    ensures r.Some? ==> r.value.start == i && r.value.estEnd == e && r.value.lowEnd <= e2
    ensures r.Some? ==> forall q :: ValidParse(s, pat, q) && q.start == i && q.estEnd == e && q.lowEnd <= e2
                          ==> q.lowEnd <= r.value.lowEnd
    ensures r.None? ==> forall q :: ValidParse(s, pat, q) && q.start == i && q.estEnd == e ==> q.lowEnd > e2
    decreases e2
  {
    if e2 <= g2 then AllParsesForced(s, pat); None
    else match TryUpper(s, pat, i, e, g1, g2, e2)
      case Some(p) => Some(p)
      case None => TryLower(s, pat, i, e, g1, g2, e2 - 1)
  }

  /** With the estimate fixed to `s[i..e]`: gap, marker, gap, then the lower bounds in turn. */
  function TryFromEstimate(s: string, pat: Pattern, i: nat, e: nat): (r: Option<Parse>)
    requires ContextOk(s, i) && i <= e <= |s|
    ensures r.Some? ==> ValidParse(s, pat, r.value) && r.value.start == i && r.value.estEnd == e
    ensures r.Some? ==> forall q :: ValidParse(s, pat, q) && q.start == i && q.estEnd == e ==> q.lowEnd <= r.value.lowEnd
    ensures r.None? ==> forall q :: ValidParse(s, pat, q) && q.start == i ==> q.estEnd != e
  {
    AllParsesForced(s, pat);
    if !NumberSpan(s, i, e) then None
    else match SkipGap(s, e)
      case None => None
      case Some(g1) =>
        if !MarkerAt(s, g1, Marker(pat)) then None
        else match SkipGap(s, g1 + |Marker(pat)|)
          case None => None
          case Some(g2) => TryLower(s, pat, i, e, g1, g2, NumRunEnd(s, g2))
  }

  /** Estimate ends `e, e - 1, ..., i + 1`, longest first. */
  function TryEstimate(s: string, pat: Pattern, i: nat, e: nat): (r: Option<Parse>)
    requires ContextOk(s, i) && i <= e <= |s|
    ensures r.Some? ==> ValidParse(s, pat, r.value) && r.value.start == i && r.value.estEnd <= e
    ensures r.Some? ==> forall q :: ValidParse(s, pat, q) && q.start == i && q.estEnd <= e ==> Preferred(r.value, q)
    ensures r.None? ==> forall q :: ValidParse(s, pat, q) && q.start == i ==> q.estEnd > e
    decreases e
  {
    AllParsesForced(s, pat);
    if e <= i then None
    else match TryFromEstimate(s, pat, i, e)
      case Some(p) => Some(p)
      case None => TryEstimate(s, pat, i, e - 1)
  }

  /**
   * The match that Python's `re` returns when it tries the pattern at `start`:
   * some parse exactly when the grammar allows one, and then the preferred one.
   */
  function MatchAt(s: string, pat: Pattern, start: nat): (r: Option<Parse>)
    ensures r.Some? ==> ValidParse(s, pat, r.value) && r.value.start == start
    ensures r.Some? ==> forall q :: ValidParse(s, pat, q) && q.start == start ==> Preferred(r.value, q)
    ensures r.None? ==> forall q :: ValidParse(s, pat, q) ==> q.start != start
  {
    AllParsesForced(s, pat);
    if ContextOk(s, start) then TryEstimate(s, pat, start, NumRunEnd(s, start)) else None
  }

  // ---------------------------------------------------------------------------
  // The scan `findall` performs

  /** `ms[i]` is the match tried at start `i`, if any; each match ends at or after its start. */
  predicate StartsAt(ms: seq<Option<Parse>>) {
    forall i :: 0 <= i < |ms| && ms[i].Some? ==> ms[i].value.start == i <= ms[i].value.upEnd
  }

  /** Left to right from `pos`: take the match at the first start that has one, then resume after its `)`. */
  function Scan(ms: seq<Option<Parse>>, pos: nat): seq<Parse>
    requires StartsAt(ms)
    decreases |ms| - pos
  {
    if pos >= |ms| then []
    else match ms[pos]
      case Some(p) => [p] + Scan(ms, p.upEnd + 1)
      case None => Scan(ms, pos + 1)
  }

  /**
   * `r` is what a scan from `pos` over `ms` reports: empty when no start at or
   * after `pos` has a match; otherwise the match at the first start that has
   * one, followed by what a scan from after its `)` reports.
   */
  ghost predicate IsScan(ms: seq<Option<Parse>>, pos: nat, r: seq<Parse>)
    decreases |r|
  {
    if r == [] then forall i :: pos <= i < |ms| ==> ms[i].None?
    else
      pos <= r[0].start < |ms| && ms[r[0].start] == Some(r[0])
      && (forall i :: pos <= i < r[0].start ==> ms[i].None?)
      && IsScan(ms, r[0].upEnd + 1, r[1..])
  }

  lemma {:induction false} ScanIsScan(ms: seq<Option<Parse>>, pos: nat)
    requires StartsAt(ms)
    ensures IsScan(ms, pos, Scan(ms, pos))
    decreases |ms| - pos
  {
    if pos < |ms| {
      match ms[pos]
      case Some(p) =>
        ScanIsScan(ms, p.upEnd + 1);
        assert ([p] + Scan(ms, p.upEnd + 1))[1..] == Scan(ms, p.upEnd + 1);
      case None =>
        ScanIsScan(ms, pos + 1);
    }
  }

  /** Each element of a scan is the match at its own start, and each starts after the `)` of the one before. */
  lemma {:induction false} ScanElems(ms: seq<Option<Parse>>, pos: nat, r: seq<Parse>)
    requires StartsAt(ms) && IsScan(ms, pos, r)
    ensures forall k :: 0 <= k < |r| ==> pos <= r[k].start < |ms| && ms[r[k].start] == Some(r[k])
    ensures forall j, k :: 0 <= j < k < |r| ==> r[j].upEnd < r[k].start
    decreases |r|
  {
    if r != [] {
      var rest := r[1..];
      ScanElems(ms, r[0].upEnd + 1, rest);
      assert r[0].start <= r[0].upEnd;
      forall k | 0 < k < |r|
        ensures r[k] == rest[k - 1]
      {
      }
    }
  }

  /** The matches of `pat` tried at each start in `s`. */
  function Matches(s: string, pat: Pattern): (ms: seq<Option<Parse>>)
    ensures |ms| == |s| && StartsAt(ms)
  {
    var ms := seq(|s|, i requires 0 <= i < |s| => MatchAt(s, pat, i));
    assert forall i :: 0 <= i < |ms| && ms[i].Some? ==> ValidParse(s, pat, ms[i].value) && ms[i].value.start == i;
    ms
  }

  /** `pattern.finditer(s)`: the parses of the matches `findall` reports, left to right. */
  function FindAll(s: string, pat: Pattern): seq<Parse> {
    Scan(Matches(s, pat), 0)
  }

  /**
   * The leftmost-first, non-overlapping matches of `pat` from `pos`: empty when
   * no parse starts at or after `pos`; otherwise the preferred parse at the
   * leftmost start that has one, followed by the matches from after its `)`.
   */
  ghost predicate LeftmostMatches(s: string, pat: Pattern, pos: nat, r: seq<Parse>)
    decreases |r|
  {
    if r == [] then forall q :: ValidParse(s, pat, q) ==> q.start < pos
    else
      ValidParse(s, pat, r[0]) && pos <= r[0].start
      && (forall q :: ValidParse(s, pat, q) && pos <= q.start ==> r[0].start <= q.start)
      && (forall q :: ValidParse(s, pat, q) && q.start == r[0].start ==> Preferred(r[0], q))
      && LeftmostMatches(s, pat, r[0].upEnd + 1, r[1..])
  }

  /** Wherever some parse starts, the match tried there succeeds. */
  lemma ParseHasMatch(s: string, pat: Pattern, q: Parse)
    requires ValidParse(s, pat, q)
    ensures q.start < |s| && Matches(s, pat)[q.start].Some?
  {
    ParseForced(s, pat, q);
    assert Matches(s, pat)[q.start] == MatchAt(s, pat, q.start);
  }

  /** The head of a scan is the preferred parse at the leftmost start at or after `pos` that has one. */
  lemma ScanHead(s: string, pat: Pattern, pos: nat, r: seq<Parse>)
    requires r != [] && IsScan(Matches(s, pat), pos, r)
    ensures ValidParse(s, pat, r[0]) && pos <= r[0].start
    ensures forall q :: ValidParse(s, pat, q) && pos <= q.start ==> r[0].start <= q.start
    ensures forall q :: ValidParse(s, pat, q) && q.start == r[0].start ==> Preferred(r[0], q)
  {
    var p := r[0];
    assert Matches(s, pat)[p.start] == MatchAt(s, pat, p.start);
    forall q | ValidParse(s, pat, q) && pos <= q.start
      ensures p.start <= q.start
    {
      ParseHasMatch(s, pat, q);
    }
  }

  lemma {:induction false} ScanLeftmost(s: string, pat: Pattern, pos: nat, r: seq<Parse>)
    requires IsScan(Matches(s, pat), pos, r)
    ensures LeftmostMatches(s, pat, pos, r)
    decreases |r|
  {
    if r == [] {
      forall q | ValidParse(s, pat, q)
        ensures q.start < pos
      {
        ParseHasMatch(s, pat, q);
      }
    } else {
      ScanHead(s, pat, pos, r);
      ScanLeftmost(s, pat, r[0].upEnd + 1, r[1..]);
    }
  }

  /** `FindAll` is Python's leftmost-first, non-overlapping scan. */
  lemma FindAllLeftmost(s: string, pat: Pattern)
    ensures LeftmostMatches(s, pat, 0, FindAll(s, pat))
  {
    ScanIsScan(Matches(s, pat), 0);
    ScanLeftmost(s, pat, 0, FindAll(s, pat));
  }

  /** Every reported parse is a way for the pattern to match, and each starts after the `)` of the one before. */
  lemma FindAllValid(s: string, pat: Pattern)
    ensures forall k :: 0 <= k < |FindAll(s, pat)| ==> ValidParse(s, pat, FindAll(s, pat)[k])
    ensures forall j, k :: 0 <= j < k < |FindAll(s, pat)| ==> FindAll(s, pat)[j].upEnd < FindAll(s, pat)[k].start
  {
    var ms := Matches(s, pat);
    var r := FindAll(s, pat);
    ScanIsScan(ms, 0);
    ScanElems(ms, 0, r);
    forall k | 0 <= k < |r|
      ensures ValidParse(s, pat, r[k])
    {
      assert ms[r[k].start] == MatchAt(s, pat, r[k].start);
    }
  }

  // ---------------------------------------------------------------------------
  // The groups `findall` returns

  /** The four groups of a match: context, estimate, lower and upper bound. */
  datatype Captures = Captures(context: string, estimate: string, lower: string, upper: string)

  function CapturesOf(s: string, pat: Pattern, p: Parse): Captures
    requires ValidParse(s, pat, p)
  {
    Captures(s[p.start - ContextWidth..p.start], s[p.start..p.estEnd], s[p.lowStart..p.lowEnd], s[p.upStart..p.upEnd])
  }

  /** `c` is the group tuple of some match of `pat` in `s`. */
  ghost predicate IsMatchOf(s: string, pat: Pattern, c: Captures) {
    exists p :: ValidParse(s, pat, p) && c == CapturesOf(s, pat, p)
  }

  /** `pattern.findall(s)`: one group tuple per match, left to right. */
  function FindAllGroups(s: string, pat: Pattern): seq<Captures> {
    var ps := FindAll(s, pat);
    FindAllValid(s, pat);
    seq(|ps|, k requires 0 <= k < |ps| => CapturesOf(s, pat, ps[k]))
  }

  /** One group tuple per reported parse, in the same order: tuple k holds the groups of parse k. */
  lemma FindAllGroupsSound(s: string, pat: Pattern)
    ensures |FindAllGroups(s, pat)| == |FindAll(s, pat)|
    ensures forall k :: 0 <= k < |FindAllGroups(s, pat)| ==> IsMatchOf(s, pat, FindAllGroups(s, pat)[k])
    ensures forall k :: 0 <= k < |FindAll(s, pat)| ==>
              ValidParse(s, pat, FindAll(s, pat)[k]) && FindAllGroups(s, pat)[k] == CapturesOf(s, pat, FindAll(s, pat)[k])
  {
    FindAllValid(s, pat);
  }

  /**
   * What every reported match looks like: a 35-character context that ends
   * right before the estimate, and three number tokens.
   */
  lemma MatchShape(s: string, pat: Pattern, c: Captures)
    requires IsMatchOf(s, pat, c)
    ensures |c.context| == ContextWidth
    ensures IsNumber(c.estimate) && IsNumber(c.lower) && IsNumber(c.upper)
    ensures exists j :: OccursAt(s, c.context + c.estimate, j)
  {
    var p :| ValidParse(s, pat, p) && c == CapturesOf(s, pat, p);
    CapturesNumbers(s, pat, p);
    ContextBeforeEstimate(s, pat, p);
  }

  lemma CapturesNumbers(s: string, pat: Pattern, p: Parse)
    requires ValidParse(s, pat, p)
    ensures IsNumber(s[p.start..p.estEnd]) && IsNumber(s[p.lowStart..p.lowEnd]) && IsNumber(s[p.upStart..p.upEnd])
  {
    NumberSpanIsNumber(s, p.start, p.estEnd);
    NumberSpanIsNumber(s, p.lowStart, p.lowEnd);
    NumberSpanIsNumber(s, p.upStart, p.upEnd);
  }

  lemma ContextBeforeEstimate(s: string, pat: Pattern, p: Parse)
    requires ValidParse(s, pat, p)
    ensures OccursAt(s, s[p.start - ContextWidth..p.start] + s[p.start..p.estEnd], p.start - ContextWidth)
  {
    var j := p.start - ContextWidth;
    assert s[j..p.estEnd] == s[j..p.start] + s[p.start..p.estEnd];
  }

  /**
   * `matches3 + matches2 + matches1`: all `pattern3` matches, then all
   * `pattern2` matches, then all `pattern1` matches, nothing removed.
   */
  function AllMatches(s: string): seq<Captures> {
    FindAllGroups(s, ConfidenceIntervalCi) + FindAllGroups(s, ConfidenceInterval) + FindAllGroups(s, Ci)
  }

  /** The combined list keeps every match of each pattern, in its own order, with the three lists back to back. */
  lemma AllMatchesOrder(s: string)
    ensures var n3, n2, n1 := |FindAllGroups(s, ConfidenceIntervalCi)|, |FindAllGroups(s, ConfidenceInterval)|,
                              |FindAllGroups(s, Ci)|;
            |AllMatches(s)| == n3 + n2 + n1
            && AllMatches(s)[..n3] == FindAllGroups(s, ConfidenceIntervalCi)
            && AllMatches(s)[n3..n3 + n2] == FindAllGroups(s, ConfidenceInterval)
            && AllMatches(s)[n3 + n2..] == FindAllGroups(s, Ci)
  {
  }

  /** Every element of the combined list is a match of the pattern whose part of the list it sits in. */
  lemma AllMatchesSound(s: string)
    ensures forall k :: 0 <= k < |AllMatches(s)| ==>
              var n3, n2 := |FindAllGroups(s, ConfidenceIntervalCi)|, |FindAllGroups(s, ConfidenceInterval)|;
              IsMatchOf(s, if k < n3 then ConfidenceIntervalCi else if k < n3 + n2 then ConfidenceInterval else Ci,
                        AllMatches(s)[k])
  {
    forall k | 0 <= k < |AllMatches(s)|
      ensures var n3, n2 := |FindAllGroups(s, ConfidenceIntervalCi)|, |FindAllGroups(s, ConfidenceInterval)|;
              IsMatchOf(s, if k < n3 then ConfidenceIntervalCi else if k < n3 + n2 then ConfidenceInterval else Ci,
                        AllMatches(s)[k])
    {
      AllMatchesAt(s, k);
    }
  }

  lemma AllMatchesAt(s: string, k: nat)
    requires k < |AllMatches(s)|
    ensures var n3, n2 := |FindAllGroups(s, ConfidenceIntervalCi)|, |FindAllGroups(s, ConfidenceInterval)|;
            IsMatchOf(s, if k < n3 then ConfidenceIntervalCi else if k < n3 + n2 then ConfidenceInterval else Ci,
                      AllMatches(s)[k])
  {
    FindAllGroupsSound(s, ConfidenceIntervalCi);
    FindAllGroupsSound(s, ConfidenceInterval);
    FindAllGroupsSound(s, Ci);
    PickMatch(s, FindAllGroups(s, ConfidenceIntervalCi), FindAllGroups(s, ConfidenceInterval), FindAllGroups(s, Ci), k);
  }

  /** An element of three back-to-back lists of matches is a match of its own list's pattern. */
  lemma PickMatch(s: string, a3: seq<Captures>, a2: seq<Captures>, a1: seq<Captures>, k: nat)
    requires k < |a3 + a2 + a1|
    requires forall i :: 0 <= i < |a3| ==> IsMatchOf(s, ConfidenceIntervalCi, a3[i])
    requires forall i :: 0 <= i < |a2| ==> IsMatchOf(s, ConfidenceInterval, a2[i])
    requires forall i :: 0 <= i < |a1| ==> IsMatchOf(s, Ci, a1[i])
    ensures IsMatchOf(s, if k < |a3| then ConfidenceIntervalCi else if k < |a3| + |a2| then ConfidenceInterval else Ci,
                      (a3 + a2 + a1)[k])
  {
    if k < |a3| {
      assert (a3 + a2 + a1)[k] == a3[k];
    } else if k < |a3| + |a2| {
      assert (a3 + a2 + a1)[k] == a2[k - |a3|];
    } else {
      assert (a3 + a2 + a1)[k] == a1[k - |a3| - |a2|];
    }
  }

  /** Text without a digit has no match. */
  lemma NoDigitNoMatch(s: string, pat: Pattern)
    requires forall k :: 0 <= k < |s| ==> !IsDigit(s[k])
    ensures FindAll(s, pat) == []
  {
    var r := FindAll(s, pat);
    FindAllValid(s, pat);
    if r != [] {
      var p := r[0];
      NumberWithinRun(s, p.start, p.estEnd);
    }
  }

  /**
   * A `pattern3` parse whose lower bound follows `(CI)` directly is also a
   * valid `pattern2` parse at the same positions: the `\s(CI)` is five
   * non-digits of `pattern2`'s gap.
   */
  lemma BracketedCiAlsoSpelledOut(s: string, p: Parse)
    requires ValidParse(s, ConfidenceIntervalCi, p)
    requires p.lowStart == p.markerAt + |Marker(ConfidenceIntervalCi)|
    ensures ValidParse(s, ConfidenceInterval, p)
  {
    var m2 := Marker(ConfidenceInterval);
    var m3 := Marker(ConfidenceIntervalCi);
    assert m3[..|m2|] == m2;
    forall k | p.markerAt + |m2| <= k < p.lowStart
      ensures !IsDigit(s[k])
    {
      assert MarkerCharMatches(m3[k - p.markerAt], s[k]);
    }
  }
}
