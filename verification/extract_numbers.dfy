/**
 * extract_numbers.py: for every `.txt` abstract, the PMID, the publication
 * date and every confidence-interval match, each match turned into one
 * 8-field row with two keyword tags.
 */
module ExtractNumbers {
  import opened Text
  import opened CiPattern

  // ---------------------------------------------------------------------------
  // Line-break removal

  /** `text.replace('\n', '').replace('\r', '')` */
  function Normalise(text: string): string {
    RemoveChar(RemoveChar(text, '\n'), '\r')
  }

  /** Normalised text has no line break, and every other character keeps its count. */
  lemma NormaliseDeletes(text: string)
    ensures '\n' !in Normalise(text) && '\r' !in Normalise(text)
    ensures multiset(Normalise(text)) == multiset(text)['\n' := 0]['\r' := 0]
    ensures |Normalise(text)| == |text| - multiset(text)['\n'] - multiset(text)['\r']
  {
    var a := RemoveChar(text, '\n');
    var r := RemoveChar(a, '\r');
    RemoveCharDeletes(text, '\n');
    RemoveCharDeletes(a, '\r');
    assert multiset(r)['\n'] == multiset(a)['\n'] == 0;
    assert '\n' !in multiset(r);
  }

  /** Normalising works character by character: line breaks are deleted, not replaced, and the rest keep their order. */
  lemma NormaliseConcat(a: string, b: string)
    ensures Normalise(a + b) == Normalise(a) + Normalise(b)
  {
    RemoveCharConcat(a, b, '\n');
    RemoveCharConcat(RemoveChar(a, '\n'), RemoveChar(b, '\n'), '\r');
  }

  lemma NormaliseChar(c: char)
    ensures Normalise([c]) == if c == '\n' || c == '\r' then [] else [c]
  {
    assert [c][1..] == [];
    assert RemoveChar([c], '\n') == if c == '\n' then [] else [c];
    assert RemoveChar([c], '\r') == if c == '\r' then [] else [c];
  }

  /** Text without line breaks is left as it is. */
  lemma NormaliseNoBreaks(text: string)
    requires '\n' !in text && '\r' !in text
    ensures Normalise(text) == text
  {
    RemoveCharAbsent(text, '\n');
    RemoveCharAbsent(text, '\r');
  }

  /** In normalised text the look-behind only needs 35 characters before the estimate. */
  lemma ContextOkWithoutBreaks(s: string, start: nat)
    requires '\n' !in s
    ensures ContextOk(s, start) <==> ContextWidth <= start <= |s|
  {
  }

  // ---------------------------------------------------------------------------
  // PMID: `PMID: (\d+)`, last match

  const PmidMarker: string := "PMID: "

  /** `PMID: ` followed by at least one digit starts at `i`. */
  predicate PmidAt(text: string, i: nat) {
    OccursAt(text, PmidMarker, i) && i + |PmidMarker| < |text| && IsDigit(text[i + |PmidMarker|])
  }

  /** End of the run of digits that starts at `i`. */
  function DigitRunEnd(text: string, i: nat): (r: nat)
    requires i <= |text|
    ensures i <= r <= |text|
    ensures forall k :: i <= k < r ==> IsDigit(text[k])
    ensures r < |text| ==> !IsDigit(text[r])
    decreases |text| - i
  {
    if i < |text| && IsDigit(text[i]) then DigitRunEnd(text, i + 1) else i
  }

  /** The group `(\d+)` of the match at `i`: the whole digit run after the marker. */
  function PmidDigits(text: string, i: nat): (r: string)
    requires PmidAt(text, i)
    ensures IsDigits(r)
  {
    text[i + |PmidMarker|..DigitRunEnd(text, i + |PmidMarker|)]
  }

  /** Start positions of the matches `pmid_pattern.findall(text)` reports from `pos`. */
  function PmidFindAll(text: string, pos: nat): seq<nat>
    decreases |text| - pos
  {
    if pos >= |text| then []
    else if PmidAt(text, pos) then [pos] + PmidFindAll(text, DigitRunEnd(text, pos + |PmidMarker|))
    else PmidFindAll(text, pos + 1)
  }

  /** No marker starts inside a match: the marker holds no `P` after its first character and digits hold none. */
  lemma NoPmidInside(text: string, i: nat, j: nat)
    requires PmidAt(text, i) && i < j < DigitRunEnd(text, i + |PmidMarker|)
    ensures !PmidAt(text, j)
  {
    assert text[j] != 'P' by {
      if j < i + |PmidMarker| {
        assert text[j] == text[i..i + |PmidMarker|][j - i];
      }
    }
    if j + |PmidMarker| <= |text| {
      assert text[j..j + |PmidMarker|][0] == text[j];
    }
  }

  /** The scan reports every marker from `pos` on: none is skipped as overlapping. */
  lemma {:induction false} PmidFindAllExact(text: string, pos: nat)
    ensures forall j :: j in PmidFindAll(text, pos) <==> pos <= j && PmidAt(text, j)
    decreases |text| - pos
  {
    if pos < |text| {
      if PmidAt(text, pos) {
        var e := DigitRunEnd(text, pos + |PmidMarker|);
        PmidFindAllExact(text, e);
        forall j | pos < j < e
          ensures !PmidAt(text, j)
        {
          NoPmidInside(text, pos, j);
        }
      } else {
        PmidFindAllExact(text, pos + 1);
      }
    }
  }

  predicate Ascending(ms: seq<nat>) {
    forall a, b :: 0 <= a < b < |ms| ==> ms[a] < ms[b]
  }

  lemma {:induction false} PmidFindAllFrom(text: string, pos: nat)
    ensures forall k :: 0 <= k < |PmidFindAll(text, pos)| ==> pos <= PmidFindAll(text, pos)[k]
    decreases |text| - pos
  {
    if pos < |text| {
      if PmidAt(text, pos) {
        PmidFindAllFrom(text, DigitRunEnd(text, pos + |PmidMarker|));
      } else {
        PmidFindAllFrom(text, pos + 1);
      }
    }
  }

  /** The markers are reported in ascending order of position. */
  lemma {:induction false} PmidFindAllAscending(text: string, pos: nat)
    ensures Ascending(PmidFindAll(text, pos))
    decreases |text| - pos
  {
    if pos < |text| {
      if PmidAt(text, pos) {
        var e := DigitRunEnd(text, pos + |PmidMarker|);
        var rest := PmidFindAll(text, e);
        PmidFindAllAscending(text, e);
        PmidFindAllFrom(text, e);
        var ms := PmidFindAll(text, pos);
        assert ms == [pos] + rest;
        forall a, b | 0 <= a < b < |ms|
          ensures ms[a] < ms[b]
        {
          assert ms[b] == rest[b - 1];
          if a > 0 {
            assert ms[a] == rest[a - 1];
          }
        }
      } else {
        PmidFindAllAscending(text, pos + 1);
      }
    }
  }

  lemma LastIsGreatest(ms: seq<nat>, j: nat)
    requires Ascending(ms) && j in ms
    ensures j <= ms[|ms| - 1]
  {
    var a :| 0 <= a < |ms| && ms[a] == j;
    if a < |ms| - 1 {
      assert ms[a] < ms[|ms| - 1];
    }
  }

  /**
   * `pmid_matches[-1]` when `pmid_matches` is not empty: the digits of the
   * last `PMID: <digits>` marker in the text, or nothing when there is none.
   */
  function LastPmid(text: string): Option<string> {
    var ms := PmidFindAll(text, 0);
    PmidFindAllExact(text, 0);
    if ms == [] then None else Some(PmidDigits(text, ms[|ms| - 1]))
  }

  lemma LastPmidIsLast(text: string)
    ensures LastPmid(text).None? <==> forall j :: !PmidAt(text, j)
    ensures LastPmid(text).Some? ==> IsDigits(LastPmid(text).value)
    ensures LastPmid(text).Some? ==> exists i :: PmidAt(text, i) && LastPmid(text).value == PmidDigits(text, i)
                                                 && forall j :: PmidAt(text, j) ==> j <= i
  {
    var ms := PmidFindAll(text, 0);
    PmidFindAllExact(text, 0);
    PmidFindAllAscending(text, 0);
    if ms != [] {
      var i := ms[|ms| - 1];
      assert ms[|ms| - 1] in ms;
      forall j | PmidAt(text, j)
        ensures j <= i
      {
        LastIsGreatest(ms, j);
      }
    }
  }

  // ---------------------------------------------------------------------------
  // Date: `re.search(r'\b\d{4}( [A-Za-z]{3} )?\d{0,2}', text)`

  predicate IsAlpha(c: char) {
    ('A' <= c <= 'Z') || ('a' <= c <= 'z')
  }

  /** `\w`, read as ASCII `[A-Za-z0-9_]`. */
  predicate IsWordChar(c: char) {
    IsAlpha(c) || IsDigit(c) || c == '_'
  }

  /** `\b\d{4}` matches at `i`: four digits with no word character right before them. */
  predicate DateStartsAt(text: string, i: nat) {
    i + 4 <= |text| && (i == 0 || !IsWordChar(text[i - 1]))
    && IsDigit(text[i]) && IsDigit(text[i + 1]) && IsDigit(text[i + 2]) && IsDigit(text[i + 3])
  }

  /** The group `( [A-Za-z]{3} )` matches at `m`. */
  predicate MonthAt(text: string, m: nat) {
    m + 5 <= |text| && text[m] == ' ' && IsAlpha(text[m + 1]) && IsAlpha(text[m + 2]) && IsAlpha(text[m + 3])
    && text[m + 4] == ' '
  }

  /** How many digits, at most two, `\d{0,2}` takes at `m`. */
  function ShortDigits(text: string, m: nat): (n: nat)
    ensures n <= 2 && (n == 0 || m + n <= |text|)
    ensures forall k :: m <= k < m + n ==> k < |text| && IsDigit(text[k])
    ensures n < 2 ==> !(m + n < |text| && IsDigit(text[m + n]))
  {
    if m < |text| && IsDigit(text[m]) then
      if m + 1 < |text| && IsDigit(text[m + 1]) then 2 else 1
    else 0
  }

  /** Where the greedy match that starts at `i` ends: the month group if it fits, then up to two digits. */
  function DateEnd(text: string, i: nat): nat
    requires DateStartsAt(text, i)
  {
    var m := if MonthAt(text, i + 4) then i + 9 else i + 4;
    m + ShortDigits(text, m)
  }

  /** `d` has the form `\d{4}( [A-Za-z]{3} )?\d{0,2}`. */
  predicate IsDateText(d: string) {
    |d| >= 4 && IsDigit(d[0]) && IsDigit(d[1]) && IsDigit(d[2]) && IsDigit(d[3])
    && (IsShortDigits(d[4..]) || (MonthAt(d, 4) && IsShortDigits(d[9..])))
  }

  predicate IsShortDigits(t: string) {
    |t| <= 2 && forall k :: 0 <= k < |t| ==> IsDigit(t[k])
  }

  /** The greedy match has the date's form. */
  lemma DateShaped(text: string, i: nat)
    requires DateStartsAt(text, i)
    ensures i + 4 <= DateEnd(text, i) <= |text| && IsDateText(text[i..DateEnd(text, i)])
  {
    var end := DateEnd(text, i);
    var d := text[i..end];
    if MonthAt(text, i + 4) {
      assert d[4..9] == text[i + 4..i + 9];
      assert MonthAt(d, 4);
      assert d[9..] == text[i + 9..end];
    } else {
      assert d[4..] == text[i + 4..end];
    }
  }

  /** No longer date-shaped text starts at `i`: with the month group. */
  lemma DateNoLongerWithMonth(text: string, i: nat, e: nat)
    requires DateStartsAt(text, i) && i <= e <= |text|
    requires |text[i..e]| >= 9 && MonthAt(text[i..e], 4) && IsShortDigits(text[i..e][9..])
    ensures e <= DateEnd(text, i)
  {
    var t := text[i..e];
    assert t[4..9] == text[i + 4..i + 9];
    assert MonthAt(text, i + 4);
    forall k | i + 9 <= k < e
      ensures IsDigit(text[k])
    {
      assert text[k] == t[9..][k - i - 9];
    }
  }

  /** No longer date-shaped text starts at `i`: without the month group. */
  lemma DateNoLongerPlain(text: string, i: nat, e: nat)
    requires DateStartsAt(text, i) && i + 4 <= e <= |text| && IsShortDigits(text[i..e][4..])
    ensures e <= DateEnd(text, i)
  {
    var t := text[i..e];
    forall k | i + 4 <= k < e
      ensures IsDigit(text[k])
    {
      assert text[k] == t[4..][k - i - 4];
    }
  }

  /** The greedy match is the longest text of the date's form that starts at `i`. */
  lemma DateLongest(text: string, i: nat)
    requires DateStartsAt(text, i)
    ensures i + 4 <= DateEnd(text, i) <= |text| && IsDateText(text[i..DateEnd(text, i)])
    ensures forall e :: i <= e <= |text| && IsDateText(text[i..e]) ==> e <= DateEnd(text, i)
  {
    DateShaped(text, i);
    forall e | i <= e <= |text| && IsDateText(text[i..e])
      ensures e <= DateEnd(text, i)
    {
      var t := text[i..e];
      if MonthAt(t, 4) && IsShortDigits(t[9..]) {
        DateNoLongerWithMonth(text, i, e);
      } else {
        DateNoLongerPlain(text, i, e);
      }
    }
  }

  /** Leftmost start at or after `pos` where the date pattern matches. */
  function FirstDateFrom(text: string, pos: nat): (r: Option<nat>)
    ensures r.None? <==> forall j :: pos <= j ==> !DateStartsAt(text, j)
    ensures r.Some? ==> pos <= r.value && DateStartsAt(text, r.value)
    ensures r.Some? ==> forall j :: pos <= j < r.value ==> !DateStartsAt(text, j)
    decreases |text| - pos
  {
    if pos + 4 > |text| then None
    else if DateStartsAt(text, pos) then Some(pos)
    else FirstDateFrom(text, pos + 1)
  }

  /** `date_match.group() if date_match else None` */
  function FirstDate(text: string): Option<string> {
    match FirstDateFrom(text, 0)
    case None => None
    case Some(i) =>
      DateLongest(text, i);
      Some(text[i..DateEnd(text, i)])
  }

  /** The date is the longest date-shaped text at the leftmost start where `\b\d{4}` matches. */
  lemma FirstDateLeftmost(text: string)
    ensures FirstDate(text).None? <==> forall j :: !DateStartsAt(text, j)
    ensures FirstDate(text).Some? ==>
              exists i: nat :: DateStartsAt(text, i) && (forall j: nat :: j < i ==> !DateStartsAt(text, j))
                          && FirstDate(text).value == text[i..DateEnd(text, i)]
                          && IsDateText(FirstDate(text).value)
  {
    match FirstDateFrom(text, 0)
    case None =>
    case Some(i) =>
      DateLongest(text, i);
  }

  // ---------------------------------------------------------------------------
  // Tags

  const RatioKeywords: seq<string> := ["OR", "HR", "RR", "IRR", "SIR", "ratio", "relative"]
  const BetaKeywords: seq<string> := ["beta", "\U{03B2}"]

  /** `''.join(str(e) for e in entry[1:] if e is not None)`: date (if any), context and the three numbers. */
  function TagText(date: Option<string>, c: Captures): string {
    DateText(date) + c.context + c.estimate + c.lower + c.upper
  }

  function DateText(date: Option<string>): string {
    match date
    case None => ""
    case Some(d) => d
  }

  /** `any(k in hay for k in kws)`: some keyword occurs in `hay`, case-sensitively. */
  function ContainsAny(hay: string, kws: seq<string>): (r: bool)
    ensures r <==> exists k: nat, j: nat :: k < |kws| && OccursAt(hay, kws[k], j)
  {
    if kws == [] then false
    else
      assert forall k :: 0 < k < |kws| ==> kws[k] == kws[1..][k - 1];
      Contains(hay, kws[0]) || ContainsAny(hay, kws[1..])
  }

  /** `contains_keyword(entry)` */
  function RatioTag(date: Option<string>, c: Captures): bool {
    ContainsAny(TagText(date, c), RatioKeywords)
  }

  /** `contains_beta(entry)` */
  function BetaTag(date: Option<string>, c: Captures): bool {
    ContainsAny(TagText(date, c), BetaKeywords)
  }

  /** No keyword holds a digit, a comma or a dot, and none is empty. */
  predicate Wordy(kws: seq<string>) {
    forall k :: 0 <= k < |kws| ==> |kws[k]| > 0 && forall i :: 0 <= i < |kws[k]| ==> !IsNumChar(kws[k][i])
  }

  lemma KeywordsWordy()
    ensures Wordy(RatioKeywords) && Wordy(BetaKeywords)
  {
  }

  predicate AllNumChars(t: string) {
    forall i :: 0 <= i < |t| ==> IsNumChar(t[i])
  }

  /** A keyword without number characters cannot reach into text made only of them. */
  lemma OccursBeforeNumbers(a: string, b: string, kw: string, j: nat)
    requires |kw| > 0 && (forall i :: 0 <= i < |kw| ==> !IsNumChar(kw[i])) && AllNumChars(b)
    requires OccursAt(a + b, kw, j)
    ensures OccursAt(a, kw, j)
  {
    var last := j + |kw| - 1;
    assert (a + b)[last] == kw[|kw| - 1];
    assert (a + b)[j..j + |kw|] == a[j..j + |kw|];
  }

  lemma ContainsAnyBeforeNumbers(a: string, b: string, kws: seq<string>)
    requires Wordy(kws) && AllNumChars(b)
    ensures ContainsAny(a + b, kws) <==> ContainsAny(a, kws)
  {
    if ContainsAny(a + b, kws) {
      var k: nat, j: nat :| k < |kws| && OccursAt(a + b, kws[k], j);
      OccursBeforeNumbers(a, b, kws[k], j);
    }
    if ContainsAny(a, kws) {
      var k: nat, j: nat :| k < |kws| && OccursAt(a, kws[k], j);
      assert (a + b)[j..j + |kws[k]|] == a[j..j + |kws[k]|];
      assert OccursAt(a + b, kws[k], j);
    }
  }

  lemma NumbersAreNumChars(c: Captures)
    requires IsNumber(c.estimate) && IsNumber(c.lower) && IsNumber(c.upper)
    ensures AllNumChars(c.estimate + c.lower + c.upper)
  {
    NumberChars(c.estimate);
    NumberChars(c.lower);
    NumberChars(c.upper);
  }

  lemma TagsIgnoreNumbers(date: Option<string>, c: Captures, kws: seq<string>)
    requires Wordy(kws) && IsNumber(c.estimate) && IsNumber(c.lower) && IsNumber(c.upper)
    ensures ContainsAny(TagText(date, c), kws) <==> ContainsAny(DateText(date) + c.context, kws)
  {
    NumbersAreNumChars(c);
    var a := DateText(date) + c.context;
    var b := c.estimate + c.lower + c.upper;
    assert TagText(date, c) == a + b;
    ContainsAnyBeforeNumbers(a, b, kws);
  }

  /**
   * For a reported match the tags depend on the date and the 35-character
   * context only: the three numbers never supply a keyword.
   */
  lemma TagsFromDateAndContext(s: string, pat: Pattern, date: Option<string>, c: Captures)
    requires IsMatchOf(s, pat, c)
    ensures RatioTag(date, c) <==> ContainsAny(DateText(date) + c.context, RatioKeywords)
    ensures BetaTag(date, c) <==> ContainsAny(DateText(date) + c.context, BetaKeywords)
  {
    MatchShape(s, pat, c);
    KeywordsWordy();
    TagsIgnoreNumbers(date, c, RatioKeywords);
    TagsIgnoreNumbers(date, c, BetaKeywords);
  }

  // ---------------------------------------------------------------------------
  // Rows

  /** `columns` */
  const Header: seq<string> := ["PMID", "Date", "PreceedingText", "Estimate", "Lower", "Upper", "Ratio", "Beta"]

  /** One output tuple, its fields in the order of `Header`. */
  datatype Row = Row(pmid: string, date: Option<string>, context: string, estimate: string, lower: string,
                     upper: string, ratio: bool, beta: bool)

  /** `(pmid, date,) + x + (contains_keyword(entry), contains_beta(entry),)` */
  function RowOf(pmid: string, date: Option<string>, c: Captures): Row {
    Row(pmid, date, c.context, c.estimate, c.lower, c.upper, RatioTag(date, c), BetaTag(date, c))
  }

  function BoolText(b: bool): string {
    if b then "True" else "False"
  }

  /** The cells `csv.writer` writes for a row: `None` as an empty cell, booleans as `True`/`False`. */
  function Cells(row: Row): (r: seq<string>)
    ensures |r| == |Header|
  {
    [row.pmid, DateText(row.date), row.context, row.estimate, row.lower, row.upper, BoolText(row.ratio), BoolText(row.beta)]
  }

  /** Reading cells back into a row. */
  function RowFromCells(cells: seq<string>): Option<Row> {
    if |cells| != |Header| || (cells[6] != "True" && cells[6] != "False") || (cells[7] != "True" && cells[7] != "False")
    then None
    else Some(Row(cells[0], if cells[1] == "" then None else Some(cells[1]), cells[2], cells[3], cells[4], cells[5],
                  cells[6] == "True", cells[7] == "True"))
  }

  /** The cells determine the row whenever the date, if any, is not empty, as every matched date is. */
  lemma CellsRoundTrip(row: Row)
    requires row.date != Some("")
    ensures RowFromCells(Cells(row)) == Some(row)
  {
  }

  // ---------------------------------------------------------------------------
  // One file

  /** What one iteration of the loop over files does: new rows and the PMID carried on, or a `NameError`. */
  datatype FileOutcome = Processed(pmid: Option<string>, rows: seq<Row>) | NameError

  /** The rows of one file, one per match, in the order of the combined match list. */
  function FileRows(pmid: string, date: Option<string>, ms: seq<Captures>): seq<Row> {
    seq(|ms|, k requires 0 <= k < |ms| => RowOf(pmid, date, ms[k]))
  }

  /**
   * The body of the loop for a `.txt` file whose contents are `text`, with
   * `carried` the value `pmid` holds from earlier files (`None`: unbound).
   */
  function ProcessFile(carried: Option<string>, text: string): FileOutcome {
    var pmid := if LastPmid(text).Some? then LastPmid(text) else carried;
    var ms := AllMatches(Normalise(text));
    if ms == [] then Processed(pmid, [])
    else if pmid.None? then NameError
    else Processed(pmid, FileRows(pmid.value, FirstDate(text), ms))
  }

  /**
   * A `NameError` exactly when the file has matches, no marker of its own and
   * no PMID carried in; otherwise the PMID in force afterwards is the file's
   * own, if it has one, and the carried one if not.
   */
  lemma ProcessFileOutcome(carried: Option<string>, text: string)
    ensures ProcessFile(carried, text).NameError? <==>
              carried.None? && (forall j :: !PmidAt(text, j)) && AllMatches(Normalise(text)) != []
    ensures ProcessFile(carried, text).Processed? ==>
              ProcessFile(carried, text).pmid == if LastPmid(text).Some? then LastPmid(text) else carried
    ensures ProcessFile(carried, text).Processed? && ProcessFile(carried, text).rows != [] ==>
              ProcessFile(carried, text).pmid.Some?
  {
    LastPmidIsLast(text);
  }

  /**
   * Every row of a file: the PMID in force, the file's own first date, the
   * four groups of the combined list's match at the same index, and tags that the date and the
   * context alone decide.
   */
  lemma ProcessFileRows(carried: Option<string>, text: string)
    requires ProcessFile(carried, text).Processed?
    ensures var r := ProcessFile(carried, text);
            var ms := AllMatches(Normalise(text));
            |r.rows| == |ms|
            && forall k :: 0 <= k < |r.rows| ==>
                 r.rows[k].pmid == r.pmid.value && r.rows[k].date == FirstDate(text)
                 && r.rows[k].context == ms[k].context && r.rows[k].estimate == ms[k].estimate
                 && r.rows[k].lower == ms[k].lower && r.rows[k].upper == ms[k].upper
                 && |r.rows[k].context| == ContextWidth
                 && IsNumber(r.rows[k].estimate) && IsNumber(r.rows[k].lower) && IsNumber(r.rows[k].upper)
                 && (r.rows[k].ratio <==> ContainsAny(DateText(FirstDate(text)) + r.rows[k].context, RatioKeywords))
                 && (r.rows[k].beta <==> ContainsAny(DateText(FirstDate(text)) + r.rows[k].context, BetaKeywords))
  {
    var r := ProcessFile(carried, text);
    var s := Normalise(text);
    var ms := AllMatches(s);
    forall k | 0 <= k < |r.rows|
      ensures r.rows[k].pmid == r.pmid.value && r.rows[k].date == FirstDate(text)
      ensures r.rows[k].context == ms[k].context && r.rows[k].estimate == ms[k].estimate
      ensures r.rows[k].lower == ms[k].lower && r.rows[k].upper == ms[k].upper
      ensures |r.rows[k].context| == ContextWidth
      ensures IsNumber(r.rows[k].estimate) && IsNumber(r.rows[k].lower) && IsNumber(r.rows[k].upper)
      ensures r.rows[k].ratio <==> ContainsAny(DateText(FirstDate(text)) + r.rows[k].context, RatioKeywords)
      ensures r.rows[k].beta <==> ContainsAny(DateText(FirstDate(text)) + r.rows[k].context, BetaKeywords)
    {
      var pat := MatchPattern(s, k);
      MatchShape(s, pat, ms[k]);
      TagsFromDateAndContext(s, pat, FirstDate(text), ms[k]);
    }
  }

  /** The pattern whose scan supplied element `k` of the combined list. */
  function MatchPattern(s: string, k: nat): (pat: Pattern)
    requires k < |AllMatches(s)|
    ensures IsMatchOf(s, pat, AllMatches(s)[k])
  {
    AllMatchesSound(s);
    var n3, n2 := |FindAllGroups(s, ConfidenceIntervalCi)|, |FindAllGroups(s, ConfidenceInterval)|;
    if k < n3 then ConfidenceIntervalCi else if k < n3 + n2 then ConfidenceInterval else Ci
  }

  /** A file without a PMID marker keeps the PMID of the files before it. */
  lemma NoMarkerKeepsPmid(carried: Option<string>, text: string)
    requires forall j :: !PmidAt(text, j)
    requires ProcessFile(carried, text).Processed?
    ensures ProcessFile(carried, text).pmid == carried
  {
    LastPmidIsLast(text);
  }

  // ---------------------------------------------------------------------------
  // The loop over the directory

  /** A directory entry as the loop sees it: its name and, for a `.txt` file, its contents. */
  datatype SourceFile = SourceFile(name: string, text: string)

  /** `filename.endswith('.txt')` */
  predicate IsTextFile(name: string) {
    |name| >= 4 && name[|name| - 4..] == ".txt"
  }

  /** The rows written, and whether the run stopped at a `NameError`. */
  datatype BatchOutcome = BatchOutcome(rows: seq<Row>, failed: bool)

  function Prepend(rows: seq<Row>, o: BatchOutcome): BatchOutcome {
    BatchOutcome(rows + o.rows, o.failed)
  }

  /**
   * The loop as a fold over the directory listing, carrying `pmid`: each file's
   * rows are written before the next file is read, and a `NameError` ends the run.
   */
  function RunBatch(files: seq<SourceFile>, carried: Option<string>): BatchOutcome
    decreases |files|
  {
    if files == [] then BatchOutcome([], false)
    else if !IsTextFile(files[0].name) then RunBatch(files[1..], carried)
    else match ProcessFile(carried, files[0].text)
      case NameError => BatchOutcome([], true)
      case Processed(pmid, rows) => Prepend(rows, RunBatch(files[1..], pmid))
  }

  /** One step of the fold, at index `i` of the listing. */
  lemma RunBatchAt(files: seq<SourceFile>, i: nat, carried: Option<string>)
    requires i < |files|
    ensures !IsTextFile(files[i].name) ==> RunBatch(files[i..], carried) == RunBatch(files[i + 1..], carried)
    ensures IsTextFile(files[i].name) && ProcessFile(carried, files[i].text).NameError? ==>
      RunBatch(files[i..], carried) == BatchOutcome([], true)
    ensures IsTextFile(files[i].name) && ProcessFile(carried, files[i].text).Processed? ==>
      var o := ProcessFile(carried, files[i].text);
      RunBatch(files[i..], carried) == Prepend(o.rows, RunBatch(files[i + 1..], o.pmid))
  {
    assert files[i..][0] == files[i];
    assert files[i..][1..] == files[i + 1..];
  }

  lemma PrependTwice(a: seq<Row>, b: seq<Row>, o: BatchOutcome)
    ensures Prepend(a + b, o) == Prepend(a, Prepend(b, o))
  {
    assert (a + b) + o.rows == a + (b + o.rows);
  }

  /** `.txt` file `k` of the listing has matches but neither it nor any `.txt` file before it has a PMID marker. */
  ghost predicate UnboundAt(files: seq<SourceFile>, k: nat) {
    k < |files| && IsTextFile(files[k].name) && AllMatches(Normalise(files[k].text)) != []
    && forall j :: 0 <= j <= k && IsTextFile(files[j].name) ==> LastPmid(files[j].text).None?
  }

  /** The run fails exactly when, with no PMID carried in, some `.txt` file with matches comes before any PMID marker. */
  lemma {:induction false} BatchFailsIff(files: seq<SourceFile>, carried: Option<string>)
    ensures RunBatch(files, carried).failed <==> carried.None? && exists k: nat :: UnboundAt(files, k)
    decreases |files|
  {
    if files != [] {
      var rest := files[1..];
      BatchFailsIff(rest, carried);
      assert forall k :: 0 < k < |files| ==> files[k] == rest[k - 1];
      if !IsTextFile(files[0].name) {
        if carried.None? {
          UnboundShift(files, carried);
        }
      } else {
        match ProcessFile(carried, files[0].text)
        case NameError =>
          assert UnboundAt(files, 0);
        case Processed(pmid, rows) =>
          BatchFailsIff(rest, pmid);
          if carried.None? {
            if pmid.None? {
              UnboundShift(files, carried);
            } else {
              assert forall k: nat :: !UnboundAt(files, k);
            }
          }
      }
    }
  }

  /** When file 0 neither fails nor sets a PMID, being unbound at `k` is being unbound at `k - 1` in the rest. */
  lemma UnboundShift(files: seq<SourceFile>, carried: Option<string>)
    requires files != [] && carried.None?
    requires !IsTextFile(files[0].name)
             || (ProcessFile(carried, files[0].text).Processed? && ProcessFile(carried, files[0].text).pmid.None?)
    ensures (exists k: nat :: UnboundAt(files, k)) <==> exists k: nat :: UnboundAt(files[1..], k)
  {
    var rest := files[1..];
    if exists k: nat :: UnboundAt(files, k) {
      var k: nat :| UnboundAt(files, k);
      assert UnboundAt(rest, k - 1) by {
        forall j | 0 <= j <= k - 1 && IsTextFile(rest[j].name)
          ensures LastPmid(rest[j].text).None?
        {
          assert rest[j] == files[j + 1];
        }
      }
    }
    if exists k: nat :: UnboundAt(rest, k) {
      var k: nat :| UnboundAt(rest, k);
      assert UnboundAt(files, k + 1) by {
        forall j | 0 <= j <= k + 1 && IsTextFile(files[j].name)
          ensures LastPmid(files[j].text).None?
        {
          if j > 0 {
            assert files[j] == rest[j - 1];
          }
        }
      }
    }
  }

  /**
   * The imperative form of `ProcessFile`, as the loop body runs it for one
   * `.txt` file: read the PMID (keeping `pmid` when the file has no marker),
   * the date and the matches, and build the rows; `nameError` when rows are
   * due but `pmid` was never bound.
   */
  method ReadAbstract(pmid: Option<string>, text: string) returns (newPmid: Option<string>, fileRows: seq<Row>, nameError: bool)
    ensures nameError <==> ProcessFile(pmid, text).NameError?
    ensures !nameError ==> ProcessFile(pmid, text) == Processed(newPmid, fileRows)
  {
    var normalised := Normalise(text);
    newPmid := pmid;
    var found := LastPmid(text);
    if found.Some? {
      newPmid := found;
    }
    var date := FirstDate(text);
    var matches := AllMatches(normalised);
    if matches != [] && newPmid.None? {
      return newPmid, [], true;
    }
    fileRows := if matches == [] then [] else FileRows(newPmid.value, date, matches);
    nameError := false;
  }

  /**
   * The loop over the directory listing: `.txt` entries only, `pmid` carried
   * from file to file, each file's rows appended in turn; a `NameError` stops it.
   */
  method ExtractAll(files: seq<SourceFile>) returns (rows: seq<Row>, failed: bool)
    ensures BatchOutcome(rows, failed) == RunBatch(files, None)
  {
    rows := [];
    failed := false;
    var pmid: Option<string> := None;
    var i := 0;
    while i < |files|
      invariant 0 <= i <= |files|
      invariant Prepend(rows, RunBatch(files[i..], pmid)) == RunBatch(files, None)
    {
      RunBatchAt(files, i, pmid);
      var file := files[i];
      if IsTextFile(file.name) {
        var newPmid, fileRows, nameError := ReadAbstract(pmid, file.text);
        if nameError {
          failed := true;
          return;
        }
        PrependTwice(rows, fileRows, RunBatch(files[i + 1..], newPmid));
        pmid := newPmid;
        rows := rows + fileRows;
      }
      i := i + 1;
    }
    assert files[i..] == [];
  }
}
