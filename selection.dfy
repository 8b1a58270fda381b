/**
 * `filter_data`: the dashboard narrows the table one filter at a time, five
 * case-insensitive text filters and then three inclusive date ranges. The
 * three dashboard scripts share this code and differ in one respect only:
 * what an unreadable date range does.
 */
module Selection {
  import opened Text
  import opened Cases

  /** The dashboard script being modelled. */
  datatype Script = Gui3 | Gui4 | Gui3WithCss

  /** gui3.py and gui4.py answer an unreadable date range with an empty
      table; gui3withCss.py leaves the rows as they are. */
  predicate ClearsOnInvalidRange(script: Script)
  {
    script != Gui3WithCss
  }

  /** The outcome of `pd.to_datetime` on one bound: an instant, NaT (for
      instance on an empty string), or a raised `ValueError`. */
  datatype Parsed = At(instant: int) | NaT | Invalid

  /** How the dashboard reads one date-range text. */
  datatype Range =
    | Unbounded                       // empty, or not two parts around " to "
    | Bounds(lo: Parsed, hi: Parsed)  // both bounds parsed without raising
    | Malformed                       // parsing a bound raised

  /** The eight filter inputs, as the text fields hold them. */
  datatype Filters = Filters(
    name: string, change: string, status: string, caseId: string, dataSource: string,
    creation: string, sla: string, complete: string)

  /** All eight inputs empty: what Reset Filters puts back. */
  const NoFilters: Filters := Filters("", "", "", "", "", "", "", "")

  /** What `filter_data` returns, together with the error notifications it
      raised (one per unreadable date range). */
  datatype Filtered = Filtered(rows: seq<Row>, notices: seq<DateColumn>)

  const Separator: string := " to "

  // ---------------------------------------------------------------------
  // Order-preserving selection

  /** `a` is `b` with some elements left out, order kept. */
  predicate IsSubseq<T(==)>(a: seq<T>, b: seq<T>)
    decreases |b|
  {
    if a == [] then true
    else if b == [] then false
    else (a[0] == b[0] && IsSubseq(a[1..], b[1..])) || IsSubseq(a, b[1..])
  }

  /** Being a subsequence is transitive. */
  lemma {:induction false} SubseqTrans<T>(a: seq<T>, b: seq<T>, c: seq<T>)
    requires IsSubseq(a, b) && IsSubseq(b, c)
    ensures IsSubseq(a, c)
    decreases |c|
  {
    if a != [] && c != [] {
      if b[0] == c[0] && IsSubseq(b[1..], c[1..]) {
        if a[0] == b[0] && IsSubseq(a[1..], b[1..]) {
          SubseqTrans(a[1..], b[1..], c[1..]);
        } else {
          SubseqTrans(a, b[1..], c[1..]);
        }
      } else {
        SubseqTrans(a, b, c[1..]);
      }
    }
  }

  /** A boolean-mask selection `df[mask]`: the rows satisfying `p`, in their
      order and with their multiplicity. */
  function Keep<T(==, !new)>(s: seq<T>, p: T -> bool): (r: seq<T>)
    ensures IsSubseq(r, s)
    ensures forall i :: 0 <= i < |r| ==> p(r[i])
    ensures forall x :: multiset(r)[x] == if p(x) then multiset(s)[x] else 0
  {
    if s == [] then []
    else
      var rest := Keep(s[1..], p);
      assert s == [s[0]] + s[1..];
      if p(s[0]) then
        var r := [s[0]] + rest;
        assert r[1..] == rest;
        r
      else rest
  }

  // ---------------------------------------------------------------------
  // The filters, one at a time, as `filter_data` applies them

  /** One text filter: an empty text keeps every row, otherwise the rows whose
      column contains the text, ignoring case. */
  function TextStep(rows: seq<Row>, c: TextColumn, needle: string): seq<Row>
  {
    if needle == "" then rows else Keep(rows, r => ContainsCI(TextOf(r, c), needle))
  }

  /** Reads a date-range text: split on " to "; when there are exactly two
      parts, each is stripped and parsed, and a bound that raises makes the
      range malformed. */
  function ReadRange(text: string, parse: string -> Parsed): Range
  {
    if text == "" then Unbounded
    else
      var parts := Split(text, Separator);
      if |parts| != 2 then Unbounded
      else
        var lo := parse(Strip(parts[0]));
        if lo.Invalid? then Malformed
        else
          var hi := parse(Strip(parts[1]));
          if hi.Invalid? then Malformed else Bounds(lo, hi)
  }

  /** `(col >= lo) & (col <= hi)` for one row: any comparison with NaT is
      false. */
  predicate Within(d: Option<int>, lo: Parsed, hi: Parsed)
  {
    d.Some? && lo.At? && hi.At? && lo.instant <= d.value <= hi.instant
  }

  /** Date filtering in progress: rows still going, or the early
      `return pd.DataFrame()` of gui3.py and gui4.py after the notice for `at`. */
  datatype Progress = Going(rows: seq<Row>, notices: seq<DateColumn>) | Cleared(at: DateColumn)

  /** One date-range filter on column `c`. */
  function DateStep(p: Progress, c: DateColumn, text: string, parse: string -> Parsed,
                    script: Script): Progress
  {
    RangeStep(p, c, ReadRange(text, parse), script)
  }

  /** One date-range filter on column `c` once its text has been read. */
  function RangeStep(p: Progress, c: DateColumn, range: Range, script: Script): Progress
  {
    match p
    case Cleared(_) => p
    case Going(rows, notices) =>
      match range
      case Unbounded => p
      case Bounds(lo, hi) => Going(Keep(rows, r => Within(DateOf(r, c), lo, hi)), notices)
      case Malformed =>
        if ClearsOnInvalidRange(script) then Cleared(c) else Going(rows, notices + [c])
  }

  /** The text filters hold no regex syntax, so `str.contains` matches them
      literally. */
  predicate LiteralTexts(f: Filters)
  {
    IsLiteral(f.name) && IsLiteral(f.change) && IsLiteral(f.status)
    && IsLiteral(f.caseId) && IsLiteral(f.dataSource)
  }

  /** The five text filters of `filter_data`, in order. */
  function TextFilters(table: seq<Row>, f: Filters): seq<Row>
  {
    var byName := TextStep(table, ClientName, f.name);
    var byChange := TextStep(byName, MaterialChange, f.change);
    var byStatus := TextStep(byChange, CaseStatus, f.status);
    var byCase := TextStep(byStatus, CaseIdColumn, f.caseId);
    TextStep(byCase, DataSource, f.dataSource)
  }

  /** The three date filters of `filter_data`: creation, SLA, completion. */
  function DateFilters(rows: seq<Row>, f: Filters, parse: string -> Parsed, script: Script): Progress
  {
    var p1 := DateStep(Going(rows, []), CreationDate, f.creation, parse, script);
    var p2 := DateStep(p1, SlaDateColumn, f.sla, parse, script);
    DateStep(p2, CompleteDate, f.complete, parse, script)
  }

  /** `filter_data`: the text filters, then the date filters; an early return
      gives an empty table. */
  function FilterData(table: seq<Row>, f: Filters, parse: string -> Parsed, script: Script): Filtered
    requires LiteralTexts(f)
  {
    match DateFilters(TextFilters(table, f), f, parse, script)
    case Going(rows, notices) => Filtered(rows, notices)
    case Cleared(c) => Filtered([], [c])
  }

  // ---------------------------------------------------------------------
  // All filters at once: which rows the dashboard should show

  /** A row passes a text filter. */
  predicate TextAdmits(r: Row, c: TextColumn, needle: string)
  {
    needle == "" || ContainsCI(TextOf(r, c), needle)
  }

  /** A row passes a date filter; unbounded and malformed ranges pass all. */
  predicate RangeAdmits(r: Row, c: DateColumn, range: Range)
  {
    range.Bounds? ==> Within(DateOf(r, c), range.lo, range.hi)
  }

  /** A row passes the five text filters. */
  predicate TextsAdmit(f: Filters, r: Row)
  {
    && TextAdmits(r, ClientName, f.name)
    && TextAdmits(r, MaterialChange, f.change)
    && TextAdmits(r, CaseStatus, f.status)
    && TextAdmits(r, CaseIdColumn, f.caseId)
    && TextAdmits(r, DataSource, f.dataSource)
  }

  /** A row passes the three date filters. */
  predicate DatesAdmit(f: Filters, parse: string -> Parsed, r: Row)
  {
    && RangeAdmits(r, CreationDate, ReadRange(f.creation, parse))
    && RangeAdmits(r, SlaDateColumn, ReadRange(f.sla, parse))
    && RangeAdmits(r, CompleteDate, ReadRange(f.complete, parse))
  }

  /** A row passes every filter. */
  predicate Selected(f: Filters, parse: string -> Parsed, r: Row)
  {
    TextsAdmit(f, r) && DatesAdmit(f, parse, r)
  }

  /** The date columns whose range text is malformed, in filtering order. */
  function MalformedRanges(f: Filters, parse: string -> Parsed): seq<DateColumn>
  {
    (if ReadRange(f.creation, parse).Malformed? then [CreationDate] else [])
    + (if ReadRange(f.sla, parse).Malformed? then [SlaDateColumn] else [])
    + (if ReadRange(f.complete, parse).Malformed? then [CompleteDate] else [])
  }

  /** The contract of one text step: the rows passing its filter, order kept. */
  lemma TextStepSelects(rows: seq<Row>, c: TextColumn, needle: string)
    ensures IsSubseq(TextStep(rows, c, needle), rows)
    ensures forall x :: multiset(TextStep(rows, c, needle))[x]
                        == if TextAdmits(x, c, needle) then multiset(rows)[x] else 0
  {
    if needle == "" {
      assert IsSubseq(rows, rows) by { SubseqRefl(rows); }
    }
  }

  lemma {:induction false} SubseqRefl<T>(s: seq<T>)
    ensures IsSubseq(s, s)
  {
    if s != [] {
      SubseqRefl(s[1..]);
    }
  }

  /** The contract of one date step: the rows inside the range when it has
      bounds, all rows when it has none, and on a malformed range either the
      early return or a notice with the rows unchanged. */
  lemma DateStepSelects(rows: seq<Row>, notices: seq<DateColumn>, c: DateColumn, text: string,
                        parse: string -> Parsed, script: Script)
    ensures var p := DateStep(Going(rows, notices), c, text, parse, script);
            var range := ReadRange(text, parse);
            if range.Malformed? && ClearsOnInvalidRange(script) then p == Cleared(c)
            else
              && p.Going?
              && IsSubseq(p.rows, rows)
              && (forall x :: multiset(p.rows)[x] == if RangeAdmits(x, c, range) then multiset(rows)[x] else 0)
              && p.notices == notices + (if range.Malformed? then [c] else [])
  {
    RangeStepSelects(rows, notices, c, ReadRange(text, parse), script);
  }

  /** `DateStepSelects` for a range already read. */
  lemma RangeStepSelects(rows: seq<Row>, notices: seq<DateColumn>, c: DateColumn, range: Range,
                         script: Script)
    ensures var p := RangeStep(Going(rows, notices), c, range, script);
            if range.Malformed? && ClearsOnInvalidRange(script) then p == Cleared(c)
            else
              && p.Going?
              && IsSubseq(p.rows, rows)
              && (forall x :: multiset(p.rows)[x] == if RangeAdmits(x, c, range) then multiset(rows)[x] else 0)
              && p.notices == notices + (if range.Malformed? then [c] else [])
  {
    match range
    case Unbounded =>
      SubseqRefl(rows);
    case Malformed =>
      SubseqRefl(rows);
    case Bounds(lo, hi) =>
  }

  /** The text filters keep, in order, exactly the rows passing all five. */
  lemma TextFiltersSelect(table: seq<Row>, f: Filters)
    ensures IsSubseq(TextFilters(table, f), table)
    ensures forall x :: multiset(TextFilters(table, f))[x]
                        == if TextsAdmit(f, x) then multiset(table)[x] else 0
  {
    var byName := TextStep(table, ClientName, f.name);
    var byChange := TextStep(byName, MaterialChange, f.change);
    var byStatus := TextStep(byChange, CaseStatus, f.status);
    var byCase := TextStep(byStatus, CaseIdColumn, f.caseId);
    var bySource := TextStep(byCase, DataSource, f.dataSource);
    TextStepSelects(table, ClientName, f.name);
    TextStepSelects(byName, MaterialChange, f.change);
    TextStepSelects(byChange, CaseStatus, f.status);
    TextStepSelects(byStatus, CaseIdColumn, f.caseId);
    TextStepSelects(byCase, DataSource, f.dataSource);
    SubseqTrans(byChange, byName, table);
    SubseqTrans(byStatus, byChange, table);
    SubseqTrans(byCase, byStatus, table);
    SubseqTrans(bySource, byCase, table);
  }

  /** The date filters: the early return at the first unreadable range for
      the clearing scripts, otherwise the rows passing all three ranges, in
      order, with one notice per unreadable range. */
  lemma DateFiltersSelect(rows: seq<Row>, f: Filters, parse: string -> Parsed, script: Script)
    ensures var p := DateFilters(rows, f, parse, script);
            var bad := MalformedRanges(f, parse);
            if ClearsOnInvalidRange(script) && bad != [] then p == Cleared(bad[0])
            else
              && p.Going? && p.notices == bad
              && IsSubseq(p.rows, rows)
              && (forall x :: multiset(p.rows)[x] == if DatesAdmit(f, parse, x) then multiset(rows)[x] else 0)
  {
    var r1, r2, r3 := ReadRange(f.creation, parse), ReadRange(f.sla, parse), ReadRange(f.complete, parse);
    var clears := ClearsOnInvalidRange(script);
    var p1 := DateStep(Going(rows, []), CreationDate, f.creation, parse, script);
    DateStepSelects(rows, [], CreationDate, f.creation, parse, script);
    if clears && r1.Malformed? {
      return;
    }
    var p2 := DateStep(p1, SlaDateColumn, f.sla, parse, script);
    DateStepSelects(p1.rows, p1.notices, SlaDateColumn, f.sla, parse, script);
    if clears && r2.Malformed? {
      return;
    }
    var p3 := DateStep(p2, CompleteDate, f.complete, parse, script);
    DateStepSelects(p2.rows, p2.notices, CompleteDate, f.complete, parse, script);
    if clears && r3.Malformed? {
      return;
    }
    var n1: seq<DateColumn> := if r1.Malformed? then [CreationDate] else [];
    var n2: seq<DateColumn> := if r2.Malformed? then [SlaDateColumn] else [];
    var n3: seq<DateColumn> := if r3.Malformed? then [CompleteDate] else [];
    assert p1.notices == [] + n1 == n1;
    assert p2.notices == n1 + n2;
    assert p3.notices == n1 + n2 + n3;
    assert MalformedRanges(f, parse) == n1 + n2 + n3;
    SubseqTrans(p2.rows, p1.rows, rows);
    SubseqTrans(p3.rows, p2.rows, rows);
    forall x ensures multiset(p3.rows)[x] == if DatesAdmit(f, parse, x) then multiset(rows)[x] else 0 {
    }
  }

  /** What `filter_data` returns. When a script that clears on an unreadable
      range meets one, the result is empty with the notice for the first such
      range. Otherwise the result holds, in table order and with their
      multiplicity, exactly the rows that pass every filter, and one notice per
      unreadable range. */
  lemma FilterDataSelects(table: seq<Row>, f: Filters, parse: string -> Parsed, script: Script)
    requires LiteralTexts(f)
    ensures var out := FilterData(table, f, parse, script);
            var bad := MalformedRanges(f, parse);
            if ClearsOnInvalidRange(script) && bad != [] then out == Filtered([], [bad[0]])
            else
              && IsSubseq(out.rows, table)
              && (forall x :: multiset(out.rows)[x] == if Selected(f, parse, x) then multiset(table)[x] else 0)
              && out.notices == bad
  {
    var texts := TextFilters(table, f);
    TextFiltersSelect(table, f);
    DateFiltersSelect(texts, f, parse, script);
    var p := DateFilters(texts, f, parse, script);
    if p.Going? {
      SubseqTrans(p.rows, texts, table);
    }
  }

  /** A date text without " to " filters nothing. */
  lemma ReadRangeWithoutSeparator(text: string, parse: string -> Parsed)
    requires !Contains(text, Separator)
    ensures ReadRange(text, parse) == Unbounded
  {
    SplitSingle(text, Separator);
  }

  /** `"A to B"` with A and B free of white space is read as the range from
      the instant of A to the instant of B, malformed when either raises. */
  lemma ReadRangeOfBounds(a: string, b: string, parse: string -> Parsed)
    requires forall k :: 0 <= k < |a| ==> !IsSpace(a[k])
    requires forall k :: 0 <= k < |b| ==> !IsSpace(b[k])
    ensures ReadRange(a + Separator + b, parse)
            == if parse(a).Invalid? || parse(b).Invalid? then Malformed else Bounds(parse(a), parse(b))
  {
    var text := a + Separator + b;
    assert Split(text, Separator) == [a, b] by {
      assert IsSpace(' ');
      SplitAroundSeparator(a, b);
    }
    StripUnspaced(a);
    StripUnspaced(b);
    ReadRangeOfParts(text, a, b, parse);
  }

  /** A text split into two stripped parts is read from those parts. */
  lemma ReadRangeOfParts(text: string, a: string, b: string, parse: string -> Parsed)
    requires text != "" && Split(text, Separator) == [a, b]
    requires Strip(a) == a && Strip(b) == b
    ensures ReadRange(text, parse)
            == if parse(a).Invalid? || parse(b).Invalid? then Malformed else Bounds(parse(a), parse(b))
  {
  }

  /** Both bounds are inclusive, and a row whose date is NaT never passes a
      range that has bounds. */
  lemma RangeInclusive(r: Row, c: DateColumn, lo: int, hi: int)
    ensures RangeAdmits(r, c, Bounds(At(lo), At(hi)))
            <==> DateOf(r, c).Some? && lo <= DateOf(r, c).value <= hi
    ensures DateOf(r, c).None? ==> !RangeAdmits(r, c, Bounds(At(lo), At(hi)))
    ensures DateOf(r, c) == Some(lo) && lo <= hi ==> RangeAdmits(r, c, Bounds(At(lo), At(hi)))
    ensures DateOf(r, c) == Some(hi) && lo <= hi ==> RangeAdmits(r, c, Bounds(At(lo), At(hi)))
  {
  }

  /** A bound that parsed to NaT lets no row through. */
  lemma RangeWithNaT(r: Row, c: DateColumn, other: Parsed)
    ensures !RangeAdmits(r, c, Bounds(NaT, other))
    ensures !RangeAdmits(r, c, Bounds(other, NaT))
  {
  }

  /** The SLA range `[lo, hi]` selects the rows created within
      `[lo - 90 days, hi - 90 days]`. */
  lemma SlaRangeIsShiftedCreationRange(r: Row, lo: int, hi: int)
    ensures RangeAdmits(r, SlaDateColumn, Bounds(At(lo), At(hi)))
            <==> RangeAdmits(r, CreationDate,
                             Bounds(At(lo - SlaWindowDays * NanosPerDay), At(hi - SlaWindowDays * NanosPerDay)))
  {
  }

  /** With every input empty, `filter_data` returns the whole table and raises
      no notice. */
  lemma NoFiltersKeepAll(table: seq<Row>, parse: string -> Parsed, script: Script)
    ensures FilterData(table, NoFilters, parse, script) == Filtered(table, [])
  {
  }

  /** Without an unreadable range the three scripts select the same rows;
      gui3.py and gui4.py agree on every input. */
  lemma ScriptsAgree(table: seq<Row>, f: Filters, parse: string -> Parsed)
    requires LiteralTexts(f)
    ensures FilterData(table, f, parse, Gui3) == FilterData(table, f, parse, Gui4)
    ensures MalformedRanges(f, parse) == []
            ==> FilterData(table, f, parse, Gui4) == FilterData(table, f, parse, Gui3WithCss)
  {
    var texts := TextFilters(table, f);
    DateFiltersAgree(texts, f, parse, Gui3, Gui4);
    if MalformedRanges(f, parse) == [] {
      DateFiltersAgree(texts, f, parse, Gui4, Gui3WithCss);
    }
  }

  /** Two scripts filter dates alike when they treat unreadable ranges alike
      or there is none. */
  lemma DateFiltersAgree(rows: seq<Row>, f: Filters, parse: string -> Parsed, s1: Script, s2: Script)
    requires ClearsOnInvalidRange(s1) == ClearsOnInvalidRange(s2) || MalformedRanges(f, parse) == []
    ensures DateFilters(rows, f, parse, s1) == DateFilters(rows, f, parse, s2)
  {
    var p1 := DateStep(Going(rows, []), CreationDate, f.creation, parse, s1);
    DateStepAgrees(Going(rows, []), CreationDate, f.creation, parse, s1, s2);
    var p2 := DateStep(p1, SlaDateColumn, f.sla, parse, s1);
    DateStepAgrees(p1, SlaDateColumn, f.sla, parse, s1, s2);
    DateStepAgrees(p2, CompleteDate, f.complete, parse, s1, s2);
  }

  lemma DateStepAgrees(p: Progress, c: DateColumn, text: string, parse: string -> Parsed, s1: Script, s2: Script)
    requires ClearsOnInvalidRange(s1) == ClearsOnInvalidRange(s2) || !ReadRange(text, parse).Malformed?
    ensures DateStep(p, c, text, parse, s1) == DateStep(p, c, text, parse, s2)
  {
  }

  /** On an unreadable range gui4.py shows nothing while gui3withCss.py still
      shows every row the other filters select. */
  lemma InvalidRangeDiffers(table: seq<Row>, f: Filters, parse: string -> Parsed)
    requires LiteralTexts(f)
    requires MalformedRanges(f, parse) != []
    ensures FilterData(table, f, parse, Gui4).rows == []
    ensures FilterData(table, f, parse, Gui3WithCss).notices == MalformedRanges(f, parse)
    ensures forall x :: multiset(FilterData(table, f, parse, Gui3WithCss).rows)[x]
                        == if Selected(f, parse, x) then multiset(table)[x] else 0
  {
    FilterDataSelects(table, f, parse, Gui4);
    FilterDataSelects(table, f, parse, Gui3WithCss);
  }
}
