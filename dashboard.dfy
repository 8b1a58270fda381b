/**
 * The dashboard's page-navigation state: the globals `current_page` and
 * `total_pages`, the rows the grid shows, and the enabled state of the
 * Previous and Next buttons, as `update_table` and
 * `update_pagination_controls` set them from the Apply, Reset, Previous and
 * Next handlers. Also the case lookup of gui4.py's client details page.
 */
module Dashboard {
  import opened Text
  import opened Cases
  import opened Selection
  import opened Paging

  /** `total_pages` as the script's `update_table` computes it. */
  function TotalPages(script: Script, n: nat): (t: int)
    ensures t >= 1
    ensures n == 0 ==> t == 1
    ensures n > 0 ==> (t - 1) * ItemsPerPage < n <= t * ItemsPerPage
  {
    if script == Gui3WithCss then TotalPagesAtLeastOne(n) else TotalPagesOrOne(n)
  }

  /** One running dashboard. `table` is the DataFrame loaded at start-up with
      its derived columns, `parse` stands for `pd.to_datetime`. */
  class Board {
    const script: Script
    const table: seq<Row>
    const parse: string -> Parsed

    /** What the eight filter text fields hold. */
    var inputs: Filters
    var currentPage: int
    var totalPages: int
    /** `grid.options['rowData']`. */
    var gridRows: seq<Row>
    /** The error notifications the last update raised. */
    var notices: seq<DateColumn>
    var prevDisabled: bool
    var nextDisabled: bool
    /** The inputs the last update read; the fields may have been edited since. */
    ghost var applied: Filters

    /** The state the last `update_table` left: the page count, the grid and
        the notifications follow from the inputs it read, and the buttons
        follow from the page. */
    ghost predicate Valid()
      reads this
    {
      && LiteralTexts(inputs)
      && LiteralTexts(applied)
      && Shows(FilterData(table, applied, parse, script))
    }

    /** The page count, the grid, the notifications and the buttons are those
        of the filter result `out` on the current page. */
    ghost predicate Shows(out: Filtered)
      reads this
    {
      && totalPages == TotalPages(script, |out.rows|)
      && gridRows == PageRows(out.rows, currentPage)
      && notices == out.notices
      && prevDisabled == (currentPage == 1)
      && nextDisabled == (currentPage == totalPages)
    }

    /** The grid shows what the text fields hold now. */
    ghost predicate InSync()
      reads this
    {
      applied == inputs
    }

    /** The current page is one of the pages the label counts. */
    ghost predicate OnListedPage()
      reads this
    {
      1 <= currentPage <= totalPages
    }

    /** Start-up: the module-level `current_page = 1` and
        `total_pages = (len(df) + 4) // 5`, the grid built on page 1 of the
        whole table, then the initial `update_table()` with empty inputs. An
        empty table has no columns, so the scripts stop with a `KeyError`
        when they convert the creation date, before any of this. */
    constructor (script: Script, table: seq<Row>, parse: string -> Parsed)
      requires table != []
      ensures this.script == script && this.table == table && this.parse == parse
      ensures Valid() && InSync() && OnListedPage()
      ensures inputs == NoFilters && currentPage == 1
      ensures totalPages == TotalPages(script, |table|)
      ensures gridRows == PageRows(table, 1) && notices == []
      ensures prevDisabled && (nextDisabled <==> |table| <= ItemsPerPage)
    {
      this.script := script;
      this.table := table;
      this.parse := parse;
      inputs := NoFilters;
      applied := NoFilters;
      currentPage := 1;
      totalPages := InitialTotalPages(|table|);
      gridRows := PageRows(table, 1);
      notices := [];
      prevDisabled, nextDisabled := false, false;
      new;
      NoFiltersKeepAll(table, parse, script);
      UpdateTable(1);
    }

    /** `update_pagination_controls`: Previous is disabled exactly on page 1,
        Next exactly on the last page. */
    method UpdatePaginationControls()
      modifies this`prevDisabled, this`nextDisabled
      ensures prevDisabled <==> currentPage == 1
      ensures nextDisabled <==> currentPage == totalPages
    {
      prevDisabled := currentPage == 1;
      nextDisabled := currentPage == totalPages;
    }

    /** `update_table(page)`: filter with what the fields hold, recount the
        pages, show the requested page and refresh the buttons. */
    method UpdateTable(page: int)
      requires LiteralTexts(inputs)
      modifies this
      ensures Valid() && InSync()
      ensures inputs == old(inputs) && currentPage == page
      ensures Shows(FilterData(table, inputs, parse, script))
    {
      var out := FilterData(table, inputs, parse, script);
      ShowPage(page, out);
      applied := inputs;
    }

    /** The assignments of `update_table` once the filter result is known. */
    method ShowPage(page: int, out: Filtered)
      modifies this`currentPage, this`totalPages, this`gridRows, this`notices, this`prevDisabled, this`nextDisabled
      ensures currentPage == page && Shows(out)
    {
      currentPage := page;
      notices := out.notices;
      totalPages := CountPages(|out.rows|);
      gridRows := PageRows(out.rows, currentPage);
      UpdatePaginationControls();
    }

    /** The page count `update_table` assigns for `n` filtered rows: the
        assignment of gui3withCss.py:91 and of gui4.py:127-129, written as
        statements; `TotalPages` is the same count as a function. */
    method CountPages(n: nat) returns (t: int)
      ensures t == TotalPages(script, n)
    {
      if script == Gui3WithCss {
        t := (n + ItemsPerPage - 1) / ItemsPerPage;
        if t < 1 {
          t := 1;
        }
      } else {
        t := (n + ItemsPerPage - 1) / ItemsPerPage;
        if n == 0 {
          t := 1;
        }
      }
    }

    /** Typing into the filter fields changes only what they hold. */
    method SetInputs(f: Filters)
      requires Valid() && LiteralTexts(f)
      modifies this`inputs
      ensures Valid() && inputs == f
      ensures InSync() <==> applied == f
    {
      inputs := f;
    }

    /** Apply Filters: `update_table(1)`. */
    method ApplyFilters()
      requires Valid()
      modifies this
      ensures Valid() && InSync() && OnListedPage()
      ensures inputs == old(inputs) && currentPage == 1
      ensures gridRows == PageRows(FilterData(table, inputs, parse, script).rows, 1)
      ensures prevDisabled && (nextDisabled <==> totalPages == 1)
    {
      UpdateTable(1);
    }

    /** Reset Filters: empty all eight fields, then `update_table(1)`; the
        grid shows the first page of the whole table. */
    method ResetFilters()
      requires Valid()
      modifies this
      ensures Valid() && InSync() && OnListedPage()
      ensures inputs == NoFilters && currentPage == 1
      ensures totalPages == TotalPages(script, |table|)
      ensures gridRows == PageRows(table, 1) && notices == []
      ensures prevDisabled && (nextDisabled <==> |table| <= ItemsPerPage)
    {
      inputs := NoFilters;
      NoFiltersKeepAll(table, parse, script);
      UpdateTable(1);
    }

    /** Next: `update_table(current_page + 1)`. Pressed while enabled, on a
        listed page and with the fields unchanged since the last update, it
        moves to a listed page and the page count stays. */
    method Next()
      requires Valid()
      modifies this
      ensures Valid() && InSync()
      ensures inputs == old(inputs) && currentPage == old(currentPage) + 1
      ensures !prevDisabled <==> currentPage != 1
      ensures old(!nextDisabled && InSync() && OnListedPage()) ==>
                OnListedPage() && totalPages == old(totalPages)
    {
      UpdateTable(currentPage + 1);
    }

    /** Previous: `update_table(current_page - 1)`. Pressed while enabled, on
        a listed page and with the fields unchanged since the last update, it
        moves to a listed page and the page count stays. */
    method Previous()
      requires Valid()
      modifies this
      ensures Valid() && InSync()
      ensures inputs == old(inputs) && currentPage == old(currentPage) - 1
      ensures old(!prevDisabled && InSync() && OnListedPage()) ==>
                OnListedPage() && totalPages == old(totalPages) && !nextDisabled
    {
      UpdateTable(currentPage - 1);
    }
  }

  /** On a listed page the grid holds between one and five rows of the
      filtered table, unless that table is empty, and it holds five on every
      page before the last. */
  lemma GridOnListedPage(script: Script, rows: seq<Row>, page: int)
    requires 1 <= page <= TotalPages(script, |rows|)
    ensures |PageRows(rows, page)| <= ItemsPerPage
    ensures rows != [] ==> PageRows(rows, page) != []
    ensures page < TotalPages(script, |rows|) ==> |PageRows(rows, page)| == ItemsPerPage
  {
    TotalPagesAgree(|rows|);
    PageSizes(rows, page);
  }

  // ---------------------------------------------------------------------
  // The client details page of gui4.py

  /** `retrieve_data_with_column_name(case_id)`: the rows whose CASE ID equals
      `caseId` exactly when `caseId` is not empty, otherwise every row. */
  function CaseRows(table: seq<Row>, caseId: string): seq<Row>
  {
    if caseId != "" then Keep(table, (r: Row) => r.caseId == caseId) else table
  }

  /** The row the details page selects: the first row the lookup returns;
      `None` is the "No data found" notification. */
  function ClientFor(table: seq<Row>, caseId: string): Option<Row>
  {
    var rows := CaseRows(table, caseId);
    if rows == [] then None else Some(rows[0])
  }

  /** The lookup finds nothing exactly when no row carries the CASE ID (or,
      for an empty id, when the table is empty). */
  lemma ClientMissing(table: seq<Row>, caseId: string)
    ensures ClientFor(table, caseId).None?
            <==> if caseId != "" then forall i :: 0 <= i < |table| ==> table[i].caseId != caseId
                 else table == []
  {
    if caseId != "" && CaseRows(table, caseId) == [] {
      forall i | 0 <= i < |table| ensures table[i].caseId != caseId {
        assert table[i] in multiset(table);
      }
    }
  }

  /** The details page shows the first row with the CASE ID, in table order,
      and that row carries the id exactly. */
  lemma {:induction false} ClientIsFirstMatch(table: seq<Row>, caseId: string, k: nat)
    requires caseId != "" && k < |table| && table[k].caseId == caseId
    requires forall j :: 0 <= j < k ==> table[j].caseId != caseId
    ensures ClientFor(table, caseId) == Some(table[k])
  {
    assert table == [table[0]] + table[1..];
    if k > 0 {
      ClientIsFirstMatch(table[1..], caseId, k - 1);
    }
  }

  /** With an empty CASE ID the lookup takes the first row of the table. */
  lemma ClientForEmptyId(table: seq<Row>)
    requires table != []
    ensures ClientFor(table, "") == Some(table[0])
  {
  }
}
