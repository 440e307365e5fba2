/** The table utilities of the dashboard script: the search filter and the
    ten-row pagination. Both write the same per-row display flag, so each
    overwrites what the other did; both write the same "showing a-b" label. */
module DataTables {
  import opened JsString
  import opened Wrappers
  import opened Dom

  const RowsPerPage := 10

  /** How many flags are set. */
  function CountTrue(s: seq<bool>): (n: nat)
    ensures n <= |s|
  {
    if s == [] then 0 else CountTrue(s[..|s| - 1]) + (if s[|s| - 1] then 1 else 0)
  }

  /** Counting an all-set sequence counts every flag. */
  lemma {:induction false} CountAllTrue(s: seq<bool>)
    requires forall i :: 0 <= i < |s| ==> s[i]
    ensures CountTrue(s) == |s|
  {
    if s != [] {
      CountAllTrue(s[..|s| - 1]);
    }
  }

  // ---------------------------------------------------------------------
  // Search filter

  /** `filterTable` keeps a row when its lower-cased text includes the term
      or the term is empty. The term itself is used as given. */
  predicate RowMatches(row: string, term: string) {
    Contains(ToLower(row), term) || term == ""
  }

  /** The display flag `filterTable` gives each row. */
  function FilterMask(rows: seq<string>, term: string): (m: seq<bool>)
    ensures |m| == |rows|
    ensures forall i :: 0 <= i < |rows| ==> m[i] == RowMatches(rows[i], term)
  {
    seq(|rows|, i requires 0 <= i < |rows| => RowMatches(rows[i], term))
  }

  /** The empty term shows every row, and the count is the number of rows. */
  lemma EmptyTermShowsAll(rows: seq<string>)
    ensures forall i :: 0 <= i < |rows| ==> FilterMask(rows, "")[i]
    ensures CountTrue(FilterMask(rows, "")) == |rows|
  {
    CountAllTrue(FilterMask(rows, ""));
  }

  /** Matching ignores the case of the row, and a term with an upper-case
      letter matches no row: that is why the search box lower-cases what the
      user typed before filtering. */
  lemma UpperCaseTermMatchesNothing(row: string, term: string, k: nat)
    requires k < |term| && 'A' <= term[k] <= 'Z'
    ensures !RowMatches(row, term)
  {
    var text := ToLower(row);
    if Contains(text, term) {
      assert false;
    }
  }

  /** What the search box passes: the typed text trimmed and lower-cased. */
  function SearchTerm(typed: string): (term: string)
    ensures |term| <= |typed|
    ensures forall i :: 0 <= i < |term| ==> !('A' <= term[i] <= 'Z')
    ensures term == [] <==> AllSpace(typed)
  {
    TrimBlankIffAllSpace(typed);
    ToLower(Trim(typed))
  }

  /** `filterTable` reads a row only through its lower-cased text: two rows
      that differ only in the case of their letters are kept or hidden
      together, whatever the term. */
  lemma FilterIgnoresRowCase(a: string, b: string, term: string)
    requires ToLower(a) == ToLower(b)
    ensures RowMatches(a, term) == RowMatches(b, term)
  {
  }

  // ---------------------------------------------------------------------
  // Pagination

  /** `Math.ceil(n / 10)`. */
  function TotalPages(n: nat): (p: nat)
    ensures p * RowsPerPage >= n
    ensures p == 0 || (p - 1) * RowsPerPage < n
  {
    (n + RowsPerPage - 1) / RowsPerPage
  }

  /** `goToPage(page)` shows row `i` exactly when it is on that page. */
  predicate OnPage(i: int, page: int) {
    (page - 1) * RowsPerPage <= i < (page - 1) * RowsPerPage + RowsPerPage
  }

  function PageMask(n: nat, page: int): (m: seq<bool>)
    ensures |m| == n
    ensures forall i :: 0 <= i < n ==> m[i] == OnPage(i, page)
  {
    seq(n, i => OnPage(i, page))
  }

  function Min(a: int, b: int): int {
    if a <= b then a else b
  }

  function Max(a: int, b: int): int {
    if a >= b then a else b
  }

  /** The number of rows `goToPage` leaves visible: those of the first `n`
      that fall in the page's window. */
  lemma {:induction false} PageVisibleCount(n: nat, page: int)
    ensures CountTrue(PageMask(n, page)) ==
      Max(0, Min(n, (page - 1) * RowsPerPage + RowsPerPage) - Max(0, (page - 1) * RowsPerPage))
  {
    if n > 0 {
      PageVisibleCount(n - 1, page);
      assert PageMask(n, page)[..n - 1] == PageMask(n - 1, page);
    }
  }

  /** At most ten rows are visible after `goToPage`, and exactly ten on a
      page that the rows fill. */
  lemma PageShowsAtMostTen(n: nat, page: int)
    ensures CountTrue(PageMask(n, page)) <= RowsPerPage
    ensures 1 <= page && page * RowsPerPage <= n ==> CountTrue(PageMask(n, page)) == RowsPerPage
  {
    PageVisibleCount(n, page);
  }

  /** The first and last row numbers `updatePaginationUI` writes into the
      "showing" label. The end is capped at `totalPages * 10`, not at the
      number of rows. */
  function LabelStart(page: int): int {
    (page - 1) * RowsPerPage + 1
  }

  function LabelEnd(page: int, totalPages: int): int {
    Min(page * RowsPerPage, totalPages * RowsPerPage)
  }

  function PageLabel(page: int, totalPages: int): string {
    IntToString(LabelStart(page)) + "-" + IntToString(LabelEnd(page, totalPages))
  }

  /** The "showing" text of a page reads back: `parseInt` takes the first
      row number off its front, and the last row number after the dash
      that follows. */
  lemma PageLabelReadsBack(page: int, totalPages: int)
    ensures ParseInt(PageLabel(page, totalPages)) == Some(LabelStart(page))
    ensures var shown, cut := PageLabel(page, totalPages), |IntToString(LabelStart(page))| + 1;
      cut <= |shown| && shown[cut - 1] == '-' && ParseInt(shown[cut..]) == Some(LabelEnd(page, totalPages))
  {
    RangeReadsBack(LabelStart(page), LabelEnd(page, totalPages));
  }

  /** On a page that the rows fill, the label spans exactly the visible rows. */
  lemma FullPageLabelMatches(n: nat, page: int)
    requires 1 <= page && page * RowsPerPage <= n
    ensures LabelEnd(page, TotalPages(n)) - LabelStart(page) + 1 == CountTrue(PageMask(n, page))
  {
    PageShowsAtMostTen(n, page);
  }

  /** On a short last page the label overstates: eleven rows, page two,
      one row visible, label "11-20". */
  lemma ShortLastPageLabel()
    ensures CountTrue(PageMask(11, 2)) == 1
    ensures PageLabel(2, TotalPages(11)) == "11-20"
  {
    PageVisibleCount(11, 2);
    assert NatToString(11) == "11";
    assert NatToString(20) == "20";
  }

  /** The label `filterTable` writes: from 1 to the number of visible rows. */
  function FilterLabel(count: nat): string {
    "1-" + NatToString(count)
  }

  /** The "showing" text after a search reads back as 1 and the match count. */
  lemma FilterLabelReadsBack(count: nat)
    ensures ParseInt(FilterLabel(count)) == Some(1)
    ensures var shown := FilterLabel(count);
      |shown| > 2 && shown[1] == '-' && ParseInt(shown[2..]) == Some(count)
  {
    var shown := FilterLabel(count);
    assert shown == IntToString(1) + "-" + IntToString(count) by {
      assert IntToString(1) == "1";
      assert IntToString(count) == NatToString(count);
    }
    RangeReadsBack(1, count);
  }

  /** The page number a pagination button carries: `parseInt` of its
      `data-page`, `None` (NaN) when it has none. */
  function ButtonPage(b: Element): (page: Option<int>)
    ensures "page" !in b.data ==> page.None?
    ensures page.Some? ==> DigitPrefixLength(UnsignedPart(TrimStart(b.data["page"]))) > 0
  {
    if "page" in b.data then ParseInt(b.data["page"]) else None
  }

  /** A button whose `data-page` is a rendered page number carries that page. */
  lemma RenderedButtonPage(b: Element, n: int)
    requires "page" in b.data && b.data["page"] == IntToString(n)
    ensures ButtonPage(b) == Some(n)
  {
    IntToStringParses(n);
  }

  /** A table body with the elements that belong to it. */
  class DataTable {
    /** Text content of each body row, in document order. */
    const rows: seq<string>
    /** Per row: its `style.display` is not "none". */
    const shown: array<bool>
    /** Text of the `showing-<id>` element; `None` when the page has none. */
    var showing: Option<string>
    /** The `.page-btn` buttons of the table's `.pagination` element; `None`
        when the page has no pagination for this table. */
    const pageButtons: Option<seq<Element>>

    ghost predicate Valid()
      reads this
    {
      shown.Length == |rows|
    }

    constructor (rows: seq<string>, showing: Option<string>, pageButtons: Option<seq<Element>>)
      ensures Valid() && fresh(shown)
      ensures this.rows == rows && this.showing == showing && this.pageButtons == pageButtons
      ensures forall i :: 0 <= i < |rows| ==> shown[i]
    {
      this.rows := rows;
      this.showing := showing;
      this.pageButtons := pageButtons;
      shown := new bool[|rows|](_ => true);
    }
  }

  /** `filterTable(tableId, term)`; `table` is null when no element has that
      id, and then nothing changes. Earlier visibility, from a search or a
      page, plays no part in the result. */
  method FilterTable(table: DataTable?, term: string)
    requires table != null ==> table.Valid()
    modifies table, if table != null then {table.shown} else {}
    ensures table != null ==> table.shown[..] == FilterMask(table.rows, term)
    ensures table != null ==> (table.showing ==
      if old(table.showing).Some? then Some(FilterLabel(CountTrue(FilterMask(table.rows, term)))) else None)
  {
    if table == null {
      return;
    }
    var a := table.shown;
    var visibleCount := 0;
    var i := 0;
    while i < a.Length
      invariant 0 <= i <= a.Length
      invariant a[..i] == FilterMask(table.rows, term)[..i]
      invariant visibleCount == CountTrue(a[..i])
      invariant table.showing == old(table.showing)
    {
      var keep := Contains(ToLower(table.rows[i]), term) || term == "";
      a[i] := keep;
      assert a[..i + 1][..i] == a[..i];
      if keep {
        visibleCount := visibleCount + 1;
      }
      i := i + 1;
    }
    assert a[..] == a[..i];
    if table.showing.Some? {
      table.showing := Some(FilterLabel(visibleCount));
    }
  }

  /** The search box's `input` handler as written. `debounce` calls it with
      no receiver, so `this.dataset.table` throws a TypeError before
      `filterTable` is reached: typing changes neither the rows nor the
      label. */
  method SearchInput(table: DataTable?, typed: string) returns (threw: bool)
    ensures threw
    ensures table != null ==> table.shown[..] == old(table.shown[..]) && table.showing == old(table.showing)
  {
    threw := true;
  }

  /** A concrete case where typing should hide a row and does not: a table
      with one blank row, all shown, and any typed text that is not white
      space only. */
  method TypedSearchIgnored() returns (before: seq<bool>, after: seq<bool>, intended: seq<bool>)
    ensures before == [true] && after == before
    ensures intended == [false]
  {
    var table := new DataTable([""], Some("1-1"), None);
    before := table.shown[..];
    var threw := SearchInput(table, "b");
    after := table.shown[..];
    var term := SearchTerm("b");
    assert !AllSpace("b");
    assert |ToLower("")| == 0;
    intended := FilterMask(table.rows, term);
    assert !RowMatches("", term);
  }

  /** The search box's `input` handler as intended, with `this` bound to
      the input: filter by the typed text, trimmed and lower-cased. */
  method Search(table: DataTable?, typed: string)
    requires table != null ==> table.Valid()
    modifies table, if table != null then {table.shown} else {}
    ensures table != null ==> table.shown[..] == FilterMask(table.rows, SearchTerm(typed))
    ensures table != null ==> (table.showing ==
      if old(table.showing).Some? then Some(FilterLabel(CountTrue(FilterMask(table.rows, SearchTerm(typed))))) else None)
  {
    FilterTable(table, SearchTerm(typed));
  }

  /** The clear button next to the search box: it reads the table from the
      input itself, so it does reach `filterTable`, with the empty term.
      Every row is shown again and the label counts them all. */
  method ClearSearch(table: DataTable?)
    requires table != null ==> table.Valid()
    modifies table, if table != null then {table.shown} else {}
    ensures table != null ==> forall i :: 0 <= i < table.shown.Length ==> table.shown[i]
    ensures table != null ==> (table.showing ==
      if old(table.showing).Some? then Some(FilterLabel(|table.rows|)) else None)
  {
    FilterTable(table, "");
    if table != null {
      EmptyTermShowsAll(table.rows);
    }
  }

  /** A button's classes with "active" set exactly when `on`. */
  function MarkActive(c: set<string>, on: bool): (r: set<string>)
    ensures ("active" in r <==> on) && r - {"active"} == c - {"active"}
  {
    if on then c + {"active"} else c - {"active"}
  }

  /** The button's parsed `data-page` is `page`. */
  predicate IsCurrent(b: Element, page: int) {
    ButtonPage(b) == Some(page)
  }

  /** The button loop of `updatePaginationUI`: each button is "active"
      exactly when its parsed `data-page` is `page`; nothing else changes. */
  method MarkButtons(buttons: seq<Element>, page: int)
    modifies set b | b in buttons
    ensures forall b :: b in buttons ==> b.classes == MarkActive(old(b.classes), IsCurrent(b, page))
  {
    var n := 0;
    while n < |buttons|
      invariant 0 <= n <= |buttons|
      invariant forall b :: b in buttons ==>
        b.classes == old(b.classes) || b.classes == MarkActive(old(b.classes), IsCurrent(b, page))
      invariant forall k :: 0 <= k < n ==>
        buttons[k].classes == MarkActive(old(buttons[k].classes), IsCurrent(buttons[k], page))
    {
      var b := buttons[n];
      b.classes := MarkActive(b.classes, IsCurrent(b, page));
      n := n + 1;
    }
  }

  /** `updatePaginationUI(tableId, currentPage, totalPages)`: exactly the
      buttons whose page is `currentPage` become "active", and the label is
      rewritten. Without a pagination element nothing changes, not even the
      label. */
  method UpdatePaginationUI(table: DataTable, currentPage: int, totalPages: int)
    modifies table, if table.pageButtons.Some? then set b | b in table.pageButtons.value else {}
    ensures table.pageButtons.Some? ==> forall b :: b in table.pageButtons.value ==>
      b.classes == MarkActive(old(b.classes), ButtonPage(b) == Some(currentPage))
    ensures table.showing ==
      if table.pageButtons.Some? && old(table.showing).Some? then Some(PageLabel(currentPage, totalPages))
      else old(table.showing)
  {
    if table.pageButtons.None? {
      return;
    }
    MarkButtons(table.pageButtons.value, currentPage);
    if table.showing.Some? {
      table.showing := Some(PageLabel(currentPage, totalPages));
    }
  }

  /** `goToPage(tableId, page)`: exactly the rows of that page are visible,
      whatever a search had shown, then the pagination is updated. */
  method GoToPage(table: DataTable?, page: int)
    requires table != null ==> table.Valid()
    modifies table, if table != null then {table.shown} else {}
    modifies if table != null && table.pageButtons.Some? then set b | b in table.pageButtons.value else {}
    ensures table != null ==> table.shown[..] == PageMask(|table.rows|, page)
    ensures table != null && table.pageButtons.Some? ==> forall b :: b in table.pageButtons.value ==>
      b.classes == MarkActive(old(b.classes), ButtonPage(b) == Some(page))
    ensures table != null ==> (table.showing ==
      if table.pageButtons.Some? && old(table.showing).Some? then Some(PageLabel(page, TotalPages(|table.rows|)))
      else old(table.showing))
  {
    if table == null {
      return;
    }
    var a := table.shown;
    var i := 0;
    while i < a.Length
      modifies a
      invariant 0 <= i <= a.Length
      invariant a[..i] == PageMask(a.Length, page)[..i]
    {
      a[i] := OnPage(i, page);
      i := i + 1;
    }
    assert a[..] == a[..i];
    UpdatePaginationUI(table, page, TotalPages(|table.rows|));
  }
}
