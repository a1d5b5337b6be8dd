/**
 * The page's module-level state and the handlers that change it:
 * `allData`, `filteredData`, `sortColumn` and `sortDirection`, with
 * loadData, applyFilters, handleSort, handleRowCheckbox, selectAll,
 * toggleAllCheckboxes and printLabels.
 */
module Session {
  import opened Wrappers
  import opened Seqs
  import opened Sorting
  import opened Inventory
  import opened View
  import opened Selection
  import opened Labels

  class InventorySession {
    /** The full record list, in load order. */
    var allData: seq<Record>
    /** The view: the ids of the shown records, in display order. */
    var filteredData: seq<nat>
    var sortColumn: Option<Column>
    var sortDirection: Direction
    /** The search term and the shelf the view was last filtered with. */
    ghost var term: string
    ghost var shelf: string

    /**
     * Ids are dense, and the view holds the records that match the last
     * filter, in load order or re-sorted; each exactly once, as
     * `ViewNoDup` shows.
     */
    ghost predicate Valid()
      reads this
    {
      && Dense(allData)
      && InRange(filteredData, |allData|)
      && multiset(filteredData) == multiset(FilterView(allData, term, shelf))
    }

    /** The state before loading: no records, no sort column, ascending. */
    constructor ()
      ensures Valid()
      ensures allData == [] && filteredData == []
      ensures sortColumn == None && sortDirection == Asc
    {
      allData := [];
      filteredData := [];
      sortColumn := None;
      sortDirection := Asc;
      term := [];
      shelf := [];
    }

    /**
     * loadData: unwraps the response text, hands it to the JSON parser
     * `parse` (which yields the rows, or `None` on a parse failure) and
     * replaces the record list with one unselected record per row; the view
     * becomes the whole list in load order. On failure nothing changes.
     */
    method Load(text: string, parse: string -> Option<seq<Row>>) returns (ok: bool)
      requires Valid()
      modifies this`allData, this`filteredData, this`term, this`shelf
      ensures Valid()
      ensures ok == parse(Unwrap(text)).Some?
      ensures ok ==> allData == MapRows(parse(Unwrap(text)).value)
      ensures ok ==> filteredData == AllIds(|allData|) && NoneSelected(allData)
      ensures !ok ==> allData == old(allData) && filteredData == old(filteredData)
    {
      match parse(Unwrap(text))
      case None =>
        ok := false;
      case Some(rows) =>
        var records := MapRows(rows);
        FilterViewUnfiltered(records);
        allData, filteredData := records, AllIds(|records|);
        term, shelf := [], [];
        ok := true;
    }

    /**
     * applyFilters: the view becomes the records matching the search box
     * and the shelf filter, in load order. The sort column and direction
     * keep their values although the view is no longer sorted.
     */
    method ApplyFilters(search: string, selectedShelf: string)
      requires Valid()
      modifies this`filteredData, this`term, this`shelf
      ensures Valid()
      ensures filteredData == FilterView(allData, SearchTerm(search), selectedShelf)
    {
      var searchTerm := SearchTerm(search);
      filteredData := FilterView(allData, searchTerm, selectedShelf);
      term, shelf := searchTerm, selectedShelf;
      FilterViewWellFormed(allData, term, shelf);
    }

    /**
     * handleSort: clicking the current column flips the direction, another
     * column becomes the sort column in ascending order; then the view is
     * stably sorted by the lower-cased column text. No record changes.
     */
    method HandleSort(column: Column)
      requires Valid()
      modifies this`sortColumn, this`sortDirection, this`filteredData
      ensures Valid()
      ensures sortColumn == Some(column)
      ensures sortDirection == if old(sortColumn) == Some(column) then Flip(old(sortDirection)) else Asc
      ensures filteredData == SortBy(old(filteredData), SortKey(allData, column), sortDirection)
      ensures multiset(filteredData) == multiset(old(filteredData))
      ensures Sorted(filteredData, SortKey(allData, column), sortDirection)
    {
      if sortColumn == Some(column) {
        sortDirection := Flip(sortDirection);
      } else {
        sortColumn := Some(column);
        sortDirection := Asc;
      }
      SortView(column, sortDirection);
    }

    /**
     * The comparator sort of handleSort: the view, stably sorted by the
     * lower-cased text of `column` in direction `dir`.
     */
    method SortView(column: Column, dir: Direction)
      requires Valid()
      modifies this`filteredData
      ensures Valid()
      ensures filteredData == SortBy(old(filteredData), SortKey(allData, column), dir)
      ensures multiset(filteredData) == multiset(old(filteredData))
      ensures Sorted(filteredData, SortKey(allData, column), dir)
    {
      Reorder(SortBy(filteredData, SortKey(allData, column), dir));
    }

    /** Replaces the view by a reordering of itself. */
    method Reorder(view: seq<nat>)
      requires Valid() && multiset(view) == multiset(filteredData)
      modifies this`filteredData
      ensures Valid() && filteredData == view
    {
      InRangePermutation(filteredData, view, |allData|);
      filteredData := view;
    }

    /**
     * handleRowCheckbox: the record with the checkbox's id takes the
     * checkbox's value; every other record, and the view, stay as they were.
     * An id that names no record changes nothing.
     */
    method HandleRowCheckbox(id: int, checked: bool)
      requires Valid()
      modifies this`allData
      ensures Valid()
      ensures |allData| == |old(allData)|
      ensures forall i :: 0 <= i < |allData| ==>
                allData[i] == if i == id then old(allData[i]).(selected := checked) else old(allData[i])
    {
      var found := Find(allData, id);
      FindDense(allData, id);
      if found.Some? {
        var before := allData;
        allData := allData[found.value := allData[found.value].(selected := checked)];
        FilterIgnoresSelection(before, allData, term, shelf);
      }
    }

    /**
     * selectAll: first clears the selection of every record, shown or not;
     * then, when `selected`, selects every record of the view.
     */
    method SelectAll(selected: bool)
      requires Valid()
      modifies this`allData
      ensures Valid()
      ensures |allData| == |old(allData)|
      ensures forall i :: 0 <= i < |allData| ==>
                allData[i] == old(allData[i]).(selected := selected && i in filteredData)
      ensures Stats(allData, filteredData).selected == if selected then |filteredData| else 0
      ensures Header(allData, filteredData) == HeaderBox(selected && filteredData != [], false)
    {
      ClearSelection();
      if selected {
        SelectView();
      }
      ViewNoDup(allData, filteredData, term, shelf);
      BulkSelectionOutcome(allData, filteredData, selected);
    }

    /** selectAll's first pass: every record, shown or not, is deselected. */
    method ClearSelection()
      requires Valid()
      modifies this`allData
      ensures Valid() && NoneSelected(allData)
      ensures |allData| == |old(allData)|
      ensures forall i :: 0 <= i < |allData| ==> allData[i] == old(allData[i]).(selected := false)
    {
      var records := allData;
      var i := 0;
      while i < |records|
        modifies {}
        invariant 0 <= i <= |records| == |allData|
        invariant forall j :: 0 <= j < i ==> records[j] == allData[j].(selected := false)
        invariant forall j :: i <= j < |records| ==> records[j] == allData[j]
      {
        records := records[i := records[i].(selected := false)];
        i := i + 1;
      }
      SetRecords(records);
    }

    /** selectAll's second pass: the record of every id in the view is selected. */
    method SelectView()
      requires Valid()
      modifies this`allData
      ensures Valid()
      ensures |allData| == |old(allData)|
      ensures forall i :: 0 <= i < |allData| ==>
                allData[i] == old(allData[i]).(selected := old(allData[i]).selected || i in filteredData)
    {
      var all, view := allData, filteredData;
      var records := all;
      var k := 0;
      assert view[..0] == [];
      while k < |view|
        modifies {}
        invariant 0 <= k <= |view|
        invariant records == Marked(all, view[..k])
      {
        var found := Find(records, view[k]);
        FindDense(records, view[k]);
        if found.Some? {
          records := records[found.value := records[found.value].(selected := true)];
        }
        MarkedStep(all, view[..k], view[k]);
        assert view[..k + 1] == view[..k] + [view[k]];
        k := k + 1;
      }
      assert view[..k] == view;
      SetRecords(records);
    }

    /** Replaces the records by ones that differ at most in their selection. */
    method SetRecords(records: seq<Record>)
      requires Valid() && SameItems(allData, records)
      modifies this`allData
      ensures Valid() && allData == records
    {
      FilterIgnoresSelection(allData, records, term, shelf);
      allData := records;
    }

    /**
     * toggleAllCheckboxes: the header checkbox does what selectAll does with
     * its new checked value.
     */
    method ToggleAllCheckboxes(checked: bool)
      requires Valid()
      modifies this`allData
      ensures Valid()
      ensures |allData| == |old(allData)|
      ensures forall i :: 0 <= i < |allData| ==>
                allData[i] == old(allData[i]).(selected := checked && i in filteredData)
    {
      SelectAll(checked);
    }

    /**
     * printLabels: the labels of the selected records, or the empty
     * selection error; the state is left as it is.
     */
    method PrintLabels() returns (r: Result<seq<Label>, PrintError>)
      requires Valid()
      ensures r == MakeLabels(allData)
      ensures r.Err? <==> Stats(allData, filteredData).selected == 0
    {
      r := MakeLabels(allData);
    }
  }

  /** The records with, in addition, every record whose id is in `ids` selected. */
  function Marked(all: seq<Record>, ids: seq<nat>): (r: seq<Record>)
    ensures SameItems(all, r) && (Dense(all) ==> Dense(r))
    ensures forall j :: 0 <= j < |all| ==> r[j] == all[j].(selected := all[j].selected || j in ids)
  {
    seq(|all|, j requires 0 <= j < |all| => all[j].(selected := all[j].selected || j in ids))
  }

  /** Marking one more id selects the record at that position and nothing else. */
  lemma MarkedStep(all: seq<Record>, ids: seq<nat>, id: nat)
    requires id < |all|
    ensures var m := Marked(all, ids);
            Marked(all, ids + [id]) == m[id := m[id].(selected := true)]
  {
  }

  /** The counters and header checkbox after a bulk selection of the view. */
  lemma BulkSelectionOutcome(all: seq<Record>, view: seq<nat>, on: bool)
    requires Dense(all) && InRange(view, |all|) && NoDup(view)
    requires SelectionIs(all, view, on)
    ensures Stats(all, view).selected == if on then |view| else 0
    ensures Header(all, view) == HeaderBox(on && view != [], false)
  {
    var vis := Visible(all, view);
    if on {
      BulkSelectionCount(all, view);
    } else {
      NoSelectedRecords(all);
    }
    HeaderByCount(all, view);
    AllSelectedRecords(vis);
    NoSelectedRecords(vis);
    if !on && view != [] {
      assert !vis[0].selected;
    }
  }
}
