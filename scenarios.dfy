/**
 * Worked examples on a three-record inventory: shelf filter, search,
 * sort, and printing with nothing selected.
 */
module Scenarios {
  import opened Wrappers
  import opened Text
  import opened Sorting
  import opened Inventory
  import opened View
  import opened Labels
  import opened Session

  /** Boxes A1 and A3 on shelf S1, box B2 on shelf S2; nothing selected. */
  function Sample(): (all: seq<Record>)
    ensures Dense(all) && NoneSelected(all)
  {
    [Record(0, "A1", "S1", false), Record(1, "B2", "S2", false), Record(2, "A3", "S1", false)]
  }

  /** Choosing shelf S1 shows A1 and A3, in load order. */
  lemma ShelfScenario()
    ensures FilterView(Sample(), [], "S1") == [0, 2]
  {
  }

  /** The sort keys of A1 and A3 are their lower-cased boxes. */
  lemma SortKeyScenario()
    ensures SortKey(Sample(), Box)(0) == "a1" && SortKey(Sample(), Box)(2) == "a3"
  {
    assert Lower("A1") == "a1" && Lower("A3") == "a3";
  }

  /** Sorting that view by box, ascending, keeps A1 before A3. */
  lemma SortScenario()
    ensures var view: seq<nat> := [0, 2]; SortBy(view, SortKey(Sample(), Box), Asc) == view
  {
    var view: seq<nat> := [0, 2];
    var key := SortKey(Sample(), Box);
    SortKeyScenario();
    assert Compare(key(2), key(0), Asc) > 0 by {
      assert LexLess("a1", "a3");
    }
    assert view[1..] == [2];
    assert SortBy(view[1..], key, Asc) == [2];
  }

  /** Lower-casing and trimming leave the search text "b2" as it is. */
  lemma SearchTermScenario()
    ensures SearchTerm("b2") == "b2"
  {
    assert Lower("b2") == "b2";
    assert LeadingSpaces("b2") == 0 && TrailingSpaces("b2") == 0;
  }

  /** Of the three records, only B2 holds "b2" in its box or shelf. */
  lemma MatchScenario()
    ensures var all := Sample();
            !Matches(all[0], "b2", []) && Matches(all[1], "b2", []) && !Matches(all[2], "b2", [])
  {
    assert Lower("A1") == "a1" && Lower("S1") == "s1" && Lower("A3") == "a3";
    assert Lower("B2") == "b2";
    ContainsSameLength("a1", "b2");
    ContainsSameLength("s1", "b2");
    ContainsSameLength("a3", "b2");
    assert IsPrefix("b2", "b2");
  }

  /** Searching for "b2" finds box B2 only, whatever the case. */
  lemma SearchScenario()
    ensures FilterView(Sample(), SearchTerm("b2"), []) == [1]
  {
    SearchTermScenario();
    MatchScenario();
    var all := Sample();
    assert all[..2][..1] == all[..1] && all[..3] == all;
  }

  /** With nothing selected, printing stops with the empty-selection notice. */
  lemma EmptySelectionScenario()
    ensures MakeLabels(Sample()) == Err(EmptySelection)
  {
  }

  /** The spreadsheet rows behind `Sample`. */
  function SampleRows(): (rows: seq<Row>)
    ensures MapRows(rows) == Sample()
  {
    var rows := [[Some("A1"), Some("S1")], [Some("B2"), Some("S2")], [Some("A3"), Some("S1")]];
    assert MapRows(rows)[0] == Sample()[0] && MapRows(rows)[1] == Sample()[1] && MapRows(rows)[2] == Sample()[2];
    rows
  }

  /** A JSON parser that reads every response as the sample rows. */
  function SampleParse(body: string): Option<seq<Row>> {
    Some(SampleRows())
  }

  /**
   * A session on the sample: choosing shelf S1 shows A1 and A3; ticking A3
   * selects it alone and leaves the view as it was.
   */
  method TickScenario(text: string) {
    var session := new InventorySession();
    var ok := session.Load(text, SampleParse);
    assert session.allData == Sample();
    assert SearchTerm("") == [];
    session.ApplyFilters("", "S1");
    ShelfScenario();
    assert session.filteredData == [0, 2];
    session.HandleRowCheckbox(2, true);
    assert session.filteredData == [0, 2];
    assert session.allData[2].selected;
    assert !session.allData[0].selected && !session.allData[1].selected;
  }

  /**
   * Selecting every shown record and then deselecting them clears the whole
   * list, records outside the view included.
   */
  method BulkScenario(text: string) {
    var session := new InventorySession();
    var ok := session.Load(text, SampleParse);
    assert session.allData == Sample();
    session.ApplyFilters("", "S1");
    session.HandleRowCheckbox(1, true);
    session.SelectAll(true);
    session.SelectAll(false);
    assert NoneSelected(session.allData);
  }
}
