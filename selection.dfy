/**
 * Selection state as the page reads it: finding a record by id, the
 * selected records, the tri-state header checkbox and the counters.
 * The selection lives on the records of the full list only.
 */
module Selection {
  import opened Wrappers
  import opened Seqs
  import opened Inventory
  import opened View

  /** `allData.find(item => item.id === id)`, as the position of the first record with that id. */
  function Find(all: seq<Record>, id: int): (r: Option<nat>)
    ensures r.Some? ==> r.value < |all| && all[r.value].id == id
                        && forall j :: 0 <= j < r.value ==> all[j].id != id
    ensures r.None? ==> forall j :: 0 <= j < |all| ==> all[j].id != id
  {
    if all == [] then None
    else if all[0].id == id then Some(0)
    else
      match Find(all[1..], id)
      case Some(k) => Some(k + 1)
      case None => None
  }

  /** With dense ids, the record with id `id` sits at position `id`, and ids outside the list are not found. */
  lemma FindDense(all: seq<Record>, id: int)
    requires Dense(all)
    ensures Find(all, id) == if 0 <= id < |all| then Some(id) else None
  {
    if 0 <= id < |all| {
      assert all[id].id == id;
    }
    if Find(all, id).Some? {
      assert all[Find(all, id).value].id == Find(all, id).value;
    }
  }

  /** `allData.filter(item => item.selected)`. */
  function SelectedRecords(all: seq<Record>): (sel: seq<Record>)
    ensures |sel| <= |all|
    ensures forall k :: 0 <= k < |sel| ==> sel[k].selected
  {
    if all == [] then []
    else
      var last := all[|all| - 1];
      SelectedRecords(all[..|all| - 1]) + if last.selected then [last] else []
  }

  /**
   * With dense ids, the selected records are exactly the records of the
   * list whose flag is set, each once, in increasing id order.
   */
  lemma SelectedRecordsSpec(all: seq<Record>)
    requires Dense(all)
    ensures var sel := SelectedRecords(all);
            && (forall k :: 0 <= k < |sel| ==> sel[k].id < |all| && sel[k] == all[sel[k].id])
            && (forall k1, k2 :: 0 <= k1 < k2 < |sel| ==> sel[k1].id < sel[k2].id)
            && (forall i :: 0 <= i < |all| ==> (all[i] in sel <==> all[i].selected))
  {
    SelectedRecordsFromList(all);
    SelectedRecordsIncreasing(all);
    SelectedRecordsMembers(all);
  }

  /** Each selected record is the record of the list at its own id. */
  lemma {:induction false} SelectedRecordsFromList(all: seq<Record>)
    requires Dense(all)
    ensures forall k :: 0 <= k < |SelectedRecords(all)| ==>
              SelectedRecords(all)[k].id < |all| && SelectedRecords(all)[k] == all[SelectedRecords(all)[k].id]
  {
    if all != [] {
      var n := |all| - 1;
      var prefix := all[..n];
      SelectedRecordsFromList(prefix);
      var p := SelectedRecords(prefix);
      var sel := SelectedRecords(all);
      assert all[n].id == n;
      assert sel == p + if all[n].selected then [all[n]] else [];
      forall k | 0 <= k < |sel|
        ensures sel[k].id < |all| && sel[k] == all[sel[k].id]
      {
        if k < |p| {
          assert sel[k] == p[k] && prefix[p[k].id] == all[p[k].id];
        }
      }
    }
  }

  /** The selected records come in increasing id order. */
  lemma {:induction false} SelectedRecordsIncreasing(all: seq<Record>)
    requires Dense(all)
    ensures forall k1, k2 :: 0 <= k1 < k2 < |SelectedRecords(all)| ==>
              SelectedRecords(all)[k1].id < SelectedRecords(all)[k2].id
  {
    if all != [] {
      var n := |all| - 1;
      var prefix := all[..n];
      SelectedRecordsIncreasing(prefix);
      SelectedRecordsFromList(prefix);
      var p := SelectedRecords(prefix);
      assert all[n].id == n;
      assert forall k :: 0 <= k < |p| ==> p[k].id < n;
    }
  }

  /** A record of the list is among the selected records exactly when its flag is set. */
  lemma {:induction false} SelectedRecordsMembers(all: seq<Record>)
    requires Dense(all)
    ensures forall i :: 0 <= i < |all| ==> (all[i] in SelectedRecords(all) <==> all[i].selected)
  {
    if all != [] {
      var n := |all| - 1;
      var prefix := all[..n];
      SelectedRecordsMembers(prefix);
      SelectedRecordsFromList(prefix);
      var p := SelectedRecords(prefix);
      assert all[n].id == n;
      assert all[n] !in p by {
        assert forall k :: 0 <= k < |p| ==> p[k].id < n;
      }
      forall i | 0 <= i < |all|
        ensures all[i] in SelectedRecords(all) <==> all[i].selected
      {
        if i < n {
          assert prefix[i] == all[i];
        }
      }
    }
  }

  /** The selection is empty exactly when no record is selected. */
  lemma {:induction false} NoSelectedRecords(all: seq<Record>)
    ensures SelectedRecords(all) == [] <==> NoneSelected(all)
  {
    if all != [] {
      NoSelectedRecords(all[..|all| - 1]);
    }
  }

  /** All records are selected exactly when the selection is as long as the list. */
  lemma {:induction false} AllSelectedRecords(rs: seq<Record>)
    ensures |SelectedRecords(rs)| == |rs| <==> forall k :: 0 <= k < |rs| ==> rs[k].selected
  {
    if rs != [] {
      AllSelectedRecords(rs[..|rs| - 1]);
    }
  }

  /** After a bulk operation: a record is selected iff the operation selects (`on`) and its id is in the view. */
  predicate SelectionIs(all: seq<Record>, view: seq<nat>, on: bool) {
    forall i :: 0 <= i < |all| ==> (all[i].selected <==> on && i in view)
  }

  /**
   * After a bulk selection that marks exactly the view, the selected
   * records are the view's records: as many as the view has entries.
   */
  lemma BulkSelectionCount(all: seq<Record>, view: seq<nat>)
    requires Dense(all) && InRange(view, |all|) && NoDup(view)
    requires SelectionIs(all, view, true)
    ensures |SelectedRecords(all)| == |view|
    ensures forall k :: 0 <= k < |SelectedRecords(all)| ==> SelectedRecords(all)[k].id in view
  {
    var sel := SelectedRecords(all);
    SelectedRecordsSpec(all);
    var ids := seq(|sel|, k requires 0 <= k < |sel| => sel[k].id);
    assert StrictlyIncreasing(ids);
    IncreasingNoDup(ids);
    forall x ensures x in ids <==> x in view {
      if x in view {
        assert all[x] in sel;
        var k :| 0 <= k < |sel| && sel[k] == all[x];
        assert ids[k] == x;
      }
    }
    SameMembersPerm(ids, view);
  }

  /** The records the view shows, fetched from the full list by id. */
  function Visible(all: seq<Record>, view: seq<nat>): (vis: seq<Record>)
    requires InRange(view, |all|)
    ensures |vis| == |view| && forall k :: 0 <= k < |vis| ==> vis[k] == all[view[k]]
  {
    seq(|view|, k requires 0 <= k < |view| => all[view[k]])
  }

  /** The header checkbox: `checked` and `indeterminate`. */
  datatype HeaderBox = HeaderBox(checked: bool, indeterminate: bool)

  /**
   * updateHeaderCheckbox: checked when the view is non-empty and all of it
   * is selected, indeterminate when some but not all of it is.
   */
  function Header(all: seq<Record>, view: seq<nat>): (h: HeaderBox)
    requires InRange(view, |all|)
    ensures !(h.checked && h.indeterminate)
  {
    var vis := Visible(all, view);
    var allSelected := |vis| > 0 && forall k :: 0 <= k < |vis| ==> vis[k].selected;
    var someSelected := exists k :: 0 <= k < |vis| && vis[k].selected;
    HeaderBox(allSelected, someSelected && !allSelected)
  }

  /**
   * The header in terms of how many visible records are selected: checked
   * iff all of a non-empty view, indeterminate iff some but not all.
   */
  lemma HeaderByCount(all: seq<Record>, view: seq<nat>)
    requires InRange(view, |all|)
    ensures var n := |SelectedRecords(Visible(all, view))|;
            && (Header(all, view).checked <==> 0 < n == |view|)
            && (Header(all, view).indeterminate <==> 0 < n < |view|)
  {
    var vis := Visible(all, view);
    AllSelectedRecords(vis);
    NoSelectedRecords(vis);
  }

  /** updateStats' three counters. */
  datatype Counters = Counters(total: nat, selected: nat, filtered: nat)

  function Stats(all: seq<Record>, view: seq<nat>): (c: Counters)
    ensures c.selected <= c.total
    ensures c.selected == 0 <==> NoneSelected(all)
  {
    NoSelectedRecords(all);
    Counters(|all|, |SelectedRecords(all)|, |view|)
  }
}
