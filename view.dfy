/**
 * The filtered view of applyFilters and the sort keys of handleSort. A view
 * is a sequence of record ids: it refers to the records of the full list
 * and holds no selection state of its own.
 */
module View {
  import opened Text
  import opened Seqs
  import opened Inventory

  /** Every id in the view names a record of a list of `n` records. */
  predicate InRange(view: seq<nat>, n: nat) {
    forall k :: 0 <= k < |view| ==> view[k] < n
  }

  /** The ids `0 .. n-1` in order: the view right after loading. */
  function AllIds(n: nat): (ids: seq<nat>)
    ensures |ids| == n && forall i :: 0 <= i < n ==> ids[i] == i
  {
    seq(n, i => i)
  }

  /** applyFilters' search term: `searchInput.value.toLowerCase().trim()`. */
  function SearchTerm(raw: string): (term: string)
    ensures term == [] || (!IsTrimSpace(term[0]) && !IsTrimSpace(term[|term| - 1]))
    ensures forall i :: 0 <= i < |term| ==> !IsUpper(term[i])
  {
    TrimNoUpper(Lower(raw));
    Trim(Lower(raw))
  }

  /** The search test: an empty term, or the term inside the lower-cased box or shelf. */
  predicate MatchesSearch(r: Record, term: string) {
    term == [] || Contains(Lower(r.box), term) || Contains(Lower(r.shelf), term)
  }

  /** The shelf test: no shelf chosen, or exactly the chosen shelf. */
  predicate MatchesShelf(r: Record, shelf: string) {
    shelf == [] || r.shelf == shelf
  }

  predicate Matches(r: Record, term: string, shelf: string) {
    MatchesSearch(r, term) && MatchesShelf(r, shelf)
  }

  /** `allData.filter(...)` in applyFilters, as the ids of the records kept. */
  function FilterView(all: seq<Record>, term: string, shelf: string): (view: seq<nat>)
    ensures |view| <= |all|
  {
    if all == [] then []
    else
      var last := all[|all| - 1];
      FilterView(all[..|all| - 1], term, shelf) + if Matches(last, term, shelf) then [last.id] else []
  }

  /**
   * The view holds exactly the matching records, each once, in load order.
   */
  lemma FilterViewSpec(all: seq<Record>, term: string, shelf: string)
    requires Dense(all)
    ensures var view := FilterView(all, term, shelf);
            && StrictlyIncreasing(view)
            && InRange(view, |all|)
            && (forall k :: 0 <= k < |view| ==> Matches(all[view[k]], term, shelf))
            && (forall i :: 0 <= i < |all| ==> (i in view <==> Matches(all[i], term, shelf)))
  {
    FilterViewOrdered(all, term, shelf);
    FilterViewMatches(all, term, shelf);
    FilterViewMembers(all, term, shelf);
  }

  /** The view lists ids of the list in increasing order. */
  lemma {:induction false} FilterViewOrdered(all: seq<Record>, term: string, shelf: string)
    requires Dense(all)
    ensures StrictlyIncreasing(FilterView(all, term, shelf))
    ensures InRange(FilterView(all, term, shelf), |all|)
  {
    if all != [] {
      var n := |all| - 1;
      FilterViewOrdered(all[..n], term, shelf);
      var p := FilterView(all[..n], term, shelf);
      assert all[n].id == n;
      assert forall k :: 0 <= k < |p| ==> p[k] < n;
    }
  }

  /** Every id in the view names a matching record. */
  lemma {:induction false} FilterViewMatches(all: seq<Record>, term: string, shelf: string)
    requires Dense(all)
    ensures InRange(FilterView(all, term, shelf), |all|)
    ensures forall k :: 0 <= k < |FilterView(all, term, shelf)| ==>
              Matches(all[FilterView(all, term, shelf)[k]], term, shelf)
  {
    if all != [] {
      var n := |all| - 1;
      var prefix := all[..n];
      FilterViewMatches(prefix, term, shelf);
      var p := FilterView(prefix, term, shelf);
      var view := FilterView(all, term, shelf);
      assert all[n].id == n;
      assert view == p + if Matches(all[n], term, shelf) then [n] else [];
      forall k | 0 <= k < |view|
        ensures view[k] < |all| && Matches(all[view[k]], term, shelf)
      {
        if k < |p| {
          assert view[k] == p[k] && prefix[p[k]] == all[p[k]];
          assert Matches(prefix[p[k]], term, shelf);
        } else {
          assert view[k] == n && Matches(all[n], term, shelf);
        }
      }
    }
  }

  /** An id is in the view exactly when its record matches. */
  lemma {:induction false} FilterViewMembers(all: seq<Record>, term: string, shelf: string)
    requires Dense(all)
    ensures forall i :: 0 <= i < |all| ==> (i in FilterView(all, term, shelf) <==> Matches(all[i], term, shelf))
  {
    if all != [] {
      var n := |all| - 1;
      var prefix := all[..n];
      FilterViewMembers(prefix, term, shelf);
      FilterViewOrdered(prefix, term, shelf);
      var p := FilterView(prefix, term, shelf);
      assert n !in p by {
        assert InRange(p, n);
      }
      assert all[n].id == n;
      forall i | 0 <= i < |all|
        ensures i in FilterView(all, term, shelf) <==> Matches(all[i], term, shelf)
      {
        if i < n {
          assert prefix[i] == all[i];
        }
      }
    }
  }

  /** Corollary: the view is duplicate-free and names only existing records. */
  lemma FilterViewWellFormed(all: seq<Record>, term: string, shelf: string)
    requires Dense(all)
    ensures NoDup(FilterView(all, term, shelf)) && InRange(FilterView(all, term, shelf), |all|)
  {
    FilterViewSpec(all, term, shelf);
    IncreasingNoDup(FilterView(all, term, shelf));
  }

  /** Reordering a view keeps its ids in range. */
  lemma InRangePermutation(view: seq<nat>, view': seq<nat>, n: nat)
    requires InRange(view, n) && multiset(view') == multiset(view)
    ensures InRange(view', n)
  {
    forall k | 0 <= k < |view'| ensures view'[k] < n {
      assert view'[k] in multiset(view);
      var j :| 0 <= j < |view| && view[j] == view'[k];
    }
  }

  /** A view with the same ids as a filter result holds each id once. */
  lemma ViewNoDup(all: seq<Record>, view: seq<nat>, term: string, shelf: string)
    requires Dense(all) && multiset(view) == multiset(FilterView(all, term, shelf))
    ensures NoDup(view)
  {
    FilterViewWellFormed(all, term, shelf);
  }

  /** With an empty search box and no shelf chosen, the view is the whole list in load order. */
  lemma {:induction false} FilterViewUnfiltered(all: seq<Record>)
    requires Dense(all)
    ensures FilterView(all, [], []) == AllIds(|all|)
  {
    if all != [] {
      var n := |all| - 1;
      FilterViewUnfiltered(all[..n]);
      assert AllIds(n + 1) == AllIds(n) + [n];
    }
  }

  /** Filtering looks only at box and shelf: selection flags do not change the view. */
  lemma {:induction false} FilterIgnoresSelection(all: seq<Record>, all': seq<Record>, term: string, shelf: string)
    requires SameItems(all, all')
    ensures FilterView(all, term, shelf) == FilterView(all', term, shelf)
  {
    if all != [] {
      var n := |all| - 1;
      FilterIgnoresSelection(all[..n], all'[..n], term, shelf);
    }
  }

  /** handleSort's key: `a[column].toString().toLowerCase()` for the record with id `a`. */
  function SortKey(all: seq<Record>, column: Column): nat -> string {
    (id: nat) => if id < |all| then Lower(Field(all[id], column)) else []
  }
}
