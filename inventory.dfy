/**
 * Records and how they are loaded: unwrapping the spreadsheet response,
 * turning each row into a record, and the list of shelves offered by the
 * shelf filter.
 */
module Inventory {
  import opened Wrappers
  import opened Text
  import opened Seqs
  import opened Sorting

  /** One inventory item; `id` is its position in load order. */
  datatype Record = Record(id: nat, box: string, shelf: string, selected: bool)

  /**
   * One spreadsheet row: the value `v` of each cell, `None` where the cell
   * is null or carries no value.
   */
  type Row = seq<Option<string>>

  /** The two sortable columns of the table. */
  datatype Column = Box | Shelf

  function Field(r: Record, c: Column): string {
    match c
    case Box => r.box
    case Shelf => r.shelf
  }

  /** Ids are dense: the record at position `i` has id `i`. */
  predicate Dense(all: seq<Record>) {
    forall i :: 0 <= i < |all| ==> all[i].id == i
  }

  /** No record is selected. */
  predicate NoneSelected(all: seq<Record>) {
    forall i :: 0 <= i < |all| ==> !all[i].selected
  }

  /** The two records are the same item; only their selection flags may differ. */
  predicate SameItem(a: Record, b: Record) {
    a.id == b.id && a.box == b.box && a.shelf == b.shelf
  }

  predicate SameItems(all: seq<Record>, all': seq<Record>) {
    |all| == |all'| && forall i :: 0 <= i < |all| ==> SameItem(all[i], all'[i])
  }

  /** The number of characters the response carries before its JSON body. */
  const PrefixLength: nat := 47
  /** The number of characters the response carries after its JSON body. */
  const SuffixLength: nat := 2

  /** The framing the spreadsheet's query endpoint puts around its JSON. */
  const ResponsePrefix: string := "/*O_o*/\ngoogle.visualization.Query.setResponse("
  const ResponseSuffix: string := ");"

  /**
   * `text.substring(47).slice(0, -2)`: drops the first 47 and the last 2
   * characters; a text too short for both yields the empty string.
   */
  function Unwrap(text: string): (body: string)
    ensures |text| >= PrefixLength + SuffixLength ==>
              text == text[..PrefixLength] + body + text[|text| - SuffixLength..]
    ensures |text| < PrefixLength + SuffixLength ==> body == []
  {
    var tail := if |text| <= PrefixLength then [] else text[PrefixLength..];
    if |tail| <= SuffixLength then [] else tail[..|tail| - SuffixLength]
  }

  /** Unwrapping recovers the body of any response framed as the endpoint frames it. */
  lemma UnwrapResponse(body: string)
    ensures Unwrap(ResponsePrefix + body + ResponseSuffix) == body
  {
    var text := ResponsePrefix + body + ResponseSuffix;
    assert |ResponsePrefix| == PrefixLength;
    assert text[PrefixLength..] == body + ResponseSuffix;
  }

  /** `row.c[k]?.v || ''`: the cell's text, or the empty string when it is missing. */
  function CellText(row: Row, k: nat): (t: string)
    ensures k < |row| && row[k].Some? ==> t == row[k].value
    ensures !(k < |row| && row[k].Some?) ==> t == []
  {
    if k < |row| then
      match row[k]
      case Some(v) => v
      case None => []
    else []
  }

  /**
   * The mapping of loadData: one unselected record per row, numbered in
   * row order, box from column 0 and shelf from column 1.
   */
  function MapRows(rows: seq<Row>): (all: seq<Record>)
    ensures |all| == |rows| && Dense(all) && NoneSelected(all)
    ensures forall i :: 0 <= i < |all| ==>
              all[i].box == CellText(rows[i], 0) && all[i].shelf == CellText(rows[i], 1)
  {
    seq(|rows|, i requires 0 <= i < |rows| => Record(i, CellText(rows[i], 0), CellText(rows[i], 1), false))
  }

  /** `allData.map(item => item.shelf)`. */
  function Shelves(all: seq<Record>): (s: seq<string>)
    ensures |s| == |all| && forall i :: 0 <= i < |s| ==> s[i] == all[i].shelf
  {
    seq(|all|, i requires 0 <= i < |all| => all[i].shelf)
  }

  /** `[...new Set(s)]`: each value once, at its first occurrence. */
  function Dedup(s: seq<string>): (r: seq<string>)
    ensures forall x :: x in r <==> x in s
    ensures NoDup(r)
  {
    if s == [] then []
    else
      var p := Dedup(s[..|s| - 1]);
      var x := s[|s| - 1];
      assert s == s[..|s| - 1] + [x];
      if x in p then p
      else
        assert multiset(p)[x] == 0;
        p + [x]
  }

  /** `.filter(Boolean)` on strings: drops the empty ones. */
  function NonEmpty(s: seq<string>): (r: seq<string>)
    ensures forall x :: x in r <==> x in s && x != []
    ensures multiset(r) <= multiset(s)
  {
    if s == [] then []
    else
      var p := s[..|s| - 1];
      var x := s[|s| - 1];
      assert s == p + [x];
      NonEmpty(p) + if x != [] then [x] else []
  }

  /** The identity key: the default `sort()` compares the strings themselves. */
  function AsKey(s: string): string { s }

  /**
   * populateShelfFilter's option list: every non-empty shelf value of the
   * records exactly once, in ascending string order, and nothing else.
   */
  function ShelfOptions(all: seq<Record>): (opts: seq<string>)
    ensures forall x :: x in opts <==> x != [] && x in Shelves(all)
    ensures forall i, j :: 0 <= i < j < |opts| ==> LexLess(opts[i], opts[j])
  {
    var candidates := NonEmpty(Dedup(Shelves(all)));
    var opts := SortBy(candidates, AsKey, Asc);
    SortedPermutationOfSet(candidates, opts);
    opts
  }

  lemma SortedPermutationOfSet(candidates: seq<string>, opts: seq<string>)
    requires NoDup(candidates)
    requires multiset(opts) == multiset(candidates) && Sorted(opts, AsKey, Asc)
    ensures forall x :: x in opts <==> x in candidates
    ensures forall i, j :: 0 <= i < j < |opts| ==> LexLess(opts[i], opts[j])
  {
    assert forall x :: x in opts <==> x in multiset(opts);
    assert forall x :: x in candidates <==> x in multiset(candidates);
    assert NoDup(opts);
    NoDupDistinct(opts);
    forall i, j | 0 <= i < j < |opts| ensures LexLess(opts[i], opts[j]) {
      assert Compare(AsKey(opts[i]), AsKey(opts[j]), Asc) <= 0;
    }
  }
}
