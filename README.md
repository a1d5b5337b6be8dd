# ShelfLabel inventory session, modelled in Dafny

ShelfLabel is a single-page tool that loads a box/shelf inventory from a
Google Sheets response and shows it as a table. The user can search it,
filter it by shelf, sort it by column and tick records. The ticked
records are then printed as labels carrying a QR code and a barcode.

This project models the page's session state in `script.js`:
- `allData`: the full record list, `{id, box, shelf, selected}`;
- `filteredData`: the view;
- `sortColumn` / `sortDirection`.

It also models the handlers that change this state. Here is how they map
to the model:

- `InventorySession` (session.dfy) is a class with these fields.
  - The view is a sequence of record ids. In the page, `filteredData`
    holds the same objects as `allData`, and ids stand for that sharing:
    a flag set through the view shows up in the full list.
  - `Valid()` is the class invariant:
    - ids are dense, so the record at position `i` has id `i`;
    - every view entry is in range;
    - the view is a permutation of the records matching the last filter,
      which were loaded in order.

    `ViewNoDup` shows that this permutation has no duplicates.
- loadData becomes `Load`. applyFilters becomes `ApplyFilters`.
  handleSort becomes `HandleSort`. handleRowCheckbox becomes
  `HandleRowCheckbox`. selectAll becomes `SelectAll`, with its two
  `forEach` passes as the loops of `ClearSelection` and `SelectView`.
  toggleAllCheckboxes becomes `ToggleAllCheckboxes`. printLabels becomes
  `PrintLabels`.
- The derived values are functions over the state:
  - the filter predicate and view (view.dfy);
  - the selected records, the header checkbox and the counters
    (selection.dfy);
  - the shelf options (inventory.dfy);
  - the labels (labels.dfy).
- The page's string operations are in text.dfy: `toLowerCase`, `trim`,
  `includes` and `<` on strings.
- The sort is in sorting.dfy. The comparator is `Compare`, and
  `Array.prototype.sort` is modelled by a stable insertion sort, `SortBy`.
  `SortedStableIsSortBy` shows that any sorted result that keeps ties in
  their input order equals `SortBy`. So the model does not depend on the
  engine's algorithm, only on sort being stable, which ECMAScript 2019
  requires.
- scenarios.dfy works through a three-record inventory: a shelf filter, a
  search, a sort, a tick, a bulk select, and a print with nothing selected.
  Its two methods, `TickScenario` and `BulkScenario`, are walk-throughs
  that drive a session with assertions along the way; they carry no
  contract and have no row below.

Three behaviours of the code are worth spelling out:

- **Sorting the same column twice.** Clicking the sorted column again
  flips the direction and sorts the view again with a stable sort. Records
  with equal keys therefore keep their pre-sort order in both directions,
  and the second result is the reverse of the first only when no two keys
  are equal.
  - `Sorting.ResortReverses` proves the reversal for distinct keys.
  - `Sorting.ResortSameKey` proves that re-sorting equals a single sort
    in the new direction, whatever the first direction was.
- **The per-row checkbox.** It sets `selected` to the box's checked
  value; it does not flip it. `HandleRowCheckbox` takes that value.
- **The label payload.** `MakeLabels`, and so `PrintLabels`, escapes the
  box text exactly as the page does. The payload then passes through two
  readers: the HTML parser of the print window, which ends the script
  element at the first `</script` end tag (`ClosesScript`), and the
  JavaScript engine, which reads the single-quoted literal
  (`ReadLiteral`). The page's escaping is only correct for plain text
  that holds no end tag. `MakeLabelsCorrected` is the corrected form,
  next to it (see Findings).

## Model

| member | source | states |
|---|---|---|
| Inventory.Unwrap | script.js:45 | a response of at least 49 characters is its first 47 characters, the body and its last 2 characters; a shorter one yields an empty body |
| Inventory.UnwrapResponse | script.js:45 | wrapping a body in the Sheets prefix and suffix and unwrapping it gives the body back |
| Inventory.CellText | script.js:50-51 | a cell's text is its value when the row has the cell and it holds a value, and empty otherwise |
| Inventory.MapRows | script.js:48-53 | one record per row, ids equal to row positions, box and shelf taken from cells 0 and 1, nothing selected |
| Inventory.Field | script.js:122 | the text of a record's box or shelf column |
| Inventory.Shelves | script.js:64 | the shelf of every record, in list order |
| Inventory.Dedup | script.js:64 | the same members as its input, each once |
| Inventory.NonEmpty | script.js:64 | exactly the non-empty members of its input, with no new ones |
| Inventory.ShelfOptions | script.js:64 | a string is an option iff it is a non-empty shelf of some record; options are in strictly increasing order |
| Inventory.SortedPermutationOfSet | script.js:64 | sorting a duplicate-free list keeps its members and makes it strictly increasing |
| Text.LowerChar | script.js:95 | the lower-cased character is never upper-case; upper-case letters map to their lower-case letter, and all other characters stay as they are |
| Text.Lower | script.js:95 | same length, lower-cased character by character, with no upper-case letter left |
| Text.LowerIdempotent | script.js:95 | lower-casing twice is lower-casing once |
| Text.IsTrimSpace | script.js:95 | the characters `trim` removes: ECMAScript white space and line terminators |
| Text.LeadingSpaces | script.js:95 | the count of leading white-space characters: all of them are space, and the next character is not |
| Text.TrailingSpaces | script.js:95 | the count of trailing white-space characters: all of them are space, and the one before is not |
| Text.Trim | script.js:95 | the result is the infix of the input after the leading spaces; everything cut off on either side is white space; the result neither starts nor ends with white space |
| Text.TrimNoUpper | script.js:95 | trimming a string without upper-case letters leaves none |
| Text.ContainsIffOccurs | script.js:100-101 | `includes` holds iff the term occurs at some position |
| Text.Contains | script.js:100-101 | `includes`: the term is a prefix of the text or of one of its suffixes |
| Text.ContainsEmpty | script.js:99-101 | every string includes the empty term |
| Text.ContainsSameLength | script.js:100-101 | a string never includes a different string of the same length |
| Text.LexLess | script.js:125-126 | `<` on strings: a proper prefix comes first, otherwise the first differing character decides |
| Text.LexLessIrreflexive | script.js:125-126 | no string is less than itself |
| Text.LexLessAsymmetric | script.js:125-126 | two strings are never each less than the other |
| Text.LexLessTransitive | script.js:125-126 | `<` on strings is transitive |
| Text.LexLessTotal | script.js:125-126 | two different strings are ordered one way or the other |
| Sorting.Flip | script.js:115 | flipping always changes the direction |
| Sorting.Compare | script.js:121-128 | the comparator returns -1, 0 or 1; 0 iff the keys are equal; negative iff the first key comes first in the chosen direction |
| Sorting.CompareAntisymmetric | script.js:125-127 | swapping the arguments negates the comparator |
| Sorting.CompareLeTransitive | script.js:125-127 | "not after" under the comparator is transitive |
| Sorting.CompareFlip | script.js:125-126 | comparing in the other direction is comparing with the arguments swapped |
| Sorting.Insert | script.js:121-128 | inserting adds exactly one occurrence of the element |
| Sorting.SortBy | script.js:121-128 | the result is a permutation of the input and is sorted by the key in the chosen direction |
| Sorting.InsertSorted | script.js:121-128 | inserting into a sorted sequence keeps it sorted |
| Sorting.InsertFilterKey | script.js:121-128 | insertion puts the new element before every element with the same key |
| Sorting.SortByStable | script.js:121-128 | for every key, the elements with that key keep their relative order |
| Sorting.SortedStableUnique | script.js:121-128 | two sorted sequences that agree on the order of each key's elements are equal |
| Sorting.SortedStableIsSortBy | script.js:121-128 | any sorted, stable rearrangement of the input equals `SortBy`'s result |
| Sorting.ResortSameKey | script.js:113-128 | sorting an already sorted view again equals sorting the original once in the new direction |
| Sorting.Reverse | script.js:113-128 | the reversed sequence has the element at mirrored positions |
| Sorting.ReverseSorted | script.js:125-126 | reversing a sorted sequence sorts it in the other direction |
| Sorting.ResortReverses | script.js:113-128 | with distinct keys, sorting a sorted view in the other direction reverses it |
| View.AllIds | script.js:55 | the ids 0 to n-1 in order |
| View.SearchTerm | script.js:95 | the search term has no upper-case letter and neither starts nor ends with white space |
| View.MatchesSearch | script.js:99-101 | the search test: an empty term, or the term occurs in the lower-cased box or shelf |
| View.MatchesShelf | script.js:103 | the shelf test: no shelf chosen, or the record's shelf equals it |
| View.Matches | script.js:105 | a record stays in the view iff it passes both tests |
| View.SortKey | script.js:122-123 | the sort key of an id: its record's column text, lower-cased |
| View.FilterView | script.js:98-106 | the view is never longer than the list |
| View.FilterViewSpec | script.js:98-106 | with dense ids, the view is strictly increasing and in range, holds only matching records, and holds every matching record |
| View.FilterViewOrdered | script.js:98-106 | the view lists ids in increasing load order, all in range |
| View.FilterViewMatches | script.js:98-106 | every id in the view names a record that passes both the search and the shelf test |
| View.FilterViewMembers | script.js:98-106 | an id is in the view iff its record passes both tests |
| View.FilterViewWellFormed | script.js:98-106 | the view has no duplicates and stays in range |
| View.ViewNoDup | script.js:98-106 | any permutation of the filtered view is duplicate-free |
| View.FilterViewUnfiltered | script.js:55 | with no search term and no shelf, the view is the whole list in load order |
| View.FilterIgnoresSelection | script.js:98-106 | the view does not depend on selection flags |
| Selection.Find | script.js:180 | finds the first record with the id, or reports that no record has it |
| Selection.FindDense | script.js:180 | with dense ids, the record with id `i` is at position `i`, and an id outside the list is not found |
| Selection.SelectedRecords | script.js:258 | only selected records, never more than the list |
| Selection.SelectedRecordsSpec | script.js:258 | with dense ids, the selection is exactly the flagged records, each taken from the list, in increasing id order |
| Selection.SelectedRecordsFromList | script.js:258 | each selected record is the list's record at its id |
| Selection.SelectedRecordsIncreasing | script.js:258 | the selected records come in increasing id order |
| Selection.SelectedRecordsMembers | script.js:258 | a record is in the selection iff its flag is set |
| Selection.NoSelectedRecords | script.js:264 | the selection is empty iff no record is selected |
| Selection.AllSelectedRecords | script.js:238 | the selection is as long as the list iff every record is selected |
| Selection.SelectionIs | script.js:214-228 | the flags after a bulk operation: selected iff the operation selects and the id is in the view |
| Selection.BulkSelectionCount | script.js:214-228 | when exactly the view's records are selected, the selection has as many records as the view, all with ids in the view |
| Selection.Visible | script.js:237 | the visible records are the list's records at the view's ids, in view order |
| Selection.Header | script.js:236-243 | the header checkbox is never both checked and indeterminate |
| Selection.HeaderByCount | script.js:237-242 | checked iff the view is non-empty and all visible records are selected; indeterminate iff some but not all are |
| Selection.Stats | script.js:246-254 | the selected count never exceeds the total, and it is zero iff nothing is selected |
| Labels.Unescape | script.js:425 | the escapes `\\`, `\'` and `\"` stand for the escaped character |
| Labels.ReadLiteral | script.js:425 | a literal that reads back is never longer than its source text |
| Labels.EscapeQuotes | script.js:425 | every quote in the output is preceded by a backslash, and the output is never shorter; `EscapeQuotesInverse` pins down that nothing else changes |
| Labels.UnescapeQuotes | script.js:425 | undoing the page's escaping never lengthens the text |
| Labels.EscapeQuotesInverse | script.js:425 | undoing the escaping gives back every box text, so the page inserts a backslash before each quote and changes nothing else: backslashes and line breaks pass through unescaped |
| Labels.EscapeQuotesPlainRoundTrip | script.js:425 | for text without backslashes or line breaks, the escaped literal reads back as the text |
| Labels.EscapeQuotesTrailingBackslash | script.js:425 | box `A1\` gives a literal that does not read back at all |
| Labels.EscapeQuotesMisreadsBackslash | script.js:425 | box `A\n1` reads back with a line break in place of `\n` |
| Labels.EscapeQuotesNoQuote | script.js:425 | the page's escaping leaves a text without quotes as it is |
| Labels.ScriptDataNoEndTag | script.js:418-448 | a text in which no `<` is followed by `/` or `!` holds no end tag that would close the script element |
| Labels.OpenersEscapedScriptData | script.js:418-448 | a text in which every `/` and `!` follows a backslash is plain script data |
| Labels.EscapeChar | script.js:425 | each character becomes either itself or a backslash escape that reads back as it; backslashes, quotes, line breaks, `/` and `!` are always escaped |
| Labels.EscapedOpeners | script.js:425 | escaping one more character in front of a text keeps every `/` and `!` behind a backslash |
| Labels.EscapeLiteral | script.js:425 | every text escapes to a literal that reads back as exactly that text and that the HTML parser reads as plain script data |
| Labels.EscapeLiteralExtendsEscapeQuotes | script.js:425 | on text without backslashes, line breaks, `/` or `!`, the corrected escape agrees with the page's |
| Labels.MakeLabels | script.js:257-294 | an error iff nothing is selected; otherwise one label per selected record in list order, indexed from 0, titled with its box, whose payload is the box with its quotes escaped and whose literal reads back as the box when the box is plain text |
| Labels.EscapeQuotesPlainAll | script.js:425 | for every plain text, the page's escaped literal reads back as the text |
| Labels.MakeLabelsTrailingBackslash | script.js:425 | a selected box `A1\` gets a label whose payload does not read back at all |
| Labels.MakeLabelsClosesScript | script.js:418-448 | a selected box without quotes that holds a script end tag keeps it in its payload, which closes the print window's script element |
| Labels.ScriptTagCloses | script.js:418-448 | the box `A</script>1` is plain text, has no quote and holds a script end tag |
| Labels.MakeLabelsCorrected | script.js:257-294 | the same labels with the corrected escaping: an error iff nothing is selected, otherwise one label per selected record, indexed from 0, whose payload reads back as exactly its box and is plain script data |
| Labels.MakeLabelsCorrectedAgrees | script.js:425 | when every selected box is plain text without `/` or `!`, the corrected labels equal the page's labels |
| Session.InventorySession.constructor | script.js:7-10 | the empty state: no records, an empty view, no sort column, ascending |
| Session.InventorySession.Load | script.js:42-55 | on a parse, the list is the mapped rows, unselected, and the view is the whole list in load order; on a parse failure nothing changes |
| Session.InventorySession.ApplyFilters | script.js:94-110 | the view becomes the matching records in load order; the records and the sort state are left as they were |
| Session.InventorySession.HandleSort | script.js:113-128 | the column becomes the sort column; the direction flips on the same column and is ascending otherwise; the view becomes the stable sort of the old view, a sorted permutation of it |
| Session.InventorySession.SortView | script.js:121-128 | the view becomes its stable sort in the given direction, a sorted permutation of the old view |
| Session.InventorySession.Reorder | script.js:121 | replacing the view by a permutation of itself keeps the invariant |
| Session.InventorySession.HandleRowCheckbox | script.js:177-187 | the record with the id gets the checkbox value and every other record is unchanged; an unknown id changes nothing |
| Session.InventorySession.SelectAll | script.js:212-233 | a record ends selected iff the call selects and its id is in the view, including records outside the view; the counter then shows the view's length or 0, and the header is checked iff the view is non-empty and the call selects |
| Session.InventorySession.ClearSelection | script.js:214-216 | every record's flag is cleared and nothing else changes |
| Session.InventorySession.SelectView | script.js:219-226 | the records in the view are selected, the others keep their flag, and nothing else changes |
| Session.InventorySession.SetRecords | script.js:214-226 | writing back records that differ only in their flags keeps the invariant |
| Session.InventorySession.ToggleAllCheckboxes | script.js:190-209 | a record ends selected iff the header box is checked and its id is in the view |
| Session.InventorySession.PrintLabels | script.js:257-294 | the page's labels of the current list, with its quote-only escaping; an error iff the selected counter is zero |
| Session.Marked | script.js:219-226 | marking keeps every record's item and selects exactly those whose id is in the marked ids, besides those already selected |
| Session.MarkedStep | script.js:220-225 | marking one more id selects that record and changes nothing else |
| Session.BulkSelectionOutcome | script.js:236-254 | after a bulk operation, the selected count is the view's length (or 0), and the header is checked iff the view is non-empty and the operation selected; it is never indeterminate |
| Scenarios.Sample | script.js:48-53 | a three-record list with dense ids and nothing selected |
| Scenarios.SampleRows | script.js:48-53 | these rows map to the sample list |
| Scenarios.ShelfScenario | script.js:103 | filtering the sample by shelf S1 gives ids 0 and 2 |
| Scenarios.SortKeyScenario | script.js:122-123 | the sort keys of A1 and A3 are `a1` and `a3` |
| Scenarios.SortScenario | script.js:121-128 | sorting view [0, 2] by box ascending keeps it as it is |
| Scenarios.SearchTermScenario | script.js:95 | the search text `b2` is its own search term |
| Scenarios.MatchScenario | script.js:99-105 | of the sample, only box B2 matches the term `b2` |
| Scenarios.SearchScenario | script.js:95-106 | searching the sample for `b2` gives id 1 |
| Scenarios.EmptySelectionScenario | script.js:264-267 | printing with nothing selected is the empty-selection error |

## Left out

- Network and parsing: `fetch`, `response.text()` and `JSON.parse` (script.js:43-45).
  - `Load` receives the response text and the parser as parameters.
  - A parser result of `None` stands for anything that throws before
    `allData` is assigned.
  - The error propagation to `init` and `showError` is not modelled.
- Inventory.CellText: only string cell values are modelled. A non-string value (a number such as 0, a boolean) and the `||` fallback on it are not.
- Text.Lower: lowers only the ASCII letters A to Z. Full Unicode `toLowerCase` is not modelled.
- Text.LexLess: orders Dafny characters. It does not use UTF-16 code units, so strings with characters beyond U+FFFF may compare differently from JavaScript's `<`.
- Labels.ReadLiteral: reads JavaScript literals only as far as the escape question needs. Numeric, hexadecimal and Unicode escapes and line continuations are reported as unreadable (`None`), not decoded.
- Labels.ReadLiteral: models only the JavaScript literal. The HTML parser that `document.write` feeds the script through first is modelled only by `ClosesScript` (an end tag ends the element) and `ScriptData` (no `<` followed by `/` or `!`, so the parser stays in its plain script-data state). Its escaped and double-escaped states after `<!--` are not modelled.
- Labels.MakeLabels: the read-back it promises for plain text is the literal's only. A box holding `</script` (any letter case) ends the print window's script early, so the print window breaks whatever the literal says; `MakeLabelsClosesScript` shows this.
- Session.InventorySession.HandleSort: the in-place `filteredData.sort` is modelled as reassigning the view with a stable sort. No array is shared with other code.
- Session.InventorySession.ApplyFilters: that the records and the sort state are unchanged is stated by the method's `modifies` frame, not by its `ensures` clauses. The same holds for the other handlers.
- DOM rendering and event wiring (script.js:76-91, 130-175, 464-472): `renderTable`, the sort icons, the row highlighting, `setupEventListeners` and `showError`. `Stats` keeps only the counter values.
- `escapeHtml` (script.js:457-461): it delegates to the browser's HTML serializer, so label titles carry the raw box text.
- The print window (script.js:270, 297-453): its markup and CSS, the QRCode and JsBarcode calls and the delayed `window.print`. The labels keep only the title and the text the codes are given.
- `console.log` and `alert`, and the Thai message texts (script.js:260-265). `PrintLabels` returns an error in place of the alert.
- The async `init` sequence (script.js:25-36) and `populateShelfFilter`'s `<option>` elements. `ShelfOptions` computes the option values.
- Session.Marked: helper function; its contract restates its definition, and the `SelectView` loop is proved against it.

## Findings

| source | as written | input that shows it | evidently intended | confidence | as-written member | corrected member |
|---|---|---|---|---|---|---|
| script.js:425 | the QR payload (and, identically, the barcode payload at line 434) is the box text with each `'` turned into `\'`, placed between single quotes in a script; backslashes and line breaks are not escaped | box `A1\` yields the literal `'A1\'`, whose closing quote is escaped, so the literal is unterminated and the script fails; box `A\n1` is encoded with a line break in place of its two characters | the literal reads back as exactly the box text | not executed | Labels.MakeLabelsTrailingBackslash | Labels.MakeLabelsCorrected |
| script.js:418-448 | the escaped payload is written by `document.write` inside a `<script>` element; `<` and `/` are left as they are | box `A</script>1` yields a payload holding `</script>`, which ends the script element in the middle of the literal `'A`, so the window's onload script is a syntax error and no code is drawn | the HTML parser passes the whole script through, so every payload reaches the JavaScript engine | not executed | Labels.MakeLabelsClosesScript | Labels.MakeLabelsCorrected |
