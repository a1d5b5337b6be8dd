/**
 * Label generation for printLabels: one label per selected record, in the
 * order of the full list, each carrying the text the QR code and the
 * barcode encode.
 *
 * The payload is spliced between single quotes into a JavaScript literal
 * (`text: '<payload>'`) inside the `<script>` element of the print
 * window's HTML. Two readers see it: the HTML parser, which ends the
 * element at the first `</script` end tag (`ClosesScript`), and then the
 * JavaScript engine, which reads the literal (`ReadLiteral`). What the
 * codes encode is what the engine reads back, provided the HTML parser
 * has passed the script through intact.
 */
module Labels {
  import opened Wrappers
  import opened Inventory
  import opened Selection
  import opened Text

  /** A line terminator as JavaScript source text defines it. */
  predicate IsLineTerminator(c: char) {
    c == '\n' || c == '\r' || c == '\U{2028}' || c == '\U{2029}'
  }

  /**
   * The character a backslash escape `\c` stands for: the single-character
   * escapes and, for any other character, the character itself. Numeric,
   * hexadecimal and Unicode escapes and line continuations are not
   * decoded: `None`.
   */
  function Unescape(c: char): (d: Option<char>)
    ensures c == '\\' || c == '\'' || c == '"' ==> d == Some(c)
  {
    if c == 'n' then Some('\n')
    else if c == 'r' then Some('\r')
    else if c == 't' then Some('\t')
    else if c == 'b' then Some('\U{0008}')
    else if c == 'f' then Some('\U{000C}')
    else if c == 'v' then Some('\U{000B}')
    else if '0' <= c <= '9' || c == 'x' || c == 'u' || IsLineTerminator(c) then None
    else Some(c)
  }

  function Prepend(c: char, o: Option<string>): Option<string> {
    match o
    case Some(s) => Some([c] + s)
    case None => None
  }

  /**
   * The string value of the single-quoted literal whose body is `body`, or
   * `None` when the literal is malformed: an unescaped quote ends it early,
   * a raw CR or LF is not allowed inside it, and a final lone backslash
   * escapes the closing quote.
   */
  function ReadLiteral(body: string): (v: Option<string>)
    ensures v.Some? ==> |v.value| <= |body|
  {
    if body == [] then Some([])
    else if body[0] == '\'' || body[0] == '\n' || body[0] == '\r' then None
    else if body[0] == '\\' then
      if |body| == 1 then None
      else
        match Unescape(body[1])
        case Some(c) => Prepend(c, ReadLiteral(body[2..]))
        case None => None
    else Prepend(body[0], ReadLiteral(body[1..]))
  }

  /** Reading a backslash escape. */
  lemma ReadEscape(c: char, rest: string)
    requires Unescape(c).Some?
    ensures ReadLiteral(['\\', c] + rest) == Prepend(Unescape(c).value, ReadLiteral(rest))
  {
    assert (['\\', c] + rest)[2..] == rest;
  }

  /** Reading a character that stands for itself. */
  lemma ReadPlain(c: char, rest: string)
    requires c != '\\' && c != '\'' && c != '\n' && c != '\r'
    ensures ReadLiteral([c] + rest) == Prepend(c, ReadLiteral(rest))
  {
    assert ([c] + rest)[1..] == rest;
  }

  /**
   * The payload as the page writes it: `box.replace(/'/g, "\\'")`, a
   * backslash put in front of every single quote and nothing else changed.
   */
  function EscapeQuotes(s: string): (r: string)
    ensures forall i :: 0 <= i < |r| && r[i] == '\'' ==> 0 < i && r[i - 1] == '\\'
    ensures |r| >= |s|
  {
    if s == [] then []
    else
      var rest := EscapeQuotes(s[1..]);
      var head := if s[0] == '\'' then "\\'" else [s[0]];
      assert forall i :: |head| <= i < |head| + |rest| ==> (head + rest)[i] == rest[i - |head|];
      head + rest
  }

  /**
   * Undoes the page's escaping: each backslash-quote pair becomes a quote,
   * every other character is copied.
   */
  function UnescapeQuotes(r: string): (s: string)
    ensures |s| <= |r|
  {
    if r == [] then []
    else if |r| >= 2 && r[0] == '\\' && r[1] == '\'' then "'" + UnescapeQuotes(r[2..])
    else [r[0]] + UnescapeQuotes(r[1..])
  }

  /**
   * The page's escaping only inserts a backslash before each quote: undoing
   * that gives back every box text, backslashes and line breaks included.
   */
  lemma {:induction false} EscapeQuotesInverse(s: string)
    ensures UnescapeQuotes(EscapeQuotes(s)) == s
  {
    if s != [] {
      EscapeQuotesInverse(s[1..]);
      var rest := EscapeQuotes(s[1..]);
      if s[0] == '\'' {
        assert EscapeQuotes(s) == ['\\', '\''] + rest;
        assert (['\\', '\''] + rest)[2..] == rest;
      } else {
        assert EscapeQuotes(s) == [s[0]] + rest;
        assert ([s[0]] + rest)[1..] == rest;
        assert rest == [] || rest[0] != '\'';
      }
      assert s == [s[0]] + s[1..];
    }
  }

  /**
   * A box text whose quote-escaped literal reads back as itself: no
   * backslash and no raw line break. This is the JavaScript literal only;
   * the HTML around it is `ClosesScript`'s concern.
   */
  predicate PlainText(s: string) {
    forall i :: 0 <= i < |s| ==> s[i] != '\\' && s[i] != '\n' && s[i] != '\r'
  }

  /** A text without a quote is left as it is by the page's escaping. */
  lemma {:induction false} EscapeQuotesNoQuote(s: string)
    requires '\'' !in s
    ensures EscapeQuotes(s) == s
  {
    if s != [] {
      EscapeQuotesNoQuote(s[1..]);
      assert s == [s[0]] + s[1..];
    }
  }

  /** For plain box texts the page's escaping round-trips through the literal. */
  lemma {:induction false} EscapeQuotesPlainRoundTrip(s: string)
    requires PlainText(s)
    ensures ReadLiteral(EscapeQuotes(s)) == Some(s)
  {
    if s != [] {
      EscapeQuotesPlainRoundTrip(s[1..]);
      var rest := EscapeQuotes(s[1..]);
      if s[0] == '\'' {
        assert EscapeQuotes(s) == ['\\', '\''] + rest;
        assert (['\\', '\''] + rest)[2..] == rest;
      } else {
        assert EscapeQuotes(s) == [s[0]] + rest;
        assert ([s[0]] + rest)[1..] == rest;
      }
      assert s == [s[0]] + s[1..];
    }
  }

  /**
   * A box text ending in a backslash: the payload keeps the backslash, which
   * then escapes the literal's closing quote.
   */
  lemma EscapeQuotesTrailingBackslash()
    ensures ReadLiteral(EscapeQuotes("A1\\")) == None
  {
    assert EscapeQuotes("A1\\") == "A1\\";
  }

  /** A box text holding a backslash and an `n` is encoded as a line break. */
  lemma EscapeQuotesMisreadsBackslash()
    ensures ReadLiteral(EscapeQuotes("A\\n1")) == Some("A\n1")
  {
    assert EscapeQuotes("A\\n1") == "A\\n1";
    assert ReadLiteral("1") == Some("1") by {
      ReadPlain('1', []);
      assert "1" == ['1'] + [];
    }
    assert ReadLiteral("\\n1") == Some("\n1") by {
      ReadEscape('n', "1");
      assert "\\n1" == ['\\', 'n'] + "1";
      assert ['\n'] + "1" == "\n1";
    }
    ReadPlain('A', "\\n1");
    assert "A\\n1" == ['A'] + "\\n1";
    assert ['A'] + "\n1" == "A\n1";
  }

  /**
   * A character that ends an end tag's name in HTML's script data: a space,
   * a tab, a line break, a form feed, `/` or `>`.
   */
  predicate IsTagNameEnd(c: char) {
    c == ' ' || c == '\t' || c == '\n' || c == '\r' || c == '\U{000C}' || c == '/' || c == '>'
  }

  /**
   * Whether `s` holds an end tag that closes a script element: `</`, the
   * name `script` in any mix of ASCII letter case, and a character that ends
   * the name. The HTML parser ends the print window's script at the first
   * such tag, cutting every literal that is still open there.
   */
  predicate ClosesScript(s: string) {
    exists i :: 0 <= i < |s| && EndTagAt(s, i)
  }

  /** A script end tag starts at position `i` of `s`. */
  predicate EndTagAt(s: string, i: int) {
    0 <= i && i + 9 <= |s| && s[i] == '<' && s[i + 1] == '/'
    && Lower(s[i + 2..i + 8]) == "script" && IsTagNameEnd(s[i + 8])
  }

  /**
   * The characters that, right after a `<`, take HTML's script data out of
   * its plain state: `/` opens an end tag, `!` may open `<!--`.
   */
  predicate IsTagOpener(c: char) {
    c == '/' || c == '!'
  }

  /**
   * The HTML parser reads `s` as plain script data from start to end: no
   * `<` in it is followed by a tag opener, so `s` neither ends the script
   * element nor switches it into its escaped states.
   */
  predicate ScriptData(s: string) {
    forall i :: 0 <= i < |s| - 1 && s[i] == '<' ==> !IsTagOpener(s[i + 1])
  }

  /** Plain script data holds no end tag. */
  lemma ScriptDataNoEndTag(s: string)
    requires ScriptData(s)
    ensures !ClosesScript(s)
  {
    forall i | 0 <= i < |s| ensures !EndTagAt(s, i) {
      if i + 9 <= |s| && s[i] == '<' {
        assert IsTagOpener('/');
      }
    }
  }

  /** A text in which every tag opener follows a backslash is plain script data. */
  lemma OpenersEscapedScriptData(r: string)
    requires forall i :: 0 <= i < |r| && IsTagOpener(r[i]) ==> 0 < i && r[i - 1] == '\\'
    ensures ScriptData(r)
  {
  }

  /**
   * The escape of one character inside a single-quoted literal that sits in
   * a script element: the character itself when it may stand there,
   * otherwise a backslash escape that decodes to it. The tag openers are
   * escaped so that neither `</` nor `<!` reaches the HTML parser.
   */
  function EscapeChar(c: char): (e: string)
    ensures |e| == 1 ==> e == [c] && c != '\\' && c != '\'' && c != '\n' && c != '\r' && !IsTagOpener(c)
    ensures |e| == 2 ==> e[0] == '\\' && Unescape(e[1]) == Some(c)
    ensures |e| == 1 || |e| == 2
  {
    if c == '\\' then "\\\\"
    else if c == '\'' then "\\'"
    else if c == '\n' then "\\n"
    else if c == '\r' then "\\r"
    else if c == '/' then "\\/"
    else if c == '!' then "\\!"
    else [c]
  }

  /**
   * Escaping for a single-quoted literal in a script element that also
   * covers backslashes, line breaks and tag openers: the literal reads back
   * as exactly `s`, and the HTML parser passes it through as plain script
   * data.
   */
  function EscapeLiteral(s: string): (r: string)
    ensures ReadLiteral(r) == Some(s)
    ensures forall i :: 0 <= i < |r| && IsTagOpener(r[i]) ==> 0 < i && r[i - 1] == '\\'
    ensures ScriptData(r)
  {
    if s == [] then []
    else
      var rest := EscapeLiteral(s[1..]);
      ReadEscapedChar(s[0], rest);
      EscapedOpeners(s[0], rest);
      OpenersEscapedScriptData(EscapeChar(s[0]) + rest);
      assert s == [s[0]] + s[1..];
      EscapeChar(s[0]) + rest
  }

  /** Escaping one more character keeps every tag opener behind a backslash. */
  lemma EscapedOpeners(c: char, rest: string)
    requires forall i :: 0 <= i < |rest| && IsTagOpener(rest[i]) ==> 0 < i && rest[i - 1] == '\\'
    ensures forall i :: 0 <= i < |EscapeChar(c) + rest| && IsTagOpener((EscapeChar(c) + rest)[i]) ==>
              0 < i && (EscapeChar(c) + rest)[i - 1] == '\\'
  {
    var head := EscapeChar(c);
    assert forall i :: |head| <= i < |head| + |rest| ==> (head + rest)[i] == rest[i - |head|];
  }

  lemma ReadEscapedChar(c: char, rest: string)
    ensures ReadLiteral(EscapeChar(c) + rest) == Prepend(c, ReadLiteral(rest))
  {
    var e := EscapeChar(c);
    if |e| == 2 {
      ReadEscape(e[1], rest);
      assert e + rest == [e[0], e[1]] + rest;
    } else {
      ReadPlain(c, rest);
    }
  }

  /**
   * On plain box texts without tag openers, the corrected escaping writes
   * the same payload as the page.
   */
  lemma {:induction false} EscapeLiteralExtendsEscapeQuotes(s: string)
    requires PlainText(s) && '/' !in s && '!' !in s
    ensures EscapeLiteral(s) == EscapeQuotes(s)
  {
    if s != [] {
      EscapeLiteralExtendsEscapeQuotes(s[1..]);
    }
  }

  /** One printed label: its position, its title and its code payload. */
  datatype Label = Label(index: nat, title: string, payload: string)

  /** printLabels' only error: nothing is selected. */
  datatype PrintError = EmptySelection

  /**
   * The labels printLabels lays out: an error when nothing is selected;
   * otherwise one label per selected record in full-list order, numbered
   * from 0, titled with the box, and with the box's quotes escaped as the
   * payload. The payload reads back as the box when the box is plain text.
   */
  function MakeLabels(all: seq<Record>): (r: Result<seq<Label>, PrintError>)
    ensures r.Err? <==> NoneSelected(all)
    ensures r.Ok? ==>
              var sel := SelectedRecords(all);
              && |r.value| == |sel|
              && forall k :: 0 <= k < |r.value| ==>
                   && r.value[k].index == k
                   && r.value[k].title == sel[k].box
                   && r.value[k].payload == EscapeQuotes(sel[k].box)
                   && (PlainText(sel[k].box) ==> ReadLiteral(r.value[k].payload) == Some(sel[k].box))
  {
    var sel := SelectedRecords(all);
    NoSelectedRecords(all);
    EscapeQuotesPlainAll();
    if |sel| == 0 then Err(EmptySelection)
    else Ok(seq(|sel|, k requires 0 <= k < |sel| => Label(k, sel[k].box, EscapeQuotes(sel[k].box))))
  }

  lemma EscapeQuotesPlainAll()
    ensures forall s :: PlainText(s) ==> ReadLiteral(EscapeQuotes(s)) == Some(s)
  {
    forall s | PlainText(s) ensures ReadLiteral(EscapeQuotes(s)) == Some(s) {
      EscapeQuotesPlainRoundTrip(s);
    }
  }

  /** A selected box ending in a backslash gets a label whose payload does not read back. */
  lemma MakeLabelsTrailingBackslash()
    ensures var r := MakeLabels([Record(0, "A1\\", "S1", true)]);
            r.Ok? && |r.value| == 1 && ReadLiteral(r.value[0].payload) == None
  {
    var all := [Record(0, "A1\\", "S1", true)];
    assert SelectedRecords(all) == all by {
      assert all[..0] == [];
    }
    EscapeQuotesTrailingBackslash();
  }

  /**
   * A selected box without quotes that holds a script end tag keeps it in
   * its payload, which then closes the print window's script element before
   * the literal ends; `ScriptTagCloses` gives such a box that is plain text.
   */
  lemma MakeLabelsClosesScript(all: seq<Record>, k: nat)
    requires k < |SelectedRecords(all)|
    requires '\'' !in SelectedRecords(all)[k].box && ClosesScript(SelectedRecords(all)[k].box)
    ensures MakeLabels(all).Ok? && k < |MakeLabels(all).value|
    ensures ClosesScript(MakeLabels(all).value[k].payload)
  {
    NoSelectedRecords(all);
    EscapeQuotesNoQuote(SelectedRecords(all)[k].box);
  }

  /** A plain box text without quotes that holds a script end tag. */
  lemma ScriptTagCloses()
    ensures var box := "A</script>1";
            PlainText(box) && '\'' !in box && ClosesScript(box)
  {
    var box := "A</script>1";
    assert box[3..9] == "script";
    assert Lower("script") == "script";
    assert EndTagAt(box, 1);
  }

  /**
   * The labels with the corrected escaping: the same labels, except that
   * every payload reads back as exactly its box and is plain script data,
   * so none ends the script element early.
   */
  function MakeLabelsCorrected(all: seq<Record>): (r: Result<seq<Label>, PrintError>)
    ensures r.Err? <==> NoneSelected(all)
    ensures r.Ok? ==>
              var sel := SelectedRecords(all);
              && |r.value| == |sel|
              && forall k :: 0 <= k < |r.value| ==>
                   && r.value[k].index == k
                   && r.value[k].title == sel[k].box
                   && ReadLiteral(r.value[k].payload) == Some(sel[k].box)
                   && ScriptData(r.value[k].payload)
  {
    var sel := SelectedRecords(all);
    NoSelectedRecords(all);
    if |sel| == 0 then Err(EmptySelection)
    else Ok(seq(|sel|, k requires 0 <= k < |sel| => Label(k, sel[k].box, EscapeLiteral(sel[k].box))))
  }

  /**
   * When every selected box is plain text without tag openers, the
   * corrected labels are the page's labels.
   */
  lemma MakeLabelsCorrectedAgrees(all: seq<Record>)
    requires forall k :: 0 <= k < |SelectedRecords(all)| ==>
               var box := SelectedRecords(all)[k].box;
               PlainText(box) && '/' !in box && '!' !in box
    ensures MakeLabelsCorrected(all) == MakeLabels(all)
  {
    var sel := SelectedRecords(all);
    forall k | 0 <= k < |sel| ensures EscapeLiteral(sel[k].box) == EscapeQuotes(sel[k].box) {
      EscapeLiteralExtendsEscapeQuotes(sel[k].box);
    }
    if sel != [] {
      var a, b := MakeLabelsCorrected(all).value, MakeLabels(all).value;
      assert |a| == |b|;
      assert forall k :: 0 <= k < |a| ==> a[k] == b[k];
      assert a == b;
    } else {
      assert MakeLabels(all) == Err(EmptySelection);
    }
  }
}
