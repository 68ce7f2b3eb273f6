/** The logic of the VirtualDJ playlist formatter: locate the "Artist" and "Title"
    columns in the header record of an exported playlist, ask the user for a style,
    and turn every data record into one line of text. Reading the CSV file, reading
    standard input and writing the result are not part of this model: the parsed
    records and the lines typed by the user are parameters. */
module PlaylistFormatter {
  import opened GoStrings

  datatype Option<T> = None | Some(value: T)

  // ---------------------------------------------------------------------------
  // Column lookup

  /** The position of the first element of `sl` equal to `name`, or -1. */
  function FirstIndex(sl: seq<string>, name: string): (r: int)
    ensures -1 <= r < |sl|
    ensures r == -1 <==> name !in sl
    ensures 0 <= r ==> sl[r] == name && name !in sl[..r]
  {
    if sl == [] then -1
    else if sl[0] == name then 0
    else
      var k := FirstIndex(sl[1..], name);
      if k == -1 then -1
      else
        assert sl[..k + 1] == [sl[0]] + sl[1..][..k];
        k + 1
  }

  /** Being the first occurrence determines FirstIndex. */
  lemma {:induction false} FirstOccurrenceIsFirstIndex(sl: seq<string>, name: string, i: nat)
    requires i < |sl| && sl[i] == name && name !in sl[..i]
    ensures FirstIndex(sl, name) == i
  {
    if i > 0 {
      assert sl[0] == sl[..i][0];
      assert sl[1..][..i - 1] == sl[..i][1..];
      FirstOccurrenceIsFirstIndex(sl[1..], name, i - 1);
    }
  }

  /** `Contains`: a linear scan that stops at the first element equal to `name`
      (exact, case-sensitive comparison) and returns its index, or -1. */
  method Contains(sl: seq<string>, name: string) returns (idx: int)
    ensures -1 <= idx < |sl|
    ensures idx == -1 <==> name !in sl
    ensures 0 <= idx ==> sl[idx] == name && name !in sl[..idx]
    ensures idx == FirstIndex(sl, name)
  {
    var i := 0;
    while i < |sl|
      invariant 0 <= i <= |sl|
      invariant name !in sl[..i]
    {
      if sl[i] == name {
        FirstOccurrenceIsFirstIndex(sl, name, i);
        return i;
      }
      assert sl[..i + 1] == sl[..i] + [sl[i]];
      i := i + 1;
    }
    assert sl[..i] == sl;
    return -1;
  }

  /** The two resolved column positions. */
  datatype Columns = Columns(artist: nat, title: nat)

  /** Column resolution on the header record: the first "Artist" cell, else column 1;
      the first "Title" cell, else column 0; each looked up on its own. */
  function ResolveColumns(header: seq<string>): (c: Columns)
    ensures "Artist" in header ==>
      c.artist < |header| && header[c.artist] == "Artist" && "Artist" !in header[..c.artist]
    ensures "Artist" !in header ==> c.artist == 1
    ensures "Title" in header ==>
      c.title < |header| && header[c.title] == "Title" && "Title" !in header[..c.title]
    ensures "Title" !in header ==> c.title == 0
  {
    var a := FirstIndex(header, "Artist");
    var t := FirstIndex(header, "Title");
    Columns(if a == -1 then 1 else a, if t == -1 then 0 else t)
  }

  // ---------------------------------------------------------------------------
  // Output text

  /** The two output styles; `Plain` is the style `welcomeUser` reports as `true`. */
  datatype Mode = Formatted | Plain

  const FormattedPrefix: string := "/me \U{266C}\U{266A}\U{266B} now playing... \U{2605}\U{2605}\U{250A} "
  const FormattedSuffix: string := " \U{250A}\U{2605}\U{2605}"

  /** The line written for one record whose artist and title cells are given. */
  function Line(mode: Mode, artist: string, title: string): string {
    match mode
    case Plain => artist + " - " + title + "\n"
    case Formatted => FormattedPrefix + artist + " - " + title + FormattedSuffix + "\n"
  }

  /** Indexing `row` at both columns is in range. */
  predicate Fits(row: seq<string>, cols: Columns) {
    cols.artist < |row| && cols.title < |row|
  }

  predicate AllFit(rows: seq<seq<string>>, cols: Columns) {
    forall i | 0 <= i < |rows| :: Fits(rows[i], cols)
  }

  /** `k` is the first record too short for the columns. */
  predicate FirstMisfit(rows: seq<seq<string>>, cols: Columns, k: nat) {
    k < |rows| && !Fits(rows[k], cols) && forall j | 0 <= j < k :: Fits(rows[j], cols)
  }

  function LineOf(mode: Mode, row: seq<string>, cols: Columns): string
    requires Fits(row, cols)
  {
    Line(mode, row[cols.artist], row[cols.title])
  }

  /** The whole output: the records' lines, in record order. */
  function Render(mode: Mode, rows: seq<seq<string>>, cols: Columns): string
    requires AllFit(rows, cols)
  {
    if rows == [] then ""
    else Render(mode, rows[..|rows| - 1], cols) + LineOf(mode, rows[|rows| - 1], cols)
  }

  /** Associativity of string concatenation, stated for use as a proof step. */
  lemma ConcatAssoc(x: string, y: string, z: string)
    ensures (x + y) + z == x + (y + z)
  {
  }

  /** Record lists that fit the columns concatenate and slice to lists that fit. */
  lemma AllFitAppend(a: seq<seq<string>>, b: seq<seq<string>>, cols: Columns)
    requires AllFit(a, cols) && AllFit(b, cols)
    ensures AllFit(a + b, cols)
  {
    forall i | 0 <= i < |a + b| ensures Fits((a + b)[i], cols) {
      if i >= |a| { assert (a + b)[i] == b[i - |a|]; }
    }
  }

  lemma AllFitSlices(rows: seq<seq<string>>, cols: Columns, k: nat)
    requires AllFit(rows, cols) && k <= |rows|
    ensures AllFit(rows[..k], cols) && AllFit(rows[k..], cols)
  {
    forall i | 0 <= i < k ensures Fits(rows[..k][i], cols) { assert rows[..k][i] == rows[i]; }
    forall i | 0 <= i < |rows| - k ensures Fits(rows[k..][i], cols) { assert rows[k..][i] == rows[k + i]; }
  }

  /** Rendering distributes over concatenation of record lists. */
  lemma {:induction false} RenderAppend(mode: Mode, a: seq<seq<string>>, b: seq<seq<string>>, cols: Columns)
    requires AllFit(a, cols) && AllFit(b, cols)
    ensures AllFit(a + b, cols)
    ensures Render(mode, a + b, cols) == Render(mode, a, cols) + Render(mode, b, cols)
  {
    AllFitAppend(a, b, cols);
    if b == [] {
      assert a + b == a;
    } else {
      var b' := b[..|b| - 1];
      AllFitSlices(b, cols, |b| - 1);
      assert (a + b)[..|a + b| - 1] == a + b';
      assert (a + b)[|a + b| - 1] == b[|b| - 1];
      RenderAppend(mode, a, b', cols);
      ConcatAssoc(Render(mode, a, cols), Render(mode, b', cols), LineOf(mode, b[|b| - 1], cols));
    }
  }

  /** Extending the rendered prefix by one record appends that record's line. */
  lemma RenderSnoc(mode: Mode, rows: seq<seq<string>>, cols: Columns, i: nat)
    requires i < |rows| && AllFit(rows[..i], cols) && Fits(rows[i], cols)
    ensures AllFit(rows[..i + 1], cols)
    ensures Render(mode, rows[..i + 1], cols) == Render(mode, rows[..i], cols) + LineOf(mode, rows[i], cols)
  {
    assert rows[..i + 1][..i] == rows[..i];
    forall j | 0 <= j < i ensures Fits(rows[j], cols) {
      assert rows[..i][j] == rows[j];
    }
    assert forall j | 0 <= j < i + 1 :: rows[..i + 1][j] == rows[j];
  }

  /** The first record's line comes first, followed by the rest of the output. */
  lemma RenderFirst(mode: Mode, rows: seq<seq<string>>, cols: Columns)
    requires AllFit(rows, cols) && rows != []
    ensures Render(mode, rows, cols) == LineOf(mode, rows[0], cols) + Render(mode, rows[1..], cols)
  {
    assert rows == [rows[0]] + rows[1..];
    AllFitSlices(rows, cols, 1);
    RenderAppend(mode, [rows[0]], rows[1..], cols);
    assert [rows[0]][..0] == [];
    assert Render(mode, [rows[0]], cols) == "" + LineOf(mode, rows[0], cols);
    assert "" + LineOf(mode, rows[0], cols) == LineOf(mode, rows[0], cols);
  }

  /** Record `k`'s line sits between the lines of the records before and after it. */
  lemma RenderSplitAt(mode: Mode, rows: seq<seq<string>>, cols: Columns, k: nat)
    requires AllFit(rows, cols) && k < |rows|
    ensures AllFit(rows[..k], cols) && AllFit(rows[k + 1..], cols)
    ensures Render(mode, rows, cols)
         == Render(mode, rows[..k], cols) + LineOf(mode, rows[k], cols) + Render(mode, rows[k + 1..], cols)
  {
    AllFitSlices(rows, cols, k);
    AllFitSlices(rows, cols, k + 1);
    assert rows == rows[..k] + rows[k..];
    RenderAppend(mode, rows[..k], rows[k..], cols);
    RenderFirst(mode, rows[k..], cols);
    assert rows[k..][1..] == rows[k + 1..];
  }

  /** The fixed parts of both line templates hold no newline but the final one. */
  lemma PrefixHasNoNewline()
    ensures CountChar(FormattedPrefix, '\n') == 0
  {
    assert '\n' !in FormattedPrefix;
  }

  lemma DecorationsHaveNoNewline()
    ensures CountChar(FormattedPrefix, '\n') == 0 && CountChar(FormattedSuffix, '\n') == 0
    ensures CountChar(" - ", '\n') == 0 && CountChar("\n", '\n') == 1
  {
    PrefixHasNoNewline();
    assert '\n' !in FormattedSuffix;
    assert '\n' !in " - ";
  }

  /** A line holds one newline, at its end, plus those inside the two cells. */
  lemma LineNewlines(mode: Mode, artist: string, title: string)
    ensures var l := Line(mode, artist, title);
      l != [] && l[|l| - 1] == '\n' &&
      CountChar(l, '\n') == CountChar(artist, '\n') + CountChar(title, '\n') + 1
  {
    DecorationsHaveNoNewline();
    match mode
    case Plain =>
      CountCharAppend(artist, " - ", '\n');
      CountCharAppend(artist + " - ", title, '\n');
      CountCharAppend(artist + " - " + title, "\n", '\n');
    case Formatted =>
      CountCharAppend(FormattedPrefix, artist, '\n');
      CountCharAppend(FormattedPrefix + artist, " - ", '\n');
      CountCharAppend(FormattedPrefix + artist + " - ", title, '\n');
      CountCharAppend(FormattedPrefix + artist + " - " + title, FormattedSuffix, '\n');
      CountCharAppend(FormattedPrefix + artist + " - " + title + FormattedSuffix, "\n", '\n');
  }

  /** When no artist or title cell holds a newline, the output has exactly one
      newline per record and, unless empty, ends with one. */
  lemma {:induction false} RenderNewlines(mode: Mode, rows: seq<seq<string>>, cols: Columns)
    requires AllFit(rows, cols)
    requires forall i | 0 <= i < |rows| :: '\n' !in rows[i][cols.artist] && '\n' !in rows[i][cols.title]
    ensures CountChar(Render(mode, rows, cols), '\n') == |rows|
    ensures rows == [] ==> Render(mode, rows, cols) == ""
    ensures rows != [] ==> var out := Render(mode, rows, cols); out != [] && out[|out| - 1] == '\n'
  {
    if rows != [] {
      var init := rows[..|rows| - 1];
      var last := rows[|rows| - 1];
      AllFitSlices(rows, cols, |rows| - 1);
      RenderNewlines(mode, init, cols);
      LineNewlines(mode, last[cols.artist], last[cols.title]);
      CountCharAppend(Render(mode, init, cols), LineOf(mode, last, cols), '\n');
    }
  }

  /** What the formatting loop yields: the text, or the index of the record whose
      indexing ran out of range (a run-time panic in the original). */
  datatype Rendered = Text(text: string) | IndexOutOfRange(row: nat)

  /** The formatting loop: appends one line per record to `output`, in record order. */
  method FormatRows(rows: seq<seq<string>>, cols: Columns, mode: Mode) returns (r: Rendered)
    ensures r.Text? <==> AllFit(rows, cols)
    ensures r.Text? ==> r.text == Render(mode, rows, cols)
    ensures r.IndexOutOfRange? ==> FirstMisfit(rows, cols, r.row)
  {
    var output := "";
    var i := 0;
    while i < |rows|
      invariant 0 <= i <= |rows|
      invariant AllFit(rows[..i], cols)
      invariant output == Render(mode, rows[..i], cols)
    {
      var row := rows[i];
      if !(cols.artist < |row| && cols.title < |row|) {
        assert forall j | 0 <= j < i :: rows[..i][j] == rows[j];
        assert !Fits(rows[i], cols);
        return IndexOutOfRange(i);
      }
      var line;
      if mode == Plain {
        line := row[cols.artist] + " - " + row[cols.title] + "\n";
      } else {
        line := FormattedPrefix + row[cols.artist] + " - " + row[cols.title] + FormattedSuffix + "\n";
      }
      RenderSnoc(mode, rows, cols, i);
      assert line == LineOf(mode, row, cols);
      output := output + line;
      i := i + 1;
    }
    assert rows[..i] == rows;
    return Text(output);
  }

  // ---------------------------------------------------------------------------
  // User input

  /** `cleanUserInput`: newlines removed, lower-cased, surrounding white space trimmed. */
  function Clean(input: string): (r: string)
    ensures '\n' !in r
    ensures forall x | x in r :: !IsAsciiUpper(x)
    ensures r == [] || (!IsSpace(r[0]) && !IsSpace(r[|r| - 1]))
  {
    var removed := RemoveAll(input, '\n');
    ToLowerAt(removed);
    TrimSpaceKeeps(ToLower(removed));
    TrimSpace(ToLower(removed))
  }

  /** Cleaning is idempotent. */
  lemma CleanIdempotent(input: string)
    ensures Clean(Clean(input)) == Clean(input)
  {
    var c := Clean(input);
    RemoveAllAbsent(c, '\n');
    ToLowerAbsent(c);
    TrimSpaceAbsent(c);
  }

  /** A line of nothing but white space (just pressing Enter) cleans to "". */
  lemma BlankCleansToEmpty(input: string)
    requires forall x | x in input :: IsSpace(x)
    ensures Clean(input) == ""
  {
    var removed := RemoveAll(input, '\n');
    var lowered := ToLower(removed);
    ToLowerAt(removed);
    forall x | x in lowered ensures IsSpace(x) {
      var i :| 0 <= i < |removed| && lowered[i] == x;
      RemoveAllKeeps(input, '\n', removed[i]);
      SpaceIsNotUpper(removed[i]);
    }
    TrimSpaceAllSpace(lowered);
  }

  /** What one cleaned answer to the menu prompt does. */
  datatype Choice = Pick(mode: Mode) | Reprompt

  /** The decision inside `welcomeUser`'s loop. */
  function Decide(cleaned: string): (c: Choice)
    ensures c == Pick(Formatted) <==> cleaned == "1" || cleaned == ""
    ensures c == Pick(Plain) <==> cleaned == "2"
    ensures c == Reprompt <==> cleaned != "1" && cleaned != "" && cleaned != "2"
  {
    if cleaned == "1" || cleaned == "" then Pick(Formatted)
    else if cleaned != "2" then Reprompt
    else Pick(Plain)
  }

  /** Formatted is the default: a blank answer selects it. */
  lemma BlankSelectsFormatted(input: string)
    requires forall x | x in input :: IsSpace(x)
    ensures Decide(Clean(input)) == Pick(Formatted)
  {
    BlankCleansToEmpty(input);
  }

  /** White space around an answer, such as the line's own "\n" or "\r\n", is dropped,
      and what is left is the answer lower-cased. */
  lemma CleanSurrounded(w1: string, t: string, w2: string)
    requires forall x | x in w1 :: IsSpace(x)
    requires forall x | x in w2 :: IsSpace(x)
    requires '\n' !in t && (t == [] || (!IsSpace(t[0]) && !IsSpace(t[|t| - 1])))
    ensures Clean(w1 + t + w2) == ToLower(t)
  {
    var u := RemoveAll(w1, '\n');
    var x := RemoveAll(w2, '\n');
    RemoveAllAppend(w1 + t, w2, '\n');
    RemoveAllAppend(w1, t, '\n');
    RemoveAllAbsent(t, '\n');
    assert RemoveAll(w1 + t + w2, '\n') == u + t + x;
    forall y | y in u ensures IsSpace(y) && !IsAsciiUpper(y) {
      RemoveAllKeeps(w1, '\n', y);
      SpaceIsNotUpper(y);
    }
    forall y | y in x ensures IsSpace(y) && !IsAsciiUpper(y) {
      RemoveAllKeeps(w2, '\n', y);
      SpaceIsNotUpper(y);
    }
    ToLowerAppend(u + t, x);
    ToLowerAppend(u, t);
    ToLowerAbsent(u);
    ToLowerAbsent(x);
    ToLowerAt(t);
    if t != [] {
      LowerCharSpace(t[0]);
      LowerCharSpace(t[|t| - 1]);
    }
    TrimSpaceSurrounded(u, ToLower(t), x);
  }

  /** Typing 1 or 2 with white space around it, such as "2\n" or " 2\r\n", picks that style. */
  lemma PaddedAnswerDecides(w1: string, w2: string)
    requires forall x | x in w1 :: IsSpace(x)
    requires forall x | x in w2 :: IsSpace(x)
    ensures Decide(Clean(w1 + "1" + w2)) == Pick(Formatted)
    ensures Decide(Clean(w1 + "2" + w2)) == Pick(Plain)
  {
    CleanSurrounded(w1, "1", w2);
    CleanSurrounded(w1, "2", w2);
  }

  /** The mode chosen by the first decisive line, or None when every line reprompts. */
  function FirstDecision(lines: seq<string>): Option<Mode> {
    if lines == [] then None
    else match Decide(Clean(lines[0]))
      case Pick(m) => Some(m)
      case Reprompt => FirstDecision(lines[1..])
  }

  /** Line `i` is the first line the menu accepts, and it selects `m`. */
  predicate DecidedAt(lines: seq<string>, i: nat, m: Mode) {
    i < |lines| && Decide(Clean(lines[i])) == Pick(m)
    && forall j | 0 <= j < i :: Decide(Clean(lines[j])) == Reprompt
  }

  /** The first line the menu accepts decides the mode; later lines are never read. */
  lemma {:induction false} FirstDecisionAt(lines: seq<string>, i: nat, m: Mode)
    requires DecidedAt(lines, i, m)
    ensures FirstDecision(lines) == Some(m)
  {
    if i > 0 {
      var rest := lines[1..];
      assert Decide(Clean(lines[0])) == Reprompt;
      forall j | 0 <= j < i - 1 ensures Decide(Clean(rest[j])) == Reprompt {
        assert rest[j] == lines[j + 1];
      }
      FirstDecisionAt(rest, i - 1, m);
    }
  }

  /** The menu gives up (input exhausted) exactly when every line was rejected. */
  lemma {:induction false} FirstDecisionNone(lines: seq<string>)
    ensures FirstDecision(lines) == None
        <==> forall i | 0 <= i < |lines| :: Decide(Clean(lines[i])) == Reprompt
  {
    if lines != [] {
      FirstDecisionNone(lines[1..]);
      assert forall i | 1 <= i < |lines| :: lines[i] == lines[1..][i - 1];
    }
  }

  /** `welcomeUser`'s loop over the lines read from standard input: reprompt on
      anything but "1", "" or "2"; running out of input is an input error (None). */
  method WelcomeUser(lines: seq<string>) returns (r: Option<Mode>)
    ensures r == FirstDecision(lines)
  {
    var i := 0;
    while i < |lines|
      invariant 0 <= i <= |lines|
      invariant FirstDecision(lines) == FirstDecision(lines[i..])
    {
      var userInput := Clean(lines[i]);
      if userInput == "1" || userInput == "" {
        return Some(Formatted);
      } else if userInput != "2" {
        assert lines[i..][1..] == lines[i + 1..];
      } else {
        return Some(Plain);
      }
      i := i + 1;
    }
    return None;
  }

  // ---------------------------------------------------------------------------
  // The whole run

  /** Fatal errors; each ends the process with exit status 1. */
  datatype Fatal = BadExtension | OpenFailed | NoFirstRow | NoSecondRow | InputError

  /** How a run ends: a fatal error, a panic on a short record, or the text and the
      mode that are handed to the output stage. */
  datatype Outcome = Exit(reason: Fatal) | Panic(row: nat) | Done(mode: Mode, output: string)

  /** `main` from the path check to the formatting loop. `file` is the parsed CSV
      records, or None when the file cannot be opened; `lines` are the answers
      typed at the menu. Row `Panic(k)` counts data records, after the two header records. */
  method Run(csvPath: string, file: Option<seq<seq<string>>>, lines: seq<string>) returns (r: Outcome)
    ensures !HasSuffix(csvPath, ".csv") ==> r == Exit(BadExtension)
    ensures HasSuffix(csvPath, ".csv") && file.None? ==> r == Exit(OpenFailed)
    ensures HasSuffix(csvPath, ".csv") && file.Some? && |file.value| == 0 ==> r == Exit(NoFirstRow)
    ensures HasSuffix(csvPath, ".csv") && file.Some? && |file.value| == 1 ==> r == Exit(NoSecondRow)
    ensures HasSuffix(csvPath, ".csv") && file.Some? && |file.value| >= 2 && FirstDecision(lines).None?
      ==> r == Exit(InputError)
    ensures HasSuffix(csvPath, ".csv") && file.Some? && |file.value| >= 2 && FirstDecision(lines).Some? ==>
      var rows, cols, mode := file.value[2..], ResolveColumns(file.value[1]), FirstDecision(lines).value;
      (r.Done? <==> AllFit(rows, cols))
      && (r.Done? ==> r.mode == mode && r.output == Render(mode, rows, cols))
      && (!r.Done? ==> r.Panic? && FirstMisfit(rows, cols, r.row))
  {
    if !HasSuffix(csvPath, ".csv") {
      return Exit(BadExtension);
    }
    if file.None? {
      return Exit(OpenFailed);
    }
    var records := file.value;
    if |records| == 0 {
      return Exit(NoFirstRow);
    }
    if |records| == 1 {
      return Exit(NoSecondRow);
    }
    var row := records[1];
    var artistIndex := Contains(row, "Artist");
    if artistIndex == -1 {
      artistIndex := 1;
    }
    var titleIndex := Contains(row, "Title");
    if titleIndex == -1 {
      titleIndex := 0;
    }
    var choice := WelcomeUser(lines);
    if choice.None? {
      return Exit(InputError);
    }
    var rendered := FormatRows(records[2..], Columns(artistIndex, titleIndex), choice.value);
    match rendered
    case Text(output) => r := Done(choice.value, output);
    case IndexOutOfRange(k) => r := Panic(k);
  }

  /** Header lookup compares exactly: a lower-case header is not recognised, so
      both columns fall back to their defaults. */
  lemma LookupIsCaseSensitive()
    ensures ResolveColumns(["title", "artist"]) == Columns(1, 0)
  {
    assert "Artist" != "artist" && "Artist" != "title";
    assert "Title" != "title" && "Title" != "artist";
    assert "Artist" !in ["title", "artist"];
    assert "Title" !in ["title", "artist"];
  }

  /** Example: header "Title","Artist" and one record. */
  lemma PlainExample()
    ensures var cols := ResolveColumns(["Title", "Artist"]);
      cols == Columns(1, 0) && AllFit([["Song A", "Artist A"]], cols)
      && Render(Plain, [["Song A", "Artist A"]], cols) == "Artist A - Song A\n"
  {
    assert ["Title", "Artist"][0] == "Title";
    assert ["Title", "Artist"][1] == "Artist";
    assert ["Title", "Artist"][..1] == ["Title"];
    var cols := ResolveColumns(["Title", "Artist"]);
    assert cols == Columns(1, 0);
    assert [["Song A", "Artist A"]][..0] == [];
  }
}
