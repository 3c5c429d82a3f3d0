/** CSV export and import of struct rows (Serialization.cpp). Properties are
  * values of a type P and objects of a type O; the foreign parts are
  * parameters: a property's name and its text form in an object (Export),
  * the rows FCsvParser yields, FindPropertyByName, and what ImportText
  * reports for a cell (Import). */
module Serialization {
  import opened Wrappers

  // ---------------------------------------------------------------------
  // Quote escaping.

  /** GetCSVSanitizedString (Serialization.cpp:35-40): every `"` becomes
    * `""`, the escape of section 2, item 7 of RFC 4180. */
  function GetCSVSanitizedString(s: string): (r: string)
    ensures |r| == |s| + multiset(s)['"']
  {
    if |s| == 0 then ""
    else
      assert s == [s[0]] + s[1..];
      (if s[0] == '"' then "\"\"" else [s[0]]) + GetCSVSanitizedString(s[1..])
  }

  /** Escaping adds quotes only: every other character occurs as often as
    * before. */
  lemma {:induction false} SanitizeKeepsOtherCharacters(s: string, c: char)
    requires c != '"'
    ensures multiset(GetCSVSanitizedString(s))[c] == multiset(s)[c]
  {
    if |s| > 0 {
      SanitizeKeepsOtherCharacters(s[1..], c);
      assert s == [s[0]] + s[1..];
    }
  }

  /** Reads the rest of an enclosed field after its opening quote: `""`
    * stands for a quote and a lone `"` closes the field. The field's value
    * and the text after the closing quote. */
  function ReadEnclosed(t: string): (r: Option<(string, string)>)
    ensures r.Some? ==> |r.value.1| < |t|
  {
    if |t| == 0 then None
    else if t[0] == '"' then
      if |t| > 1 && t[1] == '"' then
        match ReadEnclosed(t[2..])
        case None => None
        case Some((v, rest)) => Some(("\"" + v, rest))
      else Some(("", t[1..]))
    else
      match ReadEnclosed(t[1..])
      case None => None
      case Some((v, rest)) => Some(([t[0]] + v, rest))
  }

  /** An escaped value closed by a quote reads back as the value itself,
    * whatever follows unless it is another quote. */
  lemma {:induction false} ReadSanitized(s: string, rest: string)
    requires |rest| == 0 || rest[0] != '"'
    ensures ReadEnclosed(GetCSVSanitizedString(s) + "\"" + rest) == Some((s, rest))
  {
    if |s| > 0 {
      ReadSanitized(s[1..], rest);
      var tail := GetCSVSanitizedString(s[1..]) + "\"" + rest;
      SanitizeStep(s, rest);
      if s[0] == '"' {
        ReadQuotePair(tail);
      } else {
        ReadPlainChar(s[0], tail);
      }
      assert s == [s[0]] + s[1..];
    } else {
      assert (GetCSVSanitizedString(s) + "\"" + rest)[1..] == rest;
    }
  }

  lemma SanitizeStep(s: string, rest: string)
    requires |s| > 0
    ensures GetCSVSanitizedString(s) + "\"" + rest ==
      (if s[0] == '"' then "\"\"" else [s[0]]) + (GetCSVSanitizedString(s[1..]) + "\"" + rest)
  {
    var head: string := if s[0] == '"' then "\"\"" else [s[0]];
    var x := GetCSVSanitizedString(s[1..]);
    assert GetCSVSanitizedString(s) == head + x;
    Regroup(head, x, "\"", rest);
  }

  lemma Regroup<T>(a: seq<T>, b: seq<T>, c: seq<T>, d: seq<T>)
    ensures a + b + c + d == a + (b + c + d)
  {
    assert a + b + c + d == a + (b + c + d) by {
      assert |a + b + c + d| == |a + (b + c + d)|;
      forall i | 0 <= i < |a + b + c + d|
        ensures (a + b + c + d)[i] == (a + (b + c + d))[i]
      {
      }
    }
  }

  lemma ReadQuotePair(tail: string)
    ensures ReadEnclosed("\"\"" + tail) ==
      match ReadEnclosed(tail)
      case None => None
      case Some((v, rest)) => Some(("\"" + v, rest))
  {
    assert ("\"\"" + tail)[2..] == tail;
  }

  lemma ReadPlainChar(c: char, tail: string)
    requires c != '"'
    ensures ReadEnclosed([c] + tail) ==
      match ReadEnclosed(tail)
      case None => None
      case Some((v, rest)) => Some(([c] + v, rest))
  {
    assert ([c] + tail)[1..] == tail;
  }

  /** Escaping is injective: different values never export alike. */
  lemma SanitizeIsInjective(a: string, b: string)
    requires GetCSVSanitizedString(a) == GetCSVSanitizedString(b)
    ensures a == b
  {
    ReadSanitized(a, "");
    ReadSanitized(b, "");
  }

  // ---------------------------------------------------------------------
  // Export.

  /** The strings of a sequence, one after the other. */
  function Concat(ss: seq<string>): string
  {
    if |ss| == 0 then "" else ss[0] + Concat(ss[1..])
  }

  lemma {:induction false} ConcatAppend(a: seq<string>, b: seq<string>)
    ensures Concat(a + b) == Concat(a) + Concat(b)
  {
    if |a| > 0 {
      ConcatAppend(a[1..], b);
      assert (a + b)[1..] == a[1..] + b;
    } else {
      assert a + b == b;
    }
  }

  lemma ConcatStep(ss: seq<string>, i: nat)
    requires i < |ss|
    ensures Concat(ss[..i + 1]) == Concat(ss[..i]) + ss[i]
  {
    assert ss[..i + 1] == ss[..i] + [ss[i]];
    ConcatAppend(ss[..i], [ss[i]]);
    assert Concat([ss[i]]) == ss[i] + Concat([]);
  }

  /** The header cells (Serialization.cpp:46-52): each property name
    * followed by a comma. */
  function HeaderCells<P>(props: seq<P>, nameOf: P -> string): (r: seq<string>)
    ensures |r| == |props|
  {
    seq(|props|, k requires 0 <= k < |props| => nameOf(props[k]) + ",")
  }

  /** The cells of one object's row (Serialization.cpp:58-65): each
    * property's text, escaped and enclosed in quotes, then a comma. */
  function RowCells<P, O>(props: seq<P>, obj: O, serialize: (P, O) -> string): (r: seq<string>)
    ensures |r| == |props|
  {
    seq(|props|, k requires 0 <= k < |props| => "\"" + GetCSVSanitizedString(serialize(props[k], obj)) + "\",")
  }

  /** One line per object, in order, after the header line. */
  function RowLines<P, O>(props: seq<P>, objects: seq<O>, serialize: (P, O) -> string): (r: seq<string>)
    ensures |r| == |objects|
  {
    seq(|objects|, j requires 0 <= j < |objects| => Concat(RowCells(props, objects[j], serialize)) + "\n")
  }

  /** The whole export: the header line, then the row lines. */
  function ExportText<P, O>(props: seq<P>, nameOf: P -> string, objects: seq<O>, serialize: (P, O) -> string): string
  {
    Concat(HeaderCells(props, nameOf)) + "\n" + Concat(RowLines(props, objects, serialize))
  }

  /** ExportToCSV (Serialization.cpp:42-71): the string builder loops. */
  method ExportToCSV<P, O>(props: seq<P>, nameOf: P -> string, objects: seq<O>, serialize: (P, O) -> string)
    returns (csv: string)
    ensures csv == ExportText(props, nameOf, objects, serialize)
  {
    var header := HeaderCells(props, nameOf);
    csv := "";
    for i := 0 to |props|
      invariant csv == Concat(header[..i])
    {
      ConcatStep(header, i);
      csv := csv + nameOf(props[i]) + ",";
    }
    assert header[..|props|] == header;
    csv := csv + "\n";
    ghost var headerLine := csv;
    var lines := RowLines(props, objects, serialize);
    for j := 0 to |objects|
      invariant csv == headerLine + Concat(lines[..j])
    {
      var line := AppendRow(props, objects[j], serialize);
      ConcatStep(lines, j);
      csv := csv + line;
    }
    assert lines[..|objects|] == lines;
  }

  /** The inner loop of Serialization.cpp:58-67 for one object. */
  method AppendRow<P, O>(props: seq<P>, obj: O, serialize: (P, O) -> string) returns (line: string)
    ensures line == Concat(RowCells(props, obj, serialize)) + "\n"
  {
    var cells := RowCells(props, obj, serialize);
    line := "";
    for i := 0 to |props|
      invariant line == Concat(cells[..i])
    {
      ConcatStep(cells, i);
      line := line + "\"" + GetCSVSanitizedString(serialize(props[i], obj)) + "\",";
    }
    assert cells[..|props|] == cells;
    line := line + "\n";
  }

  /** Reads a line of enclosed cells, each followed by a comma, up to the
    * newline: the values and the text after the line. */
  function ReadRow(t: string): (r: Option<(seq<string>, string)>)
    ensures r.Some? ==> |r.value.1| < |t|
    decreases |t|
  {
    if |t| == 0 then None
    else if t[0] == '\n' then Some(([], t[1..]))
    else if t[0] != '"' then None
    else
      match ReadEnclosed(t[1..])
      case None => None
      case Some((v, rest)) =>
        if |rest| == 0 || rest[0] != ',' then None
        else
          match ReadRow(rest[1..])
          case None => None
          case Some((vs, after)) => Some(([v] + vs, after))
  }

  /** The property texts of one object. */
  function Values<P, O>(props: seq<P>, obj: O, serialize: (P, O) -> string): (r: seq<string>)
    ensures |r| == |props| && forall k :: 0 <= k < |props| ==> r[k] == serialize(props[k], obj)
  {
    seq(|props|, k requires 0 <= k < |props| => serialize(props[k], obj))
  }

  /** Every exported row reads back, under the quoting rules of RFC 4180,
    * as exactly the texts of its object's properties, in property order. */
  lemma {:induction false} RowRoundTrip<P, O>(props: seq<P>, obj: O, serialize: (P, O) -> string, rest: string)
    ensures ReadRow(Concat(RowCells(props, obj, serialize)) + "\n" + rest) == Some((Values(props, obj, serialize), rest))
    decreases |props|
  {
    if |props| == 0 {
      assert ("" + "\n" + rest)[1..] == rest;
    } else {
      RowCellsSplit(props, obj, serialize, rest);
      ReadCell(serialize(props[0], obj), Concat(RowCells(props[1..], obj, serialize)) + "\n" + rest);
      RowRoundTrip(props[1..], obj, serialize, rest);
      assert Values(props, obj, serialize) == [serialize(props[0], obj)] + Values(props[1..], obj, serialize);
    }
  }

  lemma RowCellsSplit<P, O>(props: seq<P>, obj: O, serialize: (P, O) -> string, rest: string)
    requires |props| > 0
    ensures Concat(RowCells(props, obj, serialize)) + "\n" + rest ==
      "\"" + GetCSVSanitizedString(serialize(props[0], obj)) + "\"," + (Concat(RowCells(props[1..], obj, serialize)) + "\n" + rest)
  {
    assert RowCells(props[1..], obj, serialize) == RowCells(props, obj, serialize)[1..];
  }

  /** One enclosed cell and its comma, then the rest of the line. */
  lemma ReadCell(v: string, tail: string)
    ensures ReadRow("\"" + GetCSVSanitizedString(v) + "\"," + tail) ==
      match ReadRow(tail)
      case None => None
      case Some((vs, after)) => Some(([v] + vs, after))
  {
    var t := "\"" + GetCSVSanitizedString(v) + "\"," + tail;
    assert t[1..] == GetCSVSanitizedString(v) + "\"" + ("," + tail);
    ReadSanitized(v, "," + tail);
    assert ("," + tail)[1..] == tail;
  }

  /** Reads a line of cells, each ended by a comma, up to the newline. */
  function ReadHeader(t: string): Option<(seq<string>, string)>
    decreases |t|
  {
    if |t| == 0 then None
    else if t[0] == '\n' then Some(([], t[1..]))
    else
      match ReadPlain(t)
      case None => None
      case Some((name, rest)) =>
        match ReadHeader(rest)
        case None => None
        case Some((names, after)) => Some(([name] + names, after))
  }

  /** A cell up to and without its comma; the text after the comma. */
  function ReadPlain(t: string): (r: Option<(string, string)>)
    ensures r.Some? ==> |r.value.1| < |t|
  {
    if |t| == 0 || t[0] == '\n' then None
    else if t[0] == ',' then Some(("", t[1..]))
    else
      match ReadPlain(t[1..])
      case None => None
      case Some((v, rest)) => Some(([t[0]] + v, rest))
  }

  predicate PlainName(name: string)
  {
    forall k :: 0 <= k < |name| ==> name[k] != ',' && name[k] != '\n'
  }

  lemma {:induction false} ReadPlainName(name: string, rest: string)
    requires PlainName(name)
    ensures ReadPlain(name + "," + rest) == Some((name, rest))
  {
    if |name| > 0 {
      ReadPlainName(name[1..], rest);
      assert (name + "," + rest)[1..] == name[1..] + "," + rest;
      assert name == [name[0]] + name[1..];
    } else {
      assert (name + "," + rest)[1..] == rest;
    }
  }

  /** The header line reads back as the property names when no name holds
    * a comma or a newline, as property names do not. */
  lemma {:induction false} HeaderRoundTrip<P>(props: seq<P>, nameOf: P -> string, rest: string)
    requires forall k :: 0 <= k < |props| ==> PlainName(nameOf(props[k]))
    ensures ReadHeader(Concat(HeaderCells(props, nameOf)) + "\n" + rest) ==
      Some((seq(|props|, k requires 0 <= k < |props| => nameOf(props[k])), rest))
    decreases |props|
  {
    var cells := HeaderCells(props, nameOf);
    if |props| == 0 {
      assert (Concat(cells) + "\n" + rest)[1..] == rest;
    } else {
      var tail := Concat(HeaderCells(props[1..], nameOf)) + "\n" + rest;
      assert HeaderCells(props[1..], nameOf) == cells[1..];
      assert Concat(cells) + "\n" + rest == nameOf(props[0]) + "," + tail;
      ReadPlainName(nameOf(props[0]), tail);
      HeaderRoundTrip(props[1..], nameOf, rest);
      if |nameOf(props[0])| == 0 {
        assert (nameOf(props[0]) + "," + tail)[0] == ',';
      } else {
        assert (nameOf(props[0]) + "," + tail)[0] == nameOf(props[0])[0];
      }
      assert seq(|props|, k requires 0 <= k < |props| => nameOf(props[k])) ==
        [nameOf(props[0])] + seq(|props| - 1, k requires 0 <= k < |props| - 1 => nameOf(props[1..][k]));
    }
  }

  /** Reads lines of enclosed cells up to the end of the text. */
  function ReadRows(t: string): Option<seq<seq<string>>>
    decreases |t|
  {
    if |t| == 0 then Some([])
    else
      match ReadRow(t)
      case None => None
      case Some((vs, after)) =>
        match ReadRows(after)
        case None => None
        case Some(rows) => Some([vs] + rows)
  }

  /** The whole export reads back as the property names, then one line
    * per object, in object order, holding that object's property texts. */
  lemma ExportRoundTrip<P, O>(props: seq<P>, nameOf: P -> string, objects: seq<O>, serialize: (P, O) -> string)
    requires forall k :: 0 <= k < |props| ==> PlainName(nameOf(props[k]))
    ensures ReadHeader(ExportText(props, nameOf, objects, serialize)) ==
      Some((seq(|props|, k requires 0 <= k < |props| => nameOf(props[k])), Concat(RowLines(props, objects, serialize))))
    ensures ReadRows(Concat(RowLines(props, objects, serialize))) ==
      Some(ObjectValues(props, objects, serialize))
  {
    HeaderRoundTrip(props, nameOf, Concat(RowLines(props, objects, serialize)));
    RowsRoundTrip(props, objects, serialize);
  }

  lemma {:induction false} RowsRoundTrip<P, O>(props: seq<P>, objects: seq<O>, serialize: (P, O) -> string)
    ensures ReadRows(Concat(RowLines(props, objects, serialize))) ==
      Some(ObjectValues(props, objects, serialize))
    decreases |objects|
  {
    if |objects| == 0 {
      assert RowLines(props, objects, serialize) == [];
      assert ObjectValues(props, objects, serialize) == [];
    } else {
      var lines := RowLines(props, objects, serialize);
      assert RowLines(props, objects[1..], serialize) == lines[1..];
      var tail := Concat(lines[1..]);
      RowRoundTrip(props, objects[0], serialize, tail);
      assert Concat(lines) == Concat(RowCells(props, objects[0], serialize)) + "\n" + tail;
      RowsRoundTrip(props, objects[1..], serialize);
      assert |Concat(lines)| > 0;
      assert ReadRows(Concat(lines)) == Some([Values(props, objects[0], serialize)] +
        ReadRows(tail).value);
      ObjectValuesStep(props, objects, serialize);
    }
  }

  /** The property texts of each object, in object order. */
  function ObjectValues<P, O>(props: seq<P>, objects: seq<O>, serialize: (P, O) -> string): seq<seq<string>>
  {
    seq(|objects|, j requires 0 <= j < |objects| => Values(props, objects[j], serialize))
  }

  lemma ObjectValuesStep<P, O>(props: seq<P>, objects: seq<O>, serialize: (P, O) -> string)
    requires |objects| > 0
    ensures ObjectValues(props, objects, serialize) ==
      [Values(props, objects[0], serialize)] + ObjectValues(props, objects[1..], serialize)
  {
  }

  // ---------------------------------------------------------------------
  // Import.

  /** EImportResult. */
  datatype ImportResult = Success | Warning | Error | CancelledByUser

  /** What logging the import writes to the output device, with the line
    * and column numbers counted from 1. */
  datatype Message =
    | EmptyInput
    | InvalidColumnName(name: string)
    | ColumnCount(line: nat, expected: nat, got: nat)
    | ExpectedEmptyColumn(line: nat, column: nat)
    | PropertyImportFailed(line: nat, column: nat)
    | TrailingText(line: nat, column: nat, text: string)
  {
    /** Errors end the import; warnings skip one line. */
    predicate IsError()
    {
      EmptyInput? || InvalidColumnName?
    }
  }

  /** What FProperty::ImportText_Direct did with a cell: the number of
    * messages worse than Log it wrote (counted by FOutputDeviceStatsWrapper)
    * and the text it left unparsed. */
  datatype PropertyImport = PropertyImport(messagesWorseThanLog: nat, remaining: string)

  /** The foreign property operations: FindPropertyByName, whether a
    * property is an FTextProperty, and what importing a cell into a
    * non-text property reports. */
  datatype Properties<!P> = Properties(
    find: string -> Option<P>,
    isText: P -> bool,
    importText: (P, string) -> PropertyImport)

  /** The value a callback receives: the properties the row's cells were
    * imported into, with their cells, in column order. */
  type Assignments<P> = seq<(P, string)>

  /** A call of LineCallback: the data row (0 is the header) and the
    * object's contents. */
  datatype Call<P> = Call(row: nat, assignments: Assignments<P>)

  // The column-count warning.

  /** The column-count message as written (Serialization.cpp:159-164): the
    * row's cell count is passed where the message says "Expected" and the
    * header's column count where it says "got". */
  function ColumnCountMessageAsWritten(line: nat, numCells: nat, numColumns: nat): (m: Message)
    ensures m.ColumnCount? && m.line == line && m.expected == numCells && m.got == numColumns
  {
    ColumnCount(line, numCells, numColumns)
  }

  /** The message with the numbers where the text puts them. */
  function ColumnCountMessage(line: nat, numCells: nat, numColumns: nat): (m: Message)
    ensures m.ColumnCount? && m.line == line && m.expected == numColumns && m.got == numCells
  {
    ColumnCount(line, numColumns, numCells)
  }

  /** A two-cell line under a three-column header: as written the warning
    * says 2 were expected and 3 found. */
  lemma ColumnCountMessageSwapsCounts()
    ensures ColumnCountMessageAsWritten(3, 2, 3).expected == 2 && ColumnCountMessageAsWritten(3, 2, 3).got == 3
    ensures ColumnCountMessage(3, 2, 3).expected == 3 && ColumnCountMessage(3, 2, 3).got == 2
  {
  }

  // Header and rows.

  /** The header mapping (Serialization.cpp:114-135): an empty cell marks
    * a column to ignore, any other cell must name a property; the first
    * unknown name ends the mapping. */
  function HeaderColumns<P>(header: seq<string>, props: Properties<P>): (r: Result<seq<Option<P>>>)
    ensures r.Ok? <==> forall i :: 0 <= i < |header| && header[i] != "" ==> props.find(header[i]).Some?
    ensures r.Ok? ==> |r.value| == |header| && forall i :: 0 <= i < |header| ==>
      r.value[i] == if header[i] == "" then None else props.find(header[i])
    ensures r.Failed? ==> exists i :: 0 <= i < |header| && header[i] == r.name && header[i] != "" && props.find(header[i]).None?
    decreases |header|
  {
    if |header| == 0 then Ok([])
    else if header[0] != "" && props.find(header[0]).None? then Failed(header[0])
    else
      match HeaderColumns(header[1..], props)
      case Failed(name) => Failed(name)
      case Ok(columns) => Ok([if header[0] == "" then None else props.find(header[0])] + columns)
  }

  /** The outcome of the header mapping: the columns, or the first name
    * that is no property. */
  datatype Result<T> = Ok(value: T) | Failed(name: string)

  /** One line's import. */
  datatype RowResult<P> = Accepted(assignments: Assignments<P>) | Skipped(message: Message)

  /** The cell loop of Serialization.cpp:169-240 from column k on: an
    * ignored column needs an empty cell; a text property takes the cell as
    * it is; any other property must import it without complaint and
    * without leaving text behind. */
  function ImportCells<P>(columns: seq<Option<P>>, row: seq<string>, k: nat, line: nat, props: Properties<P>): RowResult<P>
    requires |row| == |columns| && k <= |row|
    decreases |row| - k
  {
    if k == |row| then Accepted([])
    else
      match CellResult(columns[k], row[k], k, line, props)
      case Some(message) => Skipped(message)
      case None =>
        match ImportCells(columns, row, k + 1, line, props)
        case Skipped(message) => Skipped(message)
        case Accepted(rest) => Accepted((if columns[k].Some? then [(columns[k].value, row[k])] else []) + rest)
  }

  /** The complaint about one cell, if any. */
  function CellResult<P>(column: Option<P>, cell: string, k: nat, line: nat, props: Properties<P>): Option<Message>
  {
    match column
    case None => if cell != "" then Some(ExpectedEmptyColumn(line, k + 1)) else None
    case Some(p) =>
      if props.isText(p) then None
      else
        var imported := props.importText(p, cell);
        if imported.messagesWorseThanLog > 0 then Some(PropertyImportFailed(line, k + 1))
        else if imported.remaining != "" then Some(TrailingText(line, k + 1, imported.remaining))
        else None
  }

  /** One data row (Serialization.cpp:153-242); `line` is its number from 1. */
  function ImportRow<P>(columns: seq<Option<P>>, row: seq<string>, line: nat, props: Properties<P>): RowResult<P>
  {
    if |row| != |columns| then Skipped(ColumnCountMessageAsWritten(line, |row|, |columns|))
    else ImportCells(columns, row, 0, line, props)
  }

  /** The cells written into the object, in column order, for the
    * non-ignored columns. */
  function Imported<P>(columns: seq<Option<P>>, row: seq<string>, k: nat): Assignments<P>
    requires |row| == |columns| && k <= |row|
    decreases |row| - k
  {
    if k == |row| then []
    else (if columns[k].Some? then [(columns[k].value, row[k])] else []) + Imported(columns, row, k + 1)
  }

  /** A line is accepted exactly when its cell count matches the header
    * and no cell draws a complaint; the object then holds the cells of the
    * non-ignored columns. */
  lemma {:induction false} ImportCellsMeaning<P>(columns: seq<Option<P>>, row: seq<string>, k: nat, line: nat, props: Properties<P>)
    requires |row| == |columns| && k <= |row|
    ensures ImportCells(columns, row, k, line, props).Accepted? <==>
      forall i :: k <= i < |row| ==> CellResult(columns[i], row[i], i, line, props).None?
    ensures ImportCells(columns, row, k, line, props).Accepted? ==>
      ImportCells(columns, row, k, line, props).assignments == Imported(columns, row, k)
    ensures ImportCells(columns, row, k, line, props).Skipped? ==>
      exists i :: k <= i < |row| && CellResult(columns[i], row[i], i, line, props) == Some(ImportCells(columns, row, k, line, props).message)
    decreases |row| - k
  {
    if k < |row| {
      ImportCellsMeaning(columns, row, k + 1, line, props);
    }
  }

  /** What a cell's complaint is: a non-empty cell in an ignored column,
    * a non-text property whose import logs worse than Log, or one that
    * leaves text behind. */
  lemma CellResultMeaning<P>(column: Option<P>, cell: string, k: nat, line: nat, props: Properties<P>)
    ensures CellResult(column, cell, k, line, props).None? <==>
      match column
      case None => cell == ""
      case Some(p) => props.isText(p) || (props.importText(p, cell).messagesWorseThanLog == 0 && props.importText(p, cell).remaining == "")
  {
  }

  // The row loop.

  /** The state of the row loop: whether the slow task cancelled, whether
    * a line was skipped, the callbacks made and the messages logged. */
  datatype Progress<P> = Progress(cancelled: bool, skipped: bool, calls: seq<Call<P>>, messages: seq<Message>)

  /** The row loop (Serialization.cpp:140-245) over rows 1 to n - 1. The
    * slow task is asked before each row (tick r before row r) and a
    * cancellation ends the loop. */
  function ImportRows<P>(columns: seq<Option<P>>, rows: seq<seq<string>>, n: nat, props: Properties<P>, cancels: nat -> bool): Progress<P>
    requires n <= |rows|
  {
    if n <= 1 then Progress(false, false, [], [])
    else
      var before := ImportRows(columns, rows, n - 1, props, cancels);
      if before.cancelled then before
      else if cancels(n - 1) then before.(cancelled := true)
      else
        match ImportRow(columns, rows[n - 1], n, props)
        case Skipped(message) => before.(skipped := true, messages := before.messages + [message])
        case Accepted(assignments) => before.(calls := before.calls + [Call(n - 1, assignments)])
  }

  /** What ImportFromCSV returns, the callbacks it makes and what it logs. */
  datatype ImportOutcome<P> = ImportOutcome(result: ImportResult, calls: seq<Call<P>>, messages: seq<Message>)

  /** ImportFromCSV (Serialization.cpp:73-248) over the parser's rows.
    * `cancels(t)` says whether the slow task asks to cancel at its t-th
    * tick; without a slow task it never does. */
  function Import<P>(rows: seq<seq<string>>, props: Properties<P>, cancels: nat -> bool): ImportOutcome<P>
  {
    if |rows| == 0 then ImportOutcome(Error, [], [EmptyInput])
    else if cancels(0) then ImportOutcome(CancelledByUser, [], [])
    else
      match HeaderColumns(rows[0], props)
      case Failed(name) => ImportOutcome(Error, [], [InvalidColumnName(name)])
      case Ok(columns) =>
        var progress := ImportRows(columns, rows, |rows|, props, cancels);
        ImportOutcome(if progress.cancelled then CancelledByUser else if progress.skipped then Warning else Success,
                      progress.calls, progress.messages)
  }

  predicate NeverCancels(cancels: nat -> bool, n: nat)
  {
    forall t: nat :: t < n ==> !cancels(t)
  }

  /** The callbacks, the skip flag and the messages of an uncancelled row
    * loop: one call per accepted line in line order, and a skip exactly
    * when some line was skipped. */
  lemma {:induction false} ImportRowsMeaning<P>(columns: seq<Option<P>>, rows: seq<seq<string>>, n: nat, props: Properties<P>, cancels: nat -> bool)
    requires n <= |rows| && NeverCancels(cancels, n)
    ensures !ImportRows(columns, rows, n, props, cancels).cancelled
    ensures ImportRows(columns, rows, n, props, cancels).skipped <==>
      exists r :: 1 <= r < n && ImportRow(columns, rows[r], r + 1, props).Skipped?
    ensures ImportRows(columns, rows, n, props, cancels).calls == AcceptedCalls(columns, rows, n, props)
    ensures forall m :: m in ImportRows(columns, rows, n, props, cancels).messages ==> !m.IsError()
    decreases n
  {
    if n > 1 {
      ImportRowsMeaning(columns, rows, n - 1, props, cancels);
      var before := ImportRows(columns, rows, n - 1, props, cancels);
      assert !cancels(n - 1);
      match ImportRow(columns, rows[n - 1], n, props)
      case Skipped(message) =>
        assert !message.IsError() by {
          if |rows[n - 1]| == |columns| {
            ImportCellsMeaning(columns, rows[n - 1], 0, n, props);
          }
        }
      case Accepted(_) =>
    }
  }

  /** The reference for the callbacks: a call for each accepted line,
    * in line order. */
  function AcceptedCalls<P>(columns: seq<Option<P>>, rows: seq<seq<string>>, n: nat, props: Properties<P>): seq<Call<P>>
    requires n <= |rows|
  {
    if n <= 1 then []
    else
      AcceptedCalls(columns, rows, n - 1, props) +
        match ImportRow(columns, rows[n - 1], n, props)
        case Accepted(assignments) => [Call(n - 1, assignments)]
        case Skipped(_) => []
  }

  /** Every call is for an accepted line, with that line's object, the
    * lines strictly increase, and every accepted line has its call. */
  lemma {:induction false} AcceptedCallsMeaning<P>(columns: seq<Option<P>>, rows: seq<seq<string>>, n: nat, props: Properties<P>)
    requires n <= |rows|
    ensures forall k :: 0 <= k < |AcceptedCalls(columns, rows, n, props)| ==>
      var call := AcceptedCalls(columns, rows, n, props)[k];
      1 <= call.row < n && ImportRow(columns, rows[call.row], call.row + 1, props) == Accepted(call.assignments)
    ensures forall k, l :: 0 <= k < l < |AcceptedCalls(columns, rows, n, props)| ==>
      AcceptedCalls(columns, rows, n, props)[k].row < AcceptedCalls(columns, rows, n, props)[l].row
    ensures forall r :: 1 <= r < n && ImportRow(columns, rows[r], r + 1, props).Accepted? ==>
      Call(r, ImportRow(columns, rows[r], r + 1, props).assignments) in AcceptedCalls(columns, rows, n, props)
  {
    AcceptedCallsValid(columns, rows, n, props);
    AcceptedCallsOrdered(columns, rows, n, props);
    AcceptedCallsComplete(columns, rows, n, props);
  }

  /** The calls after the first n - 1 rows, then row n - 1's call if any. */
  lemma AcceptedCallsUnfold<P>(columns: seq<Option<P>>, rows: seq<seq<string>>, n: nat, props: Properties<P>)
    requires 1 < n <= |rows|
    ensures AcceptedCalls(columns, rows, n, props) == AcceptedCalls(columns, rows, n - 1, props) +
      match ImportRow(columns, rows[n - 1], n, props)
      case Accepted(assignments) => [Call(n - 1, assignments)]
      case Skipped(_) => []
  {
  }

  lemma {:induction false} AcceptedCallsValid<P>(columns: seq<Option<P>>, rows: seq<seq<string>>, n: nat, props: Properties<P>)
    requires n <= |rows|
    ensures forall k :: 0 <= k < |AcceptedCalls(columns, rows, n, props)| ==>
      var call := AcceptedCalls(columns, rows, n, props)[k];
      1 <= call.row < n && ImportRow(columns, rows[call.row], call.row + 1, props) == Accepted(call.assignments)
    decreases n
  {
    if n > 1 {
      AcceptedCallsValid(columns, rows, n - 1, props);
      AcceptedCallsUnfold(columns, rows, n, props);
    }
  }

  lemma {:induction false} AcceptedCallsOrdered<P>(columns: seq<Option<P>>, rows: seq<seq<string>>, n: nat, props: Properties<P>)
    requires n <= |rows|
    ensures forall k, l :: 0 <= k < l < |AcceptedCalls(columns, rows, n, props)| ==>
      AcceptedCalls(columns, rows, n, props)[k].row < AcceptedCalls(columns, rows, n, props)[l].row
    decreases n
  {
    if n > 1 {
      AcceptedCallsOrdered(columns, rows, n - 1, props);
      AcceptedCallsValid(columns, rows, n - 1, props);
      AcceptedCallsUnfold(columns, rows, n, props);
    }
  }

  lemma {:induction false} AcceptedCallsComplete<P>(columns: seq<Option<P>>, rows: seq<seq<string>>, n: nat, props: Properties<P>)
    requires n <= |rows|
    ensures forall r :: 1 <= r < n && ImportRow(columns, rows[r], r + 1, props).Accepted? ==>
      Call(r, ImportRow(columns, rows[r], r + 1, props).assignments) in AcceptedCalls(columns, rows, n, props)
    decreases n
  {
    if n > 1 {
      AcceptedCallsComplete(columns, rows, n - 1, props);
      AcceptedCallsUnfold(columns, rows, n, props);
    }
  }

  /** The import fails with Error exactly when there are no rows, or when
    * the header names something that is no property (and the slow task
    * did not cancel first). */
  lemma ImportErrors<P>(rows: seq<seq<string>>, props: Properties<P>, cancels: nat -> bool)
    ensures Import(rows, props, cancels).result == Error <==>
      |rows| == 0 || (!cancels(0) && exists i :: 0 <= i < |rows[0]| && rows[0][i] != "" && props.find(rows[0][i]).None?)
    ensures Import(rows, props, cancels).result == Error ==> |Import(rows, props, cancels).calls| == 0
  {
  }

  /** Without cancellation and with a valid header, the import succeeds
    * exactly when no line is skipped, warns otherwise, and calls back once
    * per accepted line in line order; every message is then a warning. */
  lemma ImportMeaning<P>(rows: seq<seq<string>>, props: Properties<P>, cancels: nat -> bool)
    requires |rows| > 0 && NeverCancels(cancels, |rows|) && HeaderColumns(rows[0], props).Ok?
    ensures var columns := HeaderColumns(rows[0], props).value;
      && (Import(rows, props, cancels).result == Success <==>
            forall r :: 1 <= r < |rows| ==> ImportRow(columns, rows[r], r + 1, props).Accepted?)
      && (Import(rows, props, cancels).result != Success ==> Import(rows, props, cancels).result == Warning)
      && Import(rows, props, cancels).calls == AcceptedCalls(columns, rows, |rows|, props)
      && (forall m :: m in Import(rows, props, cancels).messages ==> !m.IsError())
  {
    assert !cancels(0);
    ImportRowsMeaning(HeaderColumns(rows[0], props).value, rows, |rows|, props, cancels);
  }

  /** Cancelling at a row's tick leaves that row and all later ones without
    * callback and returns CancelledByUser. */
  lemma CancelStopsCallbacks<P>(rows: seq<seq<string>>, props: Properties<P>, cancels: nat -> bool, t: nat)
    requires 0 < t < |rows| && cancels(t) && HeaderColumns(rows[0], props).Ok? && !cancels(0)
    ensures Import(rows, props, cancels).result == CancelledByUser
    ensures forall call :: call in Import(rows, props, cancels).calls ==> call.row < t
  {
    CancelledStays(HeaderColumns(rows[0], props).value, rows, |rows|, props, cancels, t);
  }

  lemma {:induction false} CancelledStays<P>(columns: seq<Option<P>>, rows: seq<seq<string>>, n: nat, props: Properties<P>, cancels: nat -> bool, t: nat)
    requires 0 < t < n <= |rows| && cancels(t)
    ensures ImportRows(columns, rows, n, props, cancels).cancelled
    ensures forall call :: call in ImportRows(columns, rows, n, props, cancels).calls ==> call.row < t
    decreases n
  {
    if t < n - 1 {
      CancelledStays(columns, rows, n - 1, props, cancels, t);
    } else {
      CallsBefore(columns, rows, n - 1, props, cancels);
    }
  }

  lemma {:induction false} CallsBefore<P>(columns: seq<Option<P>>, rows: seq<seq<string>>, n: nat, props: Properties<P>, cancels: nat -> bool)
    requires n <= |rows|
    ensures forall call :: call in ImportRows(columns, rows, n, props, cancels).calls ==> call.row < n
    decreases n
  {
    if n > 1 {
      CallsBefore(columns, rows, n - 1, props, cancels);
    }
  }

  // The imperative import.

  /** The header loop of Serialization.cpp:114-135. */
  method MapHeader<P>(header: seq<string>, props: Properties<P>) returns (r: Result<seq<Option<P>>>)
    ensures r == HeaderColumns(header, props)
  {
    var columns: seq<Option<P>> := [];
    assert header[0..] == header;
    if HeaderColumns(header, props).Ok? {
      assert [] + HeaderColumns(header, props).value == HeaderColumns(header, props).value;
    }
    for i := 0 to |header|
      invariant HeaderColumns(header, props) == PrependColumns(columns, HeaderColumns(header[i..], props))
    {
      assert header[i..][0] == header[i] && header[i..][1..] == header[i + 1..];
      var p := props.find(header[i]);
      if header[i] != "" && p.None? {
        return Failed(header[i]);
      }
      var column := if header[i] == "" then None else p;
      PrependColumnsStep(columns, column, HeaderColumns(header[i + 1..], props));
      columns := columns + [column];
    }
    assert header[|header|..] == [];
    assert columns + [] == columns;
    r := Ok(columns);
  }

  /** The columns already mapped, in front of the mapping of the rest. */
  function PrependColumns<P>(columns: seq<Option<P>>, rest: Result<seq<Option<P>>>): Result<seq<Option<P>>>
  {
    match rest
    case Failed(name) => Failed(name)
    case Ok(more) => Ok(columns + more)
  }

  lemma PrependColumnsStep<P>(columns: seq<Option<P>>, column: Option<P>, rest: Result<seq<Option<P>>>)
    ensures PrependColumns(columns, match rest case Failed(name) => Failed(name) case Ok(more) => Ok([column] + more)) ==
      PrependColumns(columns + [column], rest)
  {
    if rest.Ok? {
      assert columns + ([column] + rest.value) == columns + [column] + rest.value;
    }
  }

  /** The cell loop of Serialization.cpp:169-240 for one row of the right
    * length. */
  method ImportRowCells<P>(columns: seq<Option<P>>, row: seq<string>, line: nat, props: Properties<P>)
    returns (r: RowResult<P>)
    requires |row| == |columns|
    ensures r == ImportCells(columns, row, 0, line, props)
  {
    var assignments: Assignments<P> := [];
    for k := 0 to |row|
      invariant ImportCells(columns, row, 0, line, props) == PrependAssignments(assignments, ImportCells(columns, row, k, line, props))
    {
      var complaint := CellResult(columns[k], row[k], k, line, props);
      if complaint.Some? {
        return Skipped(complaint.value);
      }
      var entry: Assignments<P> := if columns[k].Some? then [(columns[k].value, row[k])] else [];
      PrependAssignmentsStep(assignments, entry, columns, row, k, line, props);
      assignments := assignments + entry;
    }
    assert assignments + [] == assignments;
    r := Accepted(assignments);
  }

  /** One accepted cell moves its assignment, if any, from the rest of the
    * row to the assignments made so far. */
  lemma PrependAssignmentsStep<P>(assignments: Assignments<P>, entry: Assignments<P>, columns: seq<Option<P>>, row: seq<string>,
                                  k: nat, line: nat, props: Properties<P>)
    requires |row| == |columns| && k < |row| && CellResult(columns[k], row[k], k, line, props).None?
    requires entry == if columns[k].Some? then [(columns[k].value, row[k])] else []
    ensures PrependAssignments(assignments, ImportCells(columns, row, k, line, props)) ==
      PrependAssignments(assignments + entry, ImportCells(columns, row, k + 1, line, props))
  {
    match ImportCells(columns, row, k + 1, line, props)
    case Skipped(_) =>
    case Accepted(rest) =>
      assert (assignments + entry) + rest == assignments + (entry + rest);
  }

  function PrependAssignments<P>(assignments: Assignments<P>, rest: RowResult<P>): RowResult<P>
  {
    match rest
    case Skipped(message) => Skipped(message)
    case Accepted(more) => Accepted(assignments + more)
  }

  method ImportFromCSV<P>(rows: seq<seq<string>>, props: Properties<P>, cancels: nat -> bool)
    returns (result: ImportResult, calls: seq<Call<P>>, messages: seq<Message>)
    ensures ImportOutcome(result, calls, messages) == Import(rows, props, cancels)
  {
    calls, messages := [], [];
    if |rows| == 0 {
      return Error, calls, [EmptyInput];
    }
    if cancels(0) {
      return CancelledByUser, calls, messages;
    }
    var header := MapHeader(rows[0], props);
    if header.Failed? {
      return Error, calls, [InvalidColumnName(header.name)];
    }
    var columns := header.value;
    result := Success;
    for r := 1 to |rows|
      invariant ImportRows(columns, rows, r, props, cancels) ==
        Progress(false, result == Warning, calls, messages)
      invariant result == Success || result == Warning
    {
      if cancels(r) {
        CancelledRemains(columns, rows, r + 1, |rows|, props, cancels);
        return CancelledByUser, calls, messages;
      }
      var rowResult: RowResult<P>;
      if |rows[r]| != |columns| {
        rowResult := Skipped(ColumnCountMessageAsWritten(r + 1, |rows[r]|, |columns|));
      } else {
        rowResult := ImportRowCells(columns, rows[r], r + 1, props);
      }
      match rowResult {
        case Skipped(message) =>
          result := Warning;
          messages := messages + [message];
        case Accepted(assignments) =>
          calls := calls + [Call(r, assignments)];
      }
    }
  }

  /** Once cancelled, the row loop keeps its state. */
  lemma {:induction false} CancelledRemains<P>(columns: seq<Option<P>>, rows: seq<seq<string>>, m: nat, n: nat, props: Properties<P>, cancels: nat -> bool)
    requires 1 <= m <= n <= |rows| && ImportRows(columns, rows, m, props, cancels).cancelled
    ensures ImportRows(columns, rows, n, props, cancels) == ImportRows(columns, rows, m, props, cancels)
    decreases n - m
  {
    if m < n {
      CancelledRemains(columns, rows, m, n - 1, props, cancels);
    }
  }
}
