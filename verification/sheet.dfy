/** `ExcelReader` over its cached sheet: the rows of the selected worksheet,
    each a sequence of cells, read in sheet order. Column letters are
    already turned into 0-based indices, and `startRow` is the 1-based
    spreadsheet row where the data begins, as typed by the user. */
module Sheet {
  import opened Options
  import opened Strings
  import opened Sorting

  /** A worksheet cell: empty (`None`) or holding text. */
  datatype Cell = Blank | Text(text: string)

  type Row = seq<Cell>
  type Table = seq<Row>

  /** One spoken line found for a character. */
  datatype Line = Line(dialogue: string, filename: string)

  /** Python truthiness of a cell value: present and not the empty string. */
  predicate Truthy(c: Cell) {
    c.Text? && |c.text| > 0
  }

  /** `row[col] if col < len(row) else None` */
  function CellAt(row: Row, col: nat): Cell {
    if col < |row| then row[col] else Blank
  }

  /** The element `xs[i]` denotes for a list of length `n`: a negative index
      counts from the end. */
  function PyIndex(n: nat, i: int): (j: nat)
    requires 0 <= n + i && i < n
    ensures j < n
  {
    if i < 0 then n + i else i
  }

  /** The rows both readers visit: nothing when the sheet is empty,
      otherwise `data[i]` for `i` in `range(startRow - 1, len(data))`.
      A start row of 0 or below gives negative indices, which count from
      the end of the sheet; an index below `-len(data)` raises IndexError,
      which is `None` here. */
  function Visited(data: Table, startRow: int): (rows: Option<Table>)
    ensures rows.None? <==> |data| > 0 && startRow - 1 < -|data|
    ensures rows.Some? ==> |rows.value| == if |data| == 0 || startRow - 1 >= |data| then 0
                                           else |data| - (startRow - 1)
    ensures rows.Some? ==> forall k :: 0 <= k < |rows.value| ==>
                             -|data| <= startRow - 1 + k < |data|
                             && rows.value[k] == data[PyIndex(|data|, startRow - 1 + k)]
  {
    var n, s := |data|, startRow - 1;
    if n == 0 then Some([])
    else if s >= n then Some([])
    else if s >= 0 then Some(data[s..])
    else if s >= -n then
      var rows := data[n + s..] + data;
      assert forall k :: 0 <= k < -s ==> rows[k] == data[n + s + k];
      assert forall k :: -s <= k < |rows| ==> rows[k] == data[s + k];
      Some(rows)
    else None
  }

  /** From row 1 onwards the visited rows are the sheet rows in order. */
  lemma VisitedFromRow(data: Table, startRow: int)
    requires startRow >= 1
    ensures Visited(data, startRow).Some?
    ensures forall k :: 0 <= k < |Visited(data, startRow).value| ==>
              startRow - 1 + k < |data| && Visited(data, startRow).value[k] == data[startRow - 1 + k]
  {
  }

  /** Every sheet row from `startRow - 1` on is visited, at offset
      `i - (startRow - 1)`, whether or not the start wraps around. */
  lemma VisitedAt(data: Table, startRow: int, i: int)
    requires -|data| <= startRow - 1 <= i < |data|
    ensures Visited(data, startRow).Some?
    ensures 0 <= i - (startRow - 1) < |Visited(data, startRow).value|
    ensures Visited(data, startRow).value[i - (startRow - 1)] == data[PyIndex(|data|, i)]
  {
  }

  /** Row `row` puts the value `v` into the character list for column `col`:
      the cell is there, is truthy, and strips to `v`. */
  predicate Yields(row: Row, col: nat, v: string) {
    col < |row| && Truthy(row[col]) && Strip(row[col].text) == v
  }

  /** What one row puts into the character list for column `col`. */
  function ColumnValue(row: Row, col: nat): (v: Option<string>)
    ensures forall name :: v == Some(name) <==> Yields(row, col, name)
  {
    if col < |row| && Truthy(row[col]) then Some(Strip(row[col].text)) else None
  }

  /** Each row's contribution to the character list, in order. */
  function ColumnValues(rows: Table, col: nat): (vs: seq<Option<string>>)
    ensures |vs| == |rows|
    ensures forall i :: 0 <= i < |rows| ==> vs[i] == ColumnValue(rows[i], col)
  {
    seq(|rows|, i requires 0 <= i < |rows| => ColumnValue(rows[i], col))
  }

  /** The distinct values `rows` put into the character list, ascending. */
  function DistinctValues(rows: Table, col: nat): (names: seq<string>)
    ensures StrictlyAscending(names)
    ensures forall v :: v in names <==> exists i :: 0 <= i < |rows| && Yields(rows[i], col, v)
  {
    var vs := ColumnValues(rows, col);
    ValuesMembers(vs, 0);
    assert forall i :: 0 <= i < |rows| ==> forall v :: vs[i] == Some(v) <==> Yields(rows[i], col, v);
    SortedSet(Values(vs, 0))
  }

  /** `get_unique_values_in_column`: the distinct stripped values of the
      truthy cells of column `col` in the visited rows, ascending. A row
      too short to have the column gives nothing; a whitespace-only cell
      gives "". `None` is the IndexError of a start row too far below 1. */
  function UniqueValuesInColumn(data: Table, col: nat, startRow: int): (names: Option<seq<string>>)
    ensures names.None? <==> Visited(data, startRow).None?
    ensures names.Some? ==> StrictlyAscending(names.value)
    ensures names.Some? ==> forall v :: v in names.value <==>
              exists k :: 0 <= k < |Visited(data, startRow).value| && Yields(Visited(data, startRow).value[k], col, v)
  {
    match Visited(data, startRow)
    case None => None
    case Some(rows) => Some(DistinctValues(rows, col))
  }

  /** From a start row of 1 or more, the list holds exactly the values of
      the sheet rows from that row on. */
  lemma UniqueValuesFromRow(data: Table, col: nat, startRow: int)
    requires startRow >= 1
    ensures UniqueValuesInColumn(data, col, startRow).Some?
    ensures forall v :: v in UniqueValuesInColumn(data, col, startRow).value <==>
              exists i :: startRow - 1 <= i < |data| && Yields(data[i], col, v)
  {
    VisitedFromRow(data, startRow);
    var rows := Visited(data, startRow).value;
    var names := UniqueValuesInColumn(data, col, startRow).value;
    forall v | v in names
      ensures exists i :: startRow - 1 <= i < |data| && Yields(data[i], col, v)
    {
      var k :| 0 <= k < |rows| && Yields(rows[k], col, v);
      assert rows[k] == data[startRow - 1 + k];
    }
    forall i, v | startRow - 1 <= i < |data| && Yields(data[i], col, v)
      ensures v in names
    {
      VisitedAt(data, startRow, i);
      assert Yields(rows[i - (startRow - 1)], col, v);
    }
  }

  /** A start row of 0 or below that stays in range revisits the last rows
      of the sheet before the whole sheet; the list is the same as from row
      1, as the values go through a set. */
  lemma UniqueValuesWrapAround(data: Table, col: nat, startRow: int)
    requires -|data| <= startRow - 1 < 0
    ensures UniqueValuesInColumn(data, col, startRow) == UniqueValuesInColumn(data, col, 1)
  {
    WrapAroundSameRows(data, startRow);
    DistinctValuesOfSameRows(Visited(data, startRow).value, Visited(data, 1).value, col);
  }

  /** A start row of 0 or below in range visits the same rows as row 1. */
  lemma WrapAroundSameRows(data: Table, startRow: int)
    requires -|data| <= startRow - 1 < 0
    ensures Visited(data, startRow).Some? && Visited(data, 1).Some?
    ensures forall r :: r in Visited(data, startRow).value <==> r in Visited(data, 1).value
  {
    var rows := Visited(data, startRow).value;
    var all := Visited(data, 1).value;
    forall r | r in rows
      ensures r in all
    {
      var k :| 0 <= k < |rows| && rows[k] == r;
      var i := PyIndex(|data|, startRow - 1 + k);
      VisitedAt(data, 1, i);
      assert all[i] == rows[k];
    }
    forall r | r in all
      ensures r in rows
    {
      var i :| 0 <= i < |all| && all[i] == r;
      VisitedAt(data, 1, i);
      VisitedAt(data, startRow, i);
      assert rows[i - (startRow - 1)] == r;
    }
  }

  /** The character list depends only on which rows are visited, not on
      their order or repetition. */
  lemma DistinctValuesOfSameRows(rows: Table, rows': Table, col: nat)
    requires forall r :: r in rows <==> r in rows'
    ensures DistinctValues(rows, col) == DistinctValues(rows', col)
  {
    var a := DistinctValues(rows, col);
    var b := DistinctValues(rows', col);
    forall v | v in a
      ensures v in b
    {
      var k :| 0 <= k < |rows| && Yields(rows[k], col, v);
      assert rows[k] in rows';
      var i :| 0 <= i < |rows'| && rows'[i] == rows[k];
    }
    forall v | v in b
      ensures v in a
    {
      var i :| 0 <= i < |rows'| && Yields(rows'[i], col, v);
      assert rows'[i] in rows;
      var k :| 0 <= k < |rows| && rows[k] == rows'[i];
    }
    AscendingUnique(a, b);
  }

  /** A non-empty cell of nothing but whitespace is truthy, so it puts ""
      into the character list. */
  lemma WhitespaceNameListedAsEmpty(data: Table, col: nat, startRow: int, i: nat)
    requires startRow >= 1 && startRow - 1 <= i < |data|
    requires col < |data[i]| && data[i][col].Text?
    requires |data[i][col].text| > 0 && AllSpace(data[i][col].text)
    ensures UniqueValuesInColumn(data, col, startRow).Some?
    ensures "" in UniqueValuesInColumn(data, col, startRow).value
  {
    StripEmptyIffAllSpace(data[i][col].text);
    assert Yields(data[i], col, "");
    UniqueValuesFromRow(data, col, startRow);
  }

  /** What one row contributes to `get_rows_for_character`: a line when its
      character cell is there, truthy and strips to `character`, and its
      dialogue and filename cells are there and truthy. The truthiness test
      comes before stripping. */
  function Pick(row: Row, charCol: nat, character: string, dialogueCol: nat, filenameCol: nat): (p: Option<Line>)
    ensures p.Some? <==> Yields(row, charCol, character)
                         && dialogueCol < |row| && Truthy(row[dialogueCol])
                         && filenameCol < |row| && Truthy(row[filenameCol])
    ensures p.Some? ==> p.value == Line(Strip(row[dialogueCol].text), Strip(row[filenameCol].text))
  {
    if charCol >= |row| then None
    else
      var charValue := row[charCol];
      if Truthy(charValue) && Strip(charValue.text) == character then
        var dialogue := CellAt(row, dialogueCol);
        var filename := CellAt(row, filenameCol);
        if Truthy(dialogue) && Truthy(filename) then
          Some(Line(Strip(dialogue.text), Strip(filename.text)))
        else None
      else None
  }

  /** The truthiness test runs before stripping: a matching row whose
      dialogue cell is non-empty whitespace still produces a line, with ""
      as its dialogue. */
  lemma WhitespaceDialogueKept(row: Row, charCol: nat, character: string, dialogueCol: nat, filenameCol: nat)
    requires Yields(row, charCol, character)
    requires dialogueCol < |row| && row[dialogueCol].Text?
    requires |row[dialogueCol].text| > 0 && AllSpace(row[dialogueCol].text)
    requires filenameCol < |row| && Truthy(row[filenameCol])
    ensures Pick(row, charCol, character, dialogueCol, filenameCol) == Some(Line("", Strip(row[filenameCol].text)))
  {
    StripEmptyIffAllSpace(row[dialogueCol].text);
  }

  /** Each row's contribution, in order. */
  function Picks(rows: Table, charCol: nat, character: string, dialogueCol: nat,
                 filenameCol: nat): (ps: seq<Option<Line>>)
    ensures |ps| == |rows|
    ensures forall i :: 0 <= i < |rows| ==> ps[i] == Pick(rows[i], charCol, character, dialogueCol, filenameCol)
  {
    seq(|rows|, i requires 0 <= i < |rows| => Pick(rows[i], charCol, character, dialogueCol, filenameCol))
  }

  /** The lines of `character` among `rows`, in order. */
  function LinesIn(rows: Table, charCol: nat, character: string, dialogueCol: nat,
                   filenameCol: nat): (lines: seq<Line>)
    ensures |lines| <= |rows|
  {
    Values(Picks(rows, charCol, character, dialogueCol, filenameCol), 0)
  }

  /** `get_rows_for_character`: the lines of `character` in the visited
      rows, in visiting order. `None` is the IndexError of a start row too
      far below 1. */
  function RowsForCharacter(data: Table, charCol: nat, character: string, dialogueCol: nat,
                            filenameCol: nat, startRow: int): (lines: Option<seq<Line>>)
    ensures lines.None? <==> Visited(data, startRow).None?
    ensures lines.Some? ==> |lines.value| <= |Visited(data, startRow).value|
  {
    match Visited(data, startRow)
    case None => None
    case Some(rows) => Some(LinesIn(rows, charCol, character, dialogueCol, filenameCol))
  }

  /** `LinesIn` keeps order: its k-th line is the line of the k-th row that
      produces one, and no producing row is skipped. */
  lemma LinesInOrder(rows: Table, charCol: nat, character: string, dialogueCol: nat, filenameCol: nat)
    ensures var src := Present(Picks(rows, charCol, character, dialogueCol, filenameCol), 0);
            var lines := LinesIn(rows, charCol, character, dialogueCol, filenameCol);
            && |src| == |lines|
            && Increasing(src)
            && (forall k :: 0 <= k < |src| ==>
                  (src[k] < |rows| && Pick(rows[src[k]], charCol, character, dialogueCol, filenameCol) == Some(lines[k])))
            && (forall i :: (0 <= i < |rows| && Pick(rows[i], charCol, character, dialogueCol, filenameCol).Some?)
                  ==> i in src)
  {
    var ps := Picks(rows, charCol, character, dialogueCol, filenameCol);
    PresentInOrder(ps, 0);
    ValuesAtPresent(ps, 0);
  }

  /** From a start row of 1 or more `get_rows_for_character` keeps sheet
      order: its k-th line is the line of the k-th sheet row, from
      `startRow` on, that produces one, and no producing row is skipped. */
  lemma RowsForCharacterInSheetOrder(data: Table, charCol: nat, character: string,
                                     dialogueCol: nat, filenameCol: nat, startRow: int)
    requires startRow >= 1
    ensures RowsForCharacter(data, charCol, character, dialogueCol, filenameCol, startRow).Some?
    ensures var src := Present(Picks(Visited(data, startRow).value, charCol, character, dialogueCol, filenameCol), 0);
            var lines := RowsForCharacter(data, charCol, character, dialogueCol, filenameCol, startRow).value;
            && |src| == |lines|
            && Increasing(src)
            && (forall k :: 0 <= k < |src| ==>
                  (startRow - 1 + src[k] < |data|
                   && Pick(data[startRow - 1 + src[k]], charCol, character, dialogueCol, filenameCol) == Some(lines[k])))
            && (forall i :: (startRow - 1 <= i < |data|
                  && Pick(data[i], charCol, character, dialogueCol, filenameCol).Some?) ==> i - (startRow - 1) in src)
  {
    VisitedFromRow(data, startRow);
    var rows := Visited(data, startRow).value;
    LinesInOrder(rows, charCol, character, dialogueCol, filenameCol);
    var src := Present(Picks(rows, charCol, character, dialogueCol, filenameCol), 0);
    forall i | startRow - 1 <= i < |data| && Pick(data[i], charCol, character, dialogueCol, filenameCol).Some?
      ensures i - (startRow - 1) in src
    {
      VisitedAt(data, startRow, i);
    }
  }

  /** The lines of two row lists read one after the other are the lines of
      the first followed by those of the second. */
  lemma LinesInAppend(a: Table, b: Table, charCol: nat, character: string, dialogueCol: nat, filenameCol: nat)
    ensures LinesIn(a + b, charCol, character, dialogueCol, filenameCol)
            == LinesIn(a, charCol, character, dialogueCol, filenameCol) + LinesIn(b, charCol, character, dialogueCol, filenameCol)
  {
    var pa := Picks(a, charCol, character, dialogueCol, filenameCol);
    var pb := Picks(b, charCol, character, dialogueCol, filenameCol);
    var pab := Picks(a + b, charCol, character, dialogueCol, filenameCol);
    forall i | 0 <= i < |pab|
      ensures pab[i] == (pa + pb)[i]
    {
      if i < |a| {
        assert (a + b)[i] == a[i];
      } else {
        assert (a + b)[i] == b[i - |a|];
      }
    }
    assert pab == pa + pb;
    ValuesAppend(pa, pb, 0);
  }

  /** A start row of 0 or below that stays in range first reads the last
      rows of the sheet, as the start row `startRow + |data|` would, and
      then the whole sheet, as start row 1 would: the lines of those last
      rows come out twice. */
  lemma RowsForCharacterWrapAround(data: Table, charCol: nat, character: string, dialogueCol: nat,
                                   filenameCol: nat, startRow: int)
    requires -|data| <= startRow - 1 < 0
    ensures RowsForCharacter(data, charCol, character, dialogueCol, filenameCol, startRow)
            == Some(RowsForCharacter(data, charCol, character, dialogueCol, filenameCol, startRow + |data|).value
                    + RowsForCharacter(data, charCol, character, dialogueCol, filenameCol, 1).value)
  {
    var n, s := |data|, startRow - 1;
    assert Visited(data, startRow) == Some(data[n + s..] + data);
    assert Visited(data, startRow + n) == Some(data[n + s..]);
    assert Visited(data, 1) == Some(data) by {
      assert data[0..] == data;
    }
    LinesInAppend(data[n + s..], data, charCol, character, dialogueCol, filenameCol);
  }
}
