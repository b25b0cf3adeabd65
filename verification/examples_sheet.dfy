/** A worked three-row sheet: what the readers and the task list make of it
    for a few start rows. */
module Examples {
  import opened Options
  import opened Strings
  import opened Sheet
  import opened Tasks

  /** A sheet without a header: A/hi/f1, B/yo/f2, A/bye/f3. */
  function ExampleSheet(): Table {
    [[Text("A"), Text("hi"), Text("f1")],
     [Text("B"), Text("yo"), Text("f2")],
     [Text("A"), Text("bye"), Text("f3")]]
  }

  /** Every cell of the sheet is already trimmed. */
  lemma ExampleStrips()
    ensures Strip("A") == "A" && Strip("B") == "B"
    ensures Strip("hi") == "hi" && Strip("yo") == "yo" && Strip("bye") == "bye"
    ensures Strip("f1") == "f1" && Strip("f2") == "f2" && Strip("f3") == "f3"
  {
    StripsOfNames();
    StripsOfDialogue();
    StripsOfFilenames();
  }

  lemma StripsOfNames()
    ensures Strip("A") == "A" && Strip("B") == "B"
  {
    StripKeepsTrimmed("A");
    StripKeepsTrimmed("B");
  }

  lemma StripsOfDialogue()
    ensures Strip("hi") == "hi" && Strip("yo") == "yo" && Strip("bye") == "bye"
  {
    StripKeepsTrimmed("hi");
    StripKeepsTrimmed("yo");
    StripKeepsTrimmed("bye");
  }

  lemma StripsOfFilenames()
    ensures Strip("f1") == "f1" && Strip("f2") == "f2" && Strip("f3") == "f3"
  {
    StripKeepsTrimmed("f1");
    StripKeepsTrimmed("f2");
    StripKeepsTrimmed("f3");
  }

  /** What each row of the sheet gives for A and for B. */
  lemma ExampleRowPicks()
    ensures Pick(ExampleSheet()[0], 0, "A", 1, 2) == Some(Line("hi", "f1"))
    ensures Pick(ExampleSheet()[1], 0, "A", 1, 2) == None
    ensures Pick(ExampleSheet()[2], 0, "A", 1, 2) == Some(Line("bye", "f3"))
    ensures Pick(ExampleSheet()[0], 0, "B", 1, 2) == None
    ensures Pick(ExampleSheet()[1], 0, "B", 1, 2) == Some(Line("yo", "f2"))
    ensures Pick(ExampleSheet()[2], 0, "B", 1, 2) == None
  {
    ExampleStrips();
  }

  lemma ExampleLinesOfA()
    ensures LinesIn(ExampleSheet(), 0, "A", 1, 2) == [Line("hi", "f1"), Line("bye", "f3")]
  {
    ExampleRowPicks();
    var ps := Picks(ExampleSheet(), 0, "A", 1, 2);
    assert ps[0].Some? && ps[1].None? && ps[2].Some?;
    assert Values(ps, 2) == [Line("bye", "f3")];
    assert Values(ps, 1) == [Line("bye", "f3")];
  }

  lemma ExampleLinesOfB()
    ensures LinesIn(ExampleSheet(), 0, "B", 1, 2) == [Line("yo", "f2")]
  {
    ExampleRowPicks();
    var ps := Picks(ExampleSheet(), 0, "B", 1, 2);
    assert ps[0].None? && ps[1].Some? && ps[2].None?;
    assert Values(ps, 2) == [];
    assert Values(ps, 1) == [Line("yo", "f2")];
  }

  /** Start row 1 reads the whole sheet. */
  lemma ExampleFromRowOne()
    ensures RowsForCharacter(ExampleSheet(), 0, "A", 1, 2, 1) == Some([Line("hi", "f1"), Line("bye", "f3")])
  {
    assert ExampleSheet()[0..] == ExampleSheet();
    ExampleLinesOfA();
  }

  /** Start row 0 visits the last row first (index -1) and then the whole
      sheet, so A's last line is read twice. */
  lemma ExampleFromRowZero()
    ensures RowsForCharacter(ExampleSheet(), 0, "A", 1, 2, 0)
              == Some([Line("bye", "f3"), Line("hi", "f1"), Line("bye", "f3")])
  {
    var data := ExampleSheet();
    var rows := data[2..] + data;
    assert Visited(data, 0) == Some(rows);
    assert rows[0] == data[2] && rows[1] == data[0] && rows[2] == data[1] && rows[3] == data[2];
    ExampleRowPicks();
    var ps := Picks(rows, 0, "A", 1, 2);
    assert ps[0] == Some(Line("bye", "f3")) && ps[1] == Some(Line("hi", "f1"));
    assert ps[2].None? && ps[3] == Some(Line("bye", "f3"));
    assert Values(ps, 3) == [Line("bye", "f3")];
    assert Values(ps, 2) == [Line("bye", "f3")];
    assert Values(ps, 1) == [Line("hi", "f1"), Line("bye", "f3")];
    assert Values(ps, 0) == [Line("bye", "f3"), Line("hi", "f1"), Line("bye", "f3")];
    assert LinesIn(rows, 0, "A", 1, 2) == Values(ps, 0);
  }

  /** Start row -3 asks for index -4 of a three-row sheet: IndexError. */
  lemma ExampleFromRowTooLow()
    ensures RowsForCharacter(ExampleSheet(), 0, "A", 1, 2, -3).None?
    ensures UniqueValuesInColumn(ExampleSheet(), 0, -3).None?
  {
  }

  lemma ExampleBlockOfA()
    ensures Block(ExampleSheet(), Columns(0, 1, 2), "A", "v1")
              == [Task("A", "v1", "hi", "f1"), Task("A", "v1", "bye", "f3")]
  {
    ExampleLinesOfA();
  }

  lemma ExampleBlockOfB()
    ensures Block(ExampleSheet(), Columns(0, 1, 2), "B", "v2") == [Task("B", "v2", "yo", "f2")]
  {
    ExampleLinesOfB();
  }

  /** With A before B in the map the tasks come out f1, f3, f2: grouped by
      character in map order, sheet order within a group. */
  lemma BuildTasksExample()
    ensures BuildTasks(ExampleSheet(), Columns(0, 1, 2), [("A", "v1"), ("B", "v2")])
              == [Task("A", "v1", "hi", "f1"), Task("A", "v1", "bye", "f3"), Task("B", "v2", "yo", "f2")]
  {
    var cols := Columns(0, 1, 2);
    var m := [("A", "v1"), ("B", "v2")];
    ExampleBlockOfA();
    ExampleBlockOfB();
    assert m[1..] == [("B", "v2")];
    assert m[1..][1..] == [];
    assert BuildTasks(ExampleSheet(), cols, m[1..]) == [Task("B", "v2", "yo", "f2")];
  }
}
