/** `VoiceGeneratorApp.generate_voices` end to end: the checks that refuse
    to start, the char-to-voice map, the task list, the confirmation and the
    batch loop. The dialogs are reduced to what they decide: an error
    message refuses the run, and the yes/no question is the `confirmed`
    parameter. */
module Generator {
  import opened Options
  import opened Dict
  import opened Sheet
  import opened Tasks
  import opened Batch

  /** The application state `generate_voices` reads: the output folder
      field, `voice_combos` (character to selected voice name), the voice
      catalogue, the cached sheet (`None` when no workbook is loaded), the
      chosen columns, and the start row field as `int()` parses it (`None`
      when it does not parse). A workbook that is loaded with no sheet
      selected yet has no cached rows, and both readers then return `[]`
      just as for an empty sheet, so it is `Some([])` here. */
  datatype Session = Session(outputFolder: string, combos: seq<(string, string)>, voices: seq<Voice>,
                             workbook: Option<Table>, cols: Columns, startRowEntry: Option<int>)

  /** Why `generate_voices` returned without generating anything. */
  datatype Refusal = NoOutputFolder | NoVoiceSettings | NoWorkbook | NothingToGenerate | Declined

  /** How a call ends: refused with an error dialog or a "no" answer, cut
      short by the IndexError of an out-of-range start row, or finished
      with every task attempted. */
  datatype Report = Refused(reason: Refusal) | RowIndexError | Finished(tasks: seq<Task>, summary: Summary, progress: nat)

  /** The start row: the parsed field, or 2 when it does not parse. */
  function StartRow(s: Session): (row: int)
    ensures s.startRowEntry.Some? ==> row == s.startRowEntry.value
    ensures s.startRowEntry.None? ==> row == 2
  {
    match s.startRowEntry
    case Some(n) => n
    case None => 2
  }

  /** Some character's selected voice name names a voice in the catalogue. */
  predicate SomeVoiceResolves(s: Session) {
    exists i :: 0 <= i < |s.combos| && FirstVoiceId(s.voices, s.combos[i].1).Some?
  }

  /** The task list for a loaded sheet, or `None` when reading a
      character's rows raises IndexError. Reading happens once per character
      of the map, so it raises exactly when the start row is out of range
      and some character has a voice. */
  function TaskList(data: Table, s: Session): (tasks: Option<seq<Task>>)
    requires DistinctKeys(s.combos)
    ensures tasks.None? <==> Visited(data, StartRow(s)).None? && SomeVoiceResolves(s)
    ensures tasks.Some? ==> forall t :: t in tasks.value ==>
              Lookup(s.combos, t.character).Some?
              && FirstVoiceId(s.voices, Lookup(s.combos, t.character).value) == Some(t.voiceId)
  {
    var m := CharVoiceMap(s.combos, s.voices);
    MapEmptyIffNoneResolves(s);
    match Visited(data, StartRow(s))
    case None => if m == [] then Some([]) else None
    case Some(rows) =>
      var tasks := BuildTasks(rows, s.cols, m);
      assert forall t :: t in tasks ==> Lookup(m, t.character) == Resolve(s.voices, Lookup(s.combos, t.character));
      Some(tasks)
  }

  /** The map is empty exactly when no selected voice name resolves. */
  lemma MapEmptyIffNoneResolves(s: Session)
    requires DistinctKeys(s.combos)
    ensures CharVoiceMap(s.combos, s.voices) == [] <==> !SomeVoiceResolves(s)
  {
    var m := CharVoiceMap(s.combos, s.voices);
    if SomeVoiceResolves(s) {
      var i :| 0 <= i < |s.combos| && FirstVoiceId(s.voices, s.combos[i].1).Some?;
      LookupEntry(s.combos, i);
      assert Lookup(m, s.combos[i].0).Some?;
    }
    if m != [] {
      LookupEntry(m, 0);
      var c := m[0].0;
      var name := Lookup(s.combos, c).value;
      var i :| 0 <= i < |s.combos| && s.combos[i] == (c, name);
      assert FirstVoiceId(s.voices, s.combos[i].1).Some?;
    }
  }

  /** The checks run in the order `generate_voices` runs them: output
      folder, voice settings, workbook, then the task list (which may
      raise), an empty task list, and the confirmation. Only when all pass is every task
      attempted, and the tally then accounts for each of them. */
  method GenerateVoices(s: Session, confirmed: bool, attempt: (nat, Task) -> Outcome) returns (report: Report)
    requires DistinctKeys(s.combos)
    ensures report == Refused(NoOutputFolder) <==> s.outputFolder == ""
    ensures report == Refused(NoVoiceSettings) <==> s.outputFolder != "" && s.combos == []
    ensures report == Refused(NoWorkbook) <==> s.outputFolder != "" && s.combos != [] && s.workbook.None?
    ensures report == RowIndexError <==>
              s.outputFolder != "" && s.combos != [] && s.workbook.Some?
              && Visited(s.workbook.value, StartRow(s)).None? && SomeVoiceResolves(s)
    ensures report == Refused(NothingToGenerate) <==>
              s.outputFolder != "" && s.combos != [] && s.workbook.Some? && TaskList(s.workbook.value, s) == Some([])
    ensures report == Refused(Declined) <==>
              s.outputFolder != "" && s.combos != [] && s.workbook.Some?
              && TaskList(s.workbook.value, s).Some? && TaskList(s.workbook.value, s).value != []
              && !confirmed
    ensures report.Finished? ==>
              && s.workbook.Some?
              && TaskList(s.workbook.value, s) == Some(report.tasks)
              && report.tasks != []
              && confirmed
              && report.summary == Run(report.tasks, attempt)
              && report.summary.successCount + report.summary.errorCount == |report.tasks|
              && report.progress == |report.tasks|
  {
    if s.outputFolder == "" {
      return Refused(NoOutputFolder);
    }
    if s.combos == [] {
      return Refused(NoVoiceSettings);
    }
    if s.workbook.None? {
      return Refused(NoWorkbook);
    }
    var found := TaskList(s.workbook.value, s);
    if found.None? {
      return RowIndexError;
    }
    var tasks := found.value;
    if tasks == [] {
      return Refused(NothingToGenerate);
    }
    if !confirmed {
      return Refused(Declined);
    }
    var summary, progress := GenerateAll(tasks, attempt);
    report := Finished(tasks, summary, progress);
  }
}
