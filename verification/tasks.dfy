/** The task list of `VoiceGeneratorApp.generate_voices`: each selected
    character's chosen voice name is resolved against the voice catalogue,
    and every line of every resolved character becomes one synthesis task. */
module Tasks {
  import opened Options
  import opened Dict
  import opened Sheet

  /** A catalogue entry: display name and the id synthesis requests use. */
  datatype Voice = Voice(name: string, voiceId: string)

  datatype Task = Task(character: string, voiceId: string, dialogue: string, filename: string)

  /** The chosen character, dialogue and filename columns, 0-based. */
  datatype Columns = Columns(charCol: nat, dialogueCol: nat, filenameCol: nat)

  /** The `voice_id` of the first catalogue entry named `name`, if any
      (the loop over `self.voices` that stops at the first match). */
  function FirstVoiceId(voices: seq<Voice>, name: string): Option<string>
  {
    if |voices| == 0 then None
    else if voices[0].name == name then Some(voices[0].voiceId)
    else FirstVoiceId(voices[1..], name)
  }

  /** `FirstVoiceId` finds nothing exactly when no voice has the name, and
      otherwise returns the id of the earliest voice that has it. */
  lemma {:induction false} FirstVoiceIdIsFirst(voices: seq<Voice>, name: string)
    ensures FirstVoiceId(voices, name).None? <==> forall k :: 0 <= k < |voices| ==> voices[k].name != name
    ensures FirstVoiceId(voices, name).Some? ==>
              exists k :: 0 <= k < |voices| && voices[k] == Voice(name, FirstVoiceId(voices, name).value)
                          && forall j :: 0 <= j < k ==> voices[j].name != name
  {
    if |voices| > 0 && voices[0].name != name {
      FirstVoiceIdIsFirst(voices[1..], name);
      var id := FirstVoiceId(voices[1..], name);
      if id.Some? {
        var k :| 0 <= k < |voices[1..]| && voices[1..][k] == Voice(name, id.value)
                 && forall j :: 0 <= j < k ==> voices[1..][j].name != name;
        assert forall j :: 1 <= j < k + 1 ==> voices[j] == voices[1..][j - 1];
        assert voices[k + 1] == Voice(name, id.value);
      } else {
        assert forall k :: 1 <= k < |voices| ==> voices[k] == voices[1..][k - 1];
      }
    }
  }

  /** The voice id a character gets from its (optional) selected name. */
  function Resolve(voices: seq<Voice>, selected: Option<string>): Option<string> {
    match selected
    case None => None
    case Some(name) => FirstVoiceId(voices, name)
  }

  /** `char_voice_map`, built from `voice_combos` (character to selected
      voice name, in insertion order): a character is in the map exactly
      when its selected name names some voice, and then it maps to the id of
      the first such voice; no other character is added, and the map keeps
      the order of `voice_combos`. */
  function CharVoiceMap(combos: seq<(string, string)>, voices: seq<Voice>): (m: seq<(string, string)>)
    requires DistinctKeys(combos)
    ensures DistinctKeys(m)
    ensures forall c :: Lookup(m, c) == Resolve(voices, Lookup(combos, c))
    ensures InOrderOf(m, combos)
  {
    if |combos| == 0 then []
    else
      var rest := CharVoiceMap(combos[1..], voices);
      match FirstVoiceId(voices, combos[0].1)
      case Some(id) =>
        ConsResolved(combos, voices, id, rest);
        PrependInOrder(combos, id, rest);
        [(combos[0].0, id)] + rest
      case None =>
        TailInOrder(combos, rest);
        rest
  }

  /** The step of `CharVoiceMap` that adds the first character: the lookup
      equation still holds. */
  lemma ConsResolved(combos: seq<(string, string)>, voices: seq<Voice>, id: string, rest: seq<(string, string)>)
    requires |combos| > 0 && DistinctKeys(combos)
    requires FirstVoiceId(voices, combos[0].1) == Some(id)
    requires forall c :: Lookup(rest, c) == Resolve(voices, Lookup(combos[1..], c))
    ensures forall c :: Lookup([(combos[0].0, id)] + rest, c) == Resolve(voices, Lookup(combos, c))
  {
    var m := [(combos[0].0, id)] + rest;
    assert m[1..] == rest;
  }

  /** The tasks of one character, one per line, in sheet order. */
  function Block(rows: Table, cols: Columns, character: string, voiceId: string): (b: seq<Task>)
    ensures var lines := LinesIn(rows, cols.charCol, character, cols.dialogueCol, cols.filenameCol);
            |b| == |lines| &&
            forall k :: 0 <= k < |b| ==> b[k] == Task(character, voiceId, lines[k].dialogue, lines[k].filename)
    ensures forall t :: t in b ==> t.character == character && t.voiceId == voiceId
  {
    var lines := LinesIn(rows, cols.charCol, character, cols.dialogueCol, cols.filenameCol);
    seq(|lines|, k requires 0 <= k < |lines| => Task(character, voiceId, lines[k].dialogue, lines[k].filename))
  }

  /** The task list: for each character of `m` in order, that character's
      tasks in sheet order. Every task carries its own character's voice
      id. */
  function BuildTasks(rows: Table, cols: Columns, m: seq<(string, string)>): (tasks: seq<Task>)
    requires DistinctKeys(m)
    ensures forall t :: t in tasks ==> t.character in Keys(m) && Lookup(m, t.character) == Some(t.voiceId)
  {
    if |m| == 0 then []
    else
      LookupEntry(m, 0);
      Block(rows, cols, m[0].0, m[0].1) + BuildTasks(rows, cols, m[1..])
  }

  /** The tasks of character `c`, in order. */
  function OfCharacter(tasks: seq<Task>, c: string): (r: seq<Task>)
  {
    if |tasks| == 0 then []
    else (if tasks[0].character == c then [tasks[0]] else []) + OfCharacter(tasks[1..], c)
  }

  lemma {:induction false} OfCharacterAppend(a: seq<Task>, b: seq<Task>, c: string)
    ensures OfCharacter(a + b, c) == OfCharacter(a, c) + OfCharacter(b, c)
    decreases |a|
  {
    if |a| > 0 {
      assert (a + b)[0] == a[0];
      assert (a + b)[1..] == a[1..] + b;
      OfCharacterAppend(a[1..], b, c);
    } else {
      assert a + b == b;
    }
  }

  lemma {:induction false} OfCharacterAll(tasks: seq<Task>, c: string)
    requires forall t :: t in tasks ==> t.character == c
    ensures OfCharacter(tasks, c) == tasks
    decreases |tasks|
  {
    if |tasks| > 0 {
      OfCharacterAll(tasks[1..], c);
    }
  }

  lemma {:induction false} OfCharacterNone(tasks: seq<Task>, c: string)
    requires forall t :: t in tasks ==> t.character != c
    ensures OfCharacter(tasks, c) == []
    decreases |tasks|
  {
    if |tasks| > 0 {
      OfCharacterNone(tasks[1..], c);
    }
  }

  /** Inner loop: the tasks of the i-th character of `m` are exactly its
      lines from `get_rows_for_character`, in sheet order, voiced with its
      id. */
  lemma {:induction false} BuildTasksPerCharacter(rows: Table, cols: Columns, m: seq<(string, string)>, i: nat)
    requires DistinctKeys(m) && i < |m|
    ensures OfCharacter(BuildTasks(rows, cols, m), m[i].0) == Block(rows, cols, m[i].0, m[i].1)
    decreases |m|
  {
    var first := Block(rows, cols, m[0].0, m[0].1);
    var rest := BuildTasks(rows, cols, m[1..]);
    OfCharacterAppend(first, rest, m[i].0);
    if i == 0 {
      OfCharacterAll(first, m[0].0);
      OfCharacterNone(rest, m[0].0);
    } else {
      assert m[0].0 != m[i].0;
      OfCharacterNone(first, m[i].0);
      BuildTasksPerCharacter(rows, cols, m[1..], i - 1);
    }
  }

  /** The tasks come in groups of one character each, and the groups
      follow the iteration order of `m`. */
  predicate GroupedBy(m: seq<(string, string)>, tasks: seq<Task>) {
    forall i, j :: 0 <= i < j < |tasks| ==> Position(m, tasks[i].character) <= Position(m, tasks[j].character)
  }

  /** Outer loop: the tasks are grouped by character, and the groups follow
      the order of `m`. */
  lemma {:induction false} BuildTasksGrouped(rows: Table, cols: Columns, m: seq<(string, string)>)
    requires DistinctKeys(m)
    ensures GroupedBy(m, BuildTasks(rows, cols, m))
    decreases |m|
  {
    if |m| > 0 {
      var first := Block(rows, cols, m[0].0, m[0].1);
      var rest := BuildTasks(rows, cols, m[1..]);
      BuildTasksGrouped(rows, cols, m[1..]);
      GroupedCons(m, first, rest);
    }
  }

  /** Putting the first character's group in front of groups ordered by the
      rest of `m` gives groups ordered by `m`. */
  lemma GroupedCons(m: seq<(string, string)>, first: seq<Task>, rest: seq<Task>)
    requires |m| > 0 && DistinctKeys(m)
    requires forall t :: t in first ==> t.character == m[0].0
    requires forall t :: t in rest ==> t.character in Keys(m[1..])
    requires GroupedBy(m[1..], rest)
    ensures GroupedBy(m, first + rest)
  {
    var tasks := first + rest;
    forall i, j | 0 <= i < j < |tasks|
      ensures Position(m, tasks[i].character) <= Position(m, tasks[j].character)
    {
      if i < |first| {
        assert tasks[i] in first;
      } else {
        assert tasks[i] == rest[i - |first|] && tasks[j] == rest[j - |first|];
        assert tasks[i] in rest && tasks[j] in rest;
      }
    }
  }

  /** The number of lines the characters of `m` have together. */
  function LineCount(rows: Table, cols: Columns, m: seq<(string, string)>): nat
  {
    if |m| == 0 then 0
    else |LinesIn(rows, cols.charCol, m[0].0, cols.dialogueCol, cols.filenameCol)|
         + LineCount(rows, cols, m[1..])
  }

  /** One task per line: the task list is as long as all the characters'
      line lists together. */
  lemma {:induction false} BuildTasksLength(rows: Table, cols: Columns, m: seq<(string, string)>)
    requires DistinctKeys(m)
    ensures |BuildTasks(rows, cols, m)| == LineCount(rows, cols, m)
    decreases |m|
  {
    if |m| > 0 {
      BuildTasksLength(rows, cols, m[1..]);
    }
  }
}
