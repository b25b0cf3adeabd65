/** The batch loop of `generate_voices` (`generate_all`): every task is
    attempted once, in list order; a task whose speech request or audio
    conversion fails is counted as an error and the loop goes on; the
    progress bar advances by one per task. Synthesis and conversion are not
    modelled: `attempt(i, task)` says how the i-th attempt turned out. */
module Batch {
  import opened Strings
  import opened Tasks

  /** How one pass of the loop's `try` block ended: it reached
      `success_count += 1` (`Written`), or an exception escaped from
      `generate_speech` or from `mp3_to_wav`. `Written` says nothing about
      the file system: `mp3_to_wav` may write the file and still raise
      while removing its temporary MP3, which is an error here as in the
      source. A failure of the status label update in the same block counts
      like a speech failure. */
  datatype Outcome = Written | SpeechFailed | ConversionFailed

  /** The tally: counts, the output filenames of the successful passes
      (after the `.wav` coercion) and the task filenames reported in error messages, both in
      task order. */
  datatype Summary = Summary(successCount: nat, errorCount: nat, written: seq<string>, failed: seq<string>)

  /** `filename.lower().endswith(".wav")` */
  predicate HasWavExtension(name: string) {
    |name| >= 4 && Lower(name[|name| - 4..]) == ".wav"
  }

  /** The output filename: `.wav` is appended unless the name already ends
      with it in any letter case. */
  function WithWavExtension(name: string): (out: string)
    ensures HasWavExtension(out)
    ensures out == name <==> HasWavExtension(name)
    ensures out == name || out == name + ".wav"
  {
    if HasWavExtension(name) then name
    else
      assert (name + ".wav")[|name + ".wav"| - 4..] == ".wav";
      name + ".wav"
  }

  /** Coercing twice changes nothing more: no double `.wav`. */
  lemma WithWavExtensionIdempotent(name: string)
    ensures WithWavExtension(WithWavExtension(name)) == WithWavExtension(name)
  {
  }

  /** "line01" gets ".wav"; "line02.WAV" is kept as it is. */
  lemma WithWavExtensionExamples()
    ensures WithWavExtension("line01") == "line01.wav"
    ensures WithWavExtension("line02.WAV") == "line02.WAV"
  {
    assert "line02.WAV"[6..] == ".WAV";
    assert Lower(".WAV") == ".wav";
    assert "line01"[2..] == "ne01";
    assert Lower("ne01")[0] == 'n';
  }

  /** One pass of the loop body. */
  function Record(s: Summary, task: Task, o: Outcome): Summary {
    if o == Written then
      s.(successCount := s.successCount + 1, written := s.written + [WithWavExtension(task.filename)])
    else
      s.(errorCount := s.errorCount + 1, failed := s.failed + [task.filename])
  }

  /** The tally after attempting every task of `tasks` in order, the i-th
      with outcome `attempt(i, tasks[i])`. */
  function Run(tasks: seq<Task>, attempt: (nat, Task) -> Outcome): (s: Summary)
    ensures s.successCount + s.errorCount == |tasks|
    ensures |s.written| == s.successCount && |s.failed| == s.errorCount
    decreases |tasks|
  {
    if |tasks| == 0 then Summary(0, 0, [], [])
    else
      var n := |tasks| - 1;
      Record(Run(tasks[..n], attempt), tasks[n], attempt(n, tasks[n]))
  }

  /** The positions whose attempt succeeded, and those whose attempt
      failed. */
  ghost function WrittenAt(tasks: seq<Task>, attempt: (nat, Task) -> Outcome): set<nat> {
    set i: nat | i < |tasks| && attempt(i, tasks[i]) == Written
  }

  ghost function FailedAt(tasks: seq<Task>, attempt: (nat, Task) -> Outcome): set<nat> {
    set i: nat | i < |tasks| && attempt(i, tasks[i]) != Written
  }

  /** How the two position sets grow when one more task is attempted. */
  lemma AtStep(tasks: seq<Task>, attempt: (nat, Task) -> Outcome)
    requires |tasks| > 0
    ensures var n := |tasks| - 1;
            if attempt(n, tasks[n]) == Written then
              WrittenAt(tasks, attempt) == WrittenAt(tasks[..n], attempt) + {n}
              && FailedAt(tasks, attempt) == FailedAt(tasks[..n], attempt)
            else
              WrittenAt(tasks, attempt) == WrittenAt(tasks[..n], attempt)
              && FailedAt(tasks, attempt) == FailedAt(tasks[..n], attempt) + {n}
  {
    var n := |tasks| - 1;
    assert forall i :: 0 <= i < n ==> tasks[..n][i] == tasks[i];
  }

  /** Each task is attempted exactly once: the success count is the number
      of positions whose attempt succeeded, the error count the number
      whose attempt failed, wherever in the list the failures are. */
  lemma {:induction false} RunCounts(tasks: seq<Task>, attempt: (nat, Task) -> Outcome)
    ensures Run(tasks, attempt).successCount == |WrittenAt(tasks, attempt)|
    ensures Run(tasks, attempt).errorCount == |FailedAt(tasks, attempt)|
    decreases |tasks|
  {
    if |tasks| == 0 {
      assert WrittenAt(tasks, attempt) == {};
      assert FailedAt(tasks, attempt) == {};
    } else {
      var n := |tasks| - 1;
      RunCounts(tasks[..n], attempt);
      AtStep(tasks, attempt);
      assert n !in WrittenAt(tasks[..n], attempt) && n !in FailedAt(tasks[..n], attempt);
    }
  }

  /** A failure stays local: turning the successful attempt at position `k`
      into a failure moves exactly one task from the success count to the
      error count and changes no other attempt. */
  lemma FailureIsLocal(tasks: seq<Task>, attempt: (nat, Task) -> Outcome,
                       attempt': (nat, Task) -> Outcome, k: nat)
    requires k < |tasks| && attempt(k, tasks[k]) == Written && attempt'(k, tasks[k]) != Written
    requires forall i :: 0 <= i < |tasks| && i != k ==> attempt'(i, tasks[i]) == attempt(i, tasks[i])
    ensures Run(tasks, attempt').successCount == Run(tasks, attempt).successCount - 1
    ensures Run(tasks, attempt').errorCount == Run(tasks, attempt).errorCount + 1
  {
    RunCounts(tasks, attempt);
    RunCounts(tasks, attempt');
    AtLocalChange(tasks, attempt, attempt', k);
  }

  lemma AtLocalChange(tasks: seq<Task>, attempt: (nat, Task) -> Outcome,
                      attempt': (nat, Task) -> Outcome, k: nat)
    requires k < |tasks| && attempt(k, tasks[k]) == Written && attempt'(k, tasks[k]) != Written
    requires forall i :: 0 <= i < |tasks| && i != k ==> attempt'(i, tasks[i]) == attempt(i, tasks[i])
    ensures |WrittenAt(tasks, attempt')| == |WrittenAt(tasks, attempt)| - 1
    ensures |FailedAt(tasks, attempt')| == |FailedAt(tasks, attempt)| + 1
  {
    assert k in WrittenAt(tasks, attempt) && k !in FailedAt(tasks, attempt);
    assert WrittenAt(tasks, attempt') == WrittenAt(tasks, attempt) - {k};
    assert FailedAt(tasks, attempt') == FailedAt(tasks, attempt) + {k};
  }

  /** The names recorded as successes are the coerced filenames of exactly
      the tasks whose attempt succeeded. */
  lemma {:induction false} RunWrittenNames(tasks: seq<Task>, attempt: (nat, Task) -> Outcome)
    ensures forall i :: 0 <= i < |tasks| && attempt(i, tasks[i]) == Written ==>
              WithWavExtension(tasks[i].filename) in Run(tasks, attempt).written
    ensures forall w :: w in Run(tasks, attempt).written ==>
              exists i :: 0 <= i < |tasks| && attempt(i, tasks[i]) == Written && w == WithWavExtension(tasks[i].filename)
  {
    forall i | 0 <= i < |tasks| && attempt(i, tasks[i]) == Written
      ensures WithWavExtension(tasks[i].filename) in Run(tasks, attempt).written
    {
      WrittenRecorded(tasks, attempt, i);
    }
    WrittenFromTasks(tasks, attempt);
  }

  lemma {:induction false} WrittenRecorded(tasks: seq<Task>, attempt: (nat, Task) -> Outcome, i: nat)
    requires i < |tasks| && attempt(i, tasks[i]) == Written
    ensures WithWavExtension(tasks[i].filename) in Run(tasks, attempt).written
    decreases |tasks|
  {
    var n := |tasks| - 1;
    if i < n {
      WrittenRecorded(tasks[..n], attempt, i);
    }
  }

  lemma {:induction false} WrittenFromTasks(tasks: seq<Task>, attempt: (nat, Task) -> Outcome)
    ensures forall w :: w in Run(tasks, attempt).written ==>
              exists i :: 0 <= i < |tasks| && attempt(i, tasks[i]) == Written && w == WithWavExtension(tasks[i].filename)
    decreases |tasks|
  {
    if |tasks| > 0 {
      var n := |tasks| - 1;
      var before := Run(tasks[..n], attempt);
      WrittenFromTasks(tasks[..n], attempt);
      forall w | w in Run(tasks, attempt).written
        ensures exists i :: 0 <= i < |tasks| && attempt(i, tasks[i]) == Written && w == WithWavExtension(tasks[i].filename)
      {
        if w in before.written {
          var i :| 0 <= i < n && attempt(i, tasks[..n][i]) == Written && w == WithWavExtension(tasks[..n][i].filename);
          assert tasks[..n][i] == tasks[i];
        }
      }
    }
  }

  /** The error messages name the filenames of exactly the tasks whose
      attempt failed. */
  lemma {:induction false} RunFailedNames(tasks: seq<Task>, attempt: (nat, Task) -> Outcome)
    ensures forall i :: 0 <= i < |tasks| && attempt(i, tasks[i]) != Written ==>
              tasks[i].filename in Run(tasks, attempt).failed
    ensures forall f :: f in Run(tasks, attempt).failed ==>
              exists i :: 0 <= i < |tasks| && attempt(i, tasks[i]) != Written && f == tasks[i].filename
  {
    forall i | 0 <= i < |tasks| && attempt(i, tasks[i]) != Written
      ensures tasks[i].filename in Run(tasks, attempt).failed
    {
      FailedRecorded(tasks, attempt, i);
    }
    FailedFromTasks(tasks, attempt);
  }

  lemma {:induction false} FailedRecorded(tasks: seq<Task>, attempt: (nat, Task) -> Outcome, i: nat)
    requires i < |tasks| && attempt(i, tasks[i]) != Written
    ensures tasks[i].filename in Run(tasks, attempt).failed
    decreases |tasks|
  {
    var n := |tasks| - 1;
    if i < n {
      FailedRecorded(tasks[..n], attempt, i);
    }
  }

  lemma {:induction false} FailedFromTasks(tasks: seq<Task>, attempt: (nat, Task) -> Outcome)
    ensures forall f :: f in Run(tasks, attempt).failed ==>
              exists i :: 0 <= i < |tasks| && attempt(i, tasks[i]) != Written && f == tasks[i].filename
    decreases |tasks|
  {
    if |tasks| > 0 {
      var n := |tasks| - 1;
      var before := Run(tasks[..n], attempt);
      FailedFromTasks(tasks[..n], attempt);
      forall f | f in Run(tasks, attempt).failed
        ensures exists i :: 0 <= i < |tasks| && attempt(i, tasks[i]) != Written && f == tasks[i].filename
      {
        if f in before.failed {
          var i :| 0 <= i < n && attempt(i, tasks[..n][i]) != Written && f == tasks[..n][i].filename;
          assert tasks[..n][i] == tasks[i];
        }
      }
    }
  }

  /** Attempting one more task extends the tally by that task's outcome. */
  lemma RunStep(tasks: seq<Task>, attempt: (nat, Task) -> Outcome, i: nat)
    requires i < |tasks|
    ensures Run(tasks[..i + 1], attempt) == Record(Run(tasks[..i], attempt), tasks[i], attempt(i, tasks[i]))
  {
    assert tasks[..i + 1][..i] == tasks[..i];
  }

  /** One pass of the loop body only appends to the tally. */
  lemma RecordExtends(s: Summary, task: Task, o: Outcome)
    ensures s.written <= Record(s, task, o).written && s.failed <= Record(s, task, o).failed
  {
  }

  lemma PrefixTransitive<T>(a: seq<T>, b: seq<T>, c: seq<T>)
    requires a <= b && b <= c
    ensures a <= c
  {
  }

  /** What is recorded stays recorded: the tally of the first `i` tasks
      is a prefix of the final one, name lists and counts alike. */
  lemma {:induction false} RunPrefix(tasks: seq<Task>, attempt: (nat, Task) -> Outcome, i: nat)
    requires i <= |tasks|
    ensures Run(tasks[..i], attempt).written <= Run(tasks, attempt).written
    ensures Run(tasks[..i], attempt).failed <= Run(tasks, attempt).failed
    ensures Run(tasks[..i], attempt).successCount <= Run(tasks, attempt).successCount
    ensures Run(tasks[..i], attempt).errorCount <= Run(tasks, attempt).errorCount
    decreases |tasks|
  {
    if i < |tasks| {
      var n := |tasks| - 1;
      var early, mid, late := Run(tasks[..i], attempt), Run(tasks[..n], attempt), Run(tasks, attempt);
      RunPrefix(tasks[..n], attempt, i);
      assert tasks[..n][..i] == tasks[..i];
      assert late == Record(mid, tasks[n], attempt(n, tasks[n]));
      RecordExtends(mid, tasks[n], attempt(n, tasks[n]));
      PrefixTransitive(early.written, mid.written, late.written);
      PrefixTransitive(early.failed, mid.failed, late.failed);
    } else {
      assert tasks[..i] == tasks;
    }
  }

  /** `generate_all`'s loop. `progress` is the progress bar's value, whose
      maximum is the number of tasks: it starts at 0 and is set to `i + 1`
      after the i-th task, whatever that task's outcome. */
  method GenerateAll(tasks: seq<Task>, attempt: (nat, Task) -> Outcome) returns (summary: Summary, progress: nat)
    ensures summary == Run(tasks, attempt)
    ensures progress == |tasks|
    ensures summary.successCount + summary.errorCount == progress
  {
    summary := Summary(0, 0, [], []);
    progress := 0;
    var i := 0;
    while i < |tasks|
      invariant 0 <= i <= |tasks|
      invariant summary == Run(tasks[..i], attempt)
      invariant progress == i
    {
      var task := tasks[i];
      RunStep(tasks, attempt, i);
      summary := Record(summary, task, attempt(i, task));
      progress := i + 1;
      i := i + 1;
    }
    assert tasks[..|tasks|] == tasks;
  }
}
