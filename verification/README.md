# Voice generator core, modelled in Dafny

The voice generator reads a worksheet of dialogue lines and turns it into a
batch of speech-synthesis jobs. Each row holds a character name, a line of
dialogue and an output filename. The user picks a voice for each character,
and the application produces one `.wav` file per line. This project models
that pipeline's data handling and proves what it does:

- `ExcelReader.get_unique_values_in_column`: the sorted list of distinct
  character names in a column (`Sheet.UniqueValuesInColumn`).
- `ExcelReader.get_rows_for_character`: one character's dialogue and
  filename pairs, in sheet order (`Sheet.RowsForCharacter`).
- The body of `VoiceGeneratorApp.generate_voices`:
  - the guards that refuse to start;
  - the character-to-voice-id map (`Tasks.CharVoiceMap`);
  - the task list (`Tasks.BuildTasks`);
  - the batch loop `generate_all`, with its `.wav` filename coercion and
    its success/error tally (`Batch.GenerateAll`, `Batch.Run`);
  - everything tied together in `Generator.GenerateVoices`.

Modules follow the program's structure:

- `Strings`: Python's `str.strip()`, ASCII `lower()` and `str` ordering.
- `Sorting`: `sorted(set(...))` on strings.
- `Options`: `None` or a value, and filtering the present values.
- `Dict`: an insertion-ordered `dict`, as a list of entries.
- `Sheet`: the cached worksheet and the two `ExcelReader` queries.
- `Tasks`: the voice map and the task list.
- `Batch`: the generation loop.
- `Generator`: `generate_voices` end to end.
- `Examples`: a worked three-row sheet.

Behaviour of the code worth knowing, followed here as written:

- A cell holding only whitespace is truthy in Python, so it passes the
  truthiness test before being stripped.
  - In a character column it puts the name "" into the list.
  - As dialogue it yields a task whose text is "".
- The start row is used as a Python index `start_row - 1`, and Python
  counts negative indices from the end of the list.
  - A start row of 0 makes both readers visit the last row first and then
    the whole sheet. The character list is unaffected. A character's line
    from the last row is read twice (`Sheet.RowsForCharacterWrapAround`,
    `Examples.ExampleFromRowZero`).
  - A start row that reaches below the first row by more than the sheet's
    length raises IndexError. `get_unique_values_in_column` then fails.
    In `generate_voices` the exception escapes before the confirmation
    dialog, as soon as any character has a voice (the `RowIndexError` report of `Generator.GenerateVoices`).
  - Both readers return `[]` on an empty sheet before any indexing.
- The voice map iterates `voice_combos` in insertion order. The task list
  follows that order character by character, and sheet order within each
  character.

## Model

| member | source | states |
|---|---|---|
| Strings.Strip | voice_generator.py:113 | `strip()` yields the input's slice between leading and trailing whitespace; the result neither starts nor ends with whitespace |
| Strings.StripEmptyIffAllSpace | voice_generator.py:112-113 | a string strips to "" exactly when it is all whitespace |
| Strings.StripIdempotent | voice_generator.py:113 | stripping twice equals stripping once |
| Strings.BelowTotal | voice_generator.py:115 | Python's `str` order is total: two different strings are ordered one way or the other |
| Strings.BelowTransitive | voice_generator.py:115 | Python's `str` order is transitive |
| Strings.BelowIrreflexive | voice_generator.py:115 | no string is below itself |
| Sorting.SortedSet | voice_generator.py:115 | `sorted(set(xs))` is strictly ascending, has exactly the members of `xs`, and is no longer than `xs` |
| Sorting.AscendingUnique | voice_generator.py:115 | two strictly ascending lists with the same members are equal, so the sorted list is determined by the set |
| Sheet.Visited | voice_generator.py:104-111 | rows visited by `range(start_row - 1, len(data))`: none on an empty sheet; otherwise the length and each visited row `data[i]`, with negative `i` counting from the end; IndexError exactly when `start_row - 1 < -len(data)` |
| Sheet.VisitedAt | voice_generator.py:110-111 | every sheet row from index `start_row - 1` on is visited, at offset `i - (start_row - 1)`, whether or not the start wraps around |
| Sheet.VisitedFromRow | voice_generator.py:110-111 | from start row 1 on, the k-th visited row is sheet row `start_row - 1 + k` |
| Sheet.DistinctValues | voice_generator.py:108-115 | the list is strictly ascending and holds a value exactly when some visited row has a truthy cell in the column that strips to it |
| Sheet.UniqueValuesInColumn | voice_generator.py:102-115 | IndexError exactly when the start row is out of range; otherwise strictly ascending, and a value is listed exactly when a visited row has the column, the cell is truthy, and it strips to that value |
| Sheet.UniqueValuesFromRow | voice_generator.py:110-113 | from start row 1 on, a value is listed exactly when some sheet row at index `start_row - 1` or later yields it; short rows and falsy cells yield nothing |
| Sheet.UniqueValuesWrapAround | voice_generator.py:110-115 | an in-range start row of 0 or below gives the same list as start row 1 |
| Sheet.DistinctValuesOfSameRows | voice_generator.py:108-115 | the list depends only on which rows are visited, not on their order or repetition |
| Sheet.WhitespaceNameListedAsEmpty | voice_generator.py:112-113 | a non-empty whitespace-only name cell puts "" into the list |
| Sheet.Pick | voice_generator.py:132-143 | a row yields a line exactly when its character cell exists, is truthy and strips to the character, and its dialogue and filename cells exist and are truthy; the line holds the stripped cells |
| Sheet.WhitespaceDialogueKept | voice_generator.py:137-143 | a whitespace-only dialogue cell on a matching row still yields a line, with dialogue "" |
| Sheet.RowsForCharacter | voice_generator.py:117-144 | IndexError exactly when the start row is out of range; otherwise at most one line per visited row |
| Sheet.LinesInOrder | voice_generator.py:129-143 | the k-th line comes from the k-th producing visited row; source rows increase, and no producing row is skipped |
| Sheet.RowsForCharacterInSheetOrder | voice_generator.py:117-144 | from start row 1 on, the k-th line is the line of the k-th producing sheet row from the start row on; sheet order is kept and no producing row is skipped |
| Sheet.LinesInAppend | voice_generator.py:129-143 | the lines of two row lists read one after the other are the first list's lines followed by the second's |
| Sheet.RowsForCharacterWrapAround | voice_generator.py:129-130 | an in-range start row of 0 or below yields the lines of the last rows (those start row `start_row + len(data)` reads), followed by the lines of the whole sheet |
| Tasks.FirstVoiceIdIsFirst | voice_generator.py:640-643 | no id exactly when no voice has the selected name; otherwise the id of the earliest voice with that name |
| Tasks.CharVoiceMap | voice_generator.py:637-643 | keys are distinct; each character maps to the first matching voice id, a character without a match is absent, and no other key appears; keys keep the order of `voice_combos` |
| Tasks.BuildTasks | voice_generator.py:650-663 | every task's character is in the map, and the task carries the voice id the map gives that character |
| Tasks.BuildTasksPerCharacter | voice_generator.py:651-663 | the tasks of each mapped character are exactly its `get_rows_for_character` lines, in order, voiced with its id |
| Tasks.BuildTasksGrouped | voice_generator.py:651-663 | tasks are grouped by character, and the groups follow the map's iteration order |
| Tasks.BuildTasksLength | voice_generator.py:650-663 | the task list is as long as all the mapped characters' line lists together |
| Examples.ExampleFromRowOne | voice_generator.py:129-143 | on a three-row sheet, start row 1 gives A's two lines in sheet order |
| Examples.ExampleFromRowZero | voice_generator.py:129-130 | start row 0 visits index -1 first, so A's last line appears twice |
| Examples.ExampleFromRowTooLow | voice_generator.py:110-111 | start row -3 on a three-row sheet raises IndexError in both readers |
| Examples.BuildTasksExample | voice_generator.py:650-663 | with A before B in the map, the tasks are A's two lines in sheet order, then B's line |
| Batch.WithWavExtension | voice_generator.py:690-692 | the output name ends in `.wav` in some letter case; it is unchanged exactly when the name already did, and otherwise exactly `.wav` is appended |
| Batch.WithWavExtensionIdempotent | voice_generator.py:690-692 | coercing twice equals coercing once: no double extension |
| Batch.WithWavExtensionExamples | voice_generator.py:690-692 | "line01" becomes "line01.wav"; "line02.WAV" is kept |
| Batch.Run | voice_generator.py:677-704 | success plus error count equals the number of tasks; one written name per success and one failed name per error |
| Batch.RunCounts | voice_generator.py:680-701 | the success count is the number of positions whose pass reached `success_count += 1`, and the error count the number whose pass raised: each task is attempted exactly once |
| Batch.FailureIsLocal | voice_generator.py:697-701 | turning one success into a failure moves exactly one from the success count to the error count; the loop goes on after an error |
| Batch.RunWrittenNames | voice_generator.py:690-697 | the names recorded as successes are exactly the `.wav`-coerced filenames of the tasks whose pass reached `success_count += 1` |
| Batch.RunPrefix | voice_generator.py:677-704 | a result once recorded is never taken back: the tally after the first i tasks is a prefix of the final one, for both name lists, and neither count decreases |
| Batch.RunFailedNames | voice_generator.py:699-701 | the error messages name exactly the filenames of the tasks whose attempt failed |
| Batch.GenerateAll | voice_generator.py:672-704 | the loop's tally equals the fold over all tasks in order; the progress bar ends at the task count, and success plus error count equals that final bar value |
| Generator.TaskList | voice_generator.py:650-663 | IndexError exactly when the start row is out of range and some character has a voice; every task's voice id is the first catalogue id for its character's selected voice name |
| Generator.MapEmptyIffNoneResolves | voice_generator.py:637-643 | the map is empty exactly when no selected voice name names a catalogue voice |
| Generator.GenerateVoices | voice_generator.py:621-714 | in source order, each refusal happens exactly when its guard fails: no folder, no voice settings, no workbook, IndexError, no tasks, declined; otherwise every task is attempted and the tally accounts for each of them |

## Left out

- The tkinter interface is not modelled. This covers the window layout, voice selection widgets, message boxes, the status label, `root.update()`, button enabling, and preview playback through pygame. The yes/no confirmation is the `confirmed` parameter.
- The ElevenLabs HTTP client and `AudioConverter.mp3_to_wav` are foreign calls. The outcome of each synthesis-and-conversion attempt is the `attempt` parameter.
- Loading the workbook with openpyxl, `get_column_letters` and `_column_index` are left out. The sheet is given as rows of cells and the columns as 0-based indices.
- The model assumes all three columns are chosen. Loading a workbook clears the three column fields (voice_generator.py:413-415), and selecting a sheet fills only as many as the sheet has columns (447-452). On a one- or two-column sheet, `_column_index` then fails on an empty column name inside `get_rows_for_character` (124-126) as soon as the voice map is non-empty. `Generator.GenerateVoices` has no report for that failure.
- The meaning of a success: `Written` means the pass reached `success_count += 1`, not that a file exists. `mp3_to_wav` may write the WAV file and then raise while deleting its temporary MP3 (164-165); the model counts that as an error, as the source does.
- Non-text cell values, such as numbers and dates, are left out: cells are empty or text. For non-text values the source applies `str()` before stripping.
- Reading and writing the JSON config file, which stores the API key, is file I/O.
- Running `generate_all` on a daemon thread is concurrency and is not modelled.
- `os.makedirs` (voice_generator.py:635) is file-system I/O. It runs after the three guards, and an `OSError` there would end `generate_voices` before the voice map is built. The model assumes the output folder can always be created, so `Generator.GenerateVoices` has no report for that failure.
- The output file path built by `os.path.join` is not modelled; only the coerced filename is.
- The `int()` parse of the start row field is left out. The field is given already parsed, as `None` when parsing fails.
- The error messages printed by the loop are not modelled. Only the filenames they name are kept, in the failed list.
- Strings.Lower: lowers ASCII letters only, unlike Python's full Unicode `lower()`. For the `.wav` test the two agree, because only `.`, `w`, `a`, `v` and `W`, `A`, `V` lower to those four characters.
- Batch.GenerateAll: states the final progress bar value (the task count), not each intermediate value. The loop invariant carries the intermediate fact: the value is `i + 1` after task `i`.
- Sheet.RowsForCharacterInSheetOrder: relates lines to sheet rows for start rows of 1 or more only. For lower in-range start rows, `Sheet.RowsForCharacterWrapAround` reduces the result to two reads from start rows of 1 or more.
