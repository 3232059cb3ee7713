# Batch voice synthesis: a model of the generation loop

The program reads an API key and a speaker id, then reads a manifest that maps
request ids to `{context, wavName}` records. For each entry in manifest order it
asks a text-to-speech endpoint for audio and writes the audio to
`exports/<wavName>`. If the output file already exists it first asks the
operator whether to regenerate it. Only an answer that lower-cases to `y`
overwrites the file. The run ends with a tally of successes, skips and failures.

This project models `main()` of `voice.py`:

- the startup guards that stop the run before any entry: export directory
  creation, an empty API key, and a manifest that is not a non-empty dictionary;
- the per-entry loop with its four outcomes: malformed entry, operator skip,
  synthesis success with a file write, and synthesis failure;
- the three counters.

The outside world becomes explicit inputs and outputs:

- the filesystem is a `map` from path to bytes;
- the operator's terminal is the sequence of lines typed, read one per conflict;
- the endpoint is the response it gives to each entry: an HTTP status and body,
  or a transport error;
- every request sent is recorded, as (key, speaker, text), in the run's state.

Modules:

- `Config` (config.dfy): credentials, the manifest document, the two startup
  predicates, and entry validation.
- `Conflict` (conflict.dfy): the output path (`os.path.join` on POSIX) and the
  overwrite decision (`lower() == 'y'`).
- `Synthesis` (synthesis.dfy): the request and the response.
- `Orchestrator` (orchestrator.dfy): `Step` (one entry), `Run` (the loop as a
  fold), `Main` (the guards, then the loop), and `RunBatch`. `RunBatch` is the
  imperative routine: the guards with early returns, then `ProcessEntries`,
  a `for` loop with local counters, a local file map, an answer cursor and
  `continue`. `ProcessEntries` is proved equal to `Run` and `RunBatch` to
  `Main`.
- `Properties` (properties.dfy): lemmas per entry, per run and per program.

## Model

| member | source | states |
|---|---|---|
| Config.ParseEntry | voice.py:101-111 | An entry is valid exactly when it is a record holding both `context` and `wavName`, and the request carries those two values. A non-record is reported as such. A missing `context` is reported first, even when `wavName` is missing too. |
| Config.ApiKeyAccepted | voice.py:32-34 | The credentials pass the startup check exactly when the API key has at least one character. What a rejected key leads to (a halt before any entry, with no file changed) is stated by `Properties.MainHalts`. |
| Config.ManifestAccepted | voice.py:77-79 | The manifest passes the startup check exactly when it is a dictionary holding at least one item. What a rejected manifest leads to (a halt before any entry, with no file changed) is stated by `Properties.MainHalts`. |
| Conflict.JoinPathShape | voice.py:114 | As POSIX `os.path.join` does: the joined path ends with the name. An absolute name replaces the directory. A relative name follows the directory, separated by exactly one `/`. |
| Conflict.OutputPath | voice.py:114 | A relative `wavName` is written to `exports/<wavName>`. An absolute one is used as it is. |
| Conflict.OutputPathInjective | voice.py:114 | Joining different output names to the export directory never gives the same path string. |
| Conflict.Lower | voice.py:125 | Lower-casing keeps the length and maps each character on its own. |
| Conflict.AuthorisesOverwrite | voice.py:121-128 | The overwrite test `answer.lower() == 'y'` holds if and only if the answer is `"y"` or `"Y"`. |
| Conflict.CommonAnswersDecline | voice.py:124-128 | The empty default, `n`, `N`, `yes` and ` y` all decline the overwrite. |
| Orchestrator.Step | voice.py:98-162 | One entry adds one to exactly the counter its outcome calls for. Files change only on a successful synthesis. No file is removed. At most one answer is read. The batch stops for lack of input only when the entry is valid, its file exists and no answer is left. |
| Orchestrator.Run | voice.py:98-162 | No entry, whatever its outcome, halts the program the way a startup error does. A run that stops early stops at one of its own entries. |
| Orchestrator.Before | voice.py:98-162 | The loop's state just before entry `k`: by then the counters have grown by exactly `k`, and every file present at the start is still present. |
| Orchestrator.Main | voice.py:11-167 | The startup guards apply in the source's order: directory creation, then the API key, then the manifest. The reported startup error is the first guard that fails. The loop runs only when all three pass. |
| Orchestrator.RunBatch | voice.py:11-167 | The imperative main routine returns exactly `Main`'s result. It halts before any entry if and only if a startup guard fails. A completed run's counters add up to the number of manifest entries. A run stopped at entry `at` has counted exactly the `at` entries before it. |
| Orchestrator.ProcessEntries | voice.py:93-162 | The imperative per-entry loop, from an empty tally, returns exactly the result of `Run`. A completed loop has counted every entry once. A loop stopped at entry `at` has counted exactly the `at` entries before it. |
| Properties.StepMalformed | voice.py:101-111 | A malformed entry adds one failure and changes nothing else: no answer read, no request, no file. |
| Properties.StepNoConflict | voice.py:119-141 | When the output file is absent, no answer is read and one request carrying the entry's text is sent. |
| Properties.StepConflict | voice.py:119-130 | When the output file exists, exactly one answer is read. The entry is skipped if and only if that answer is neither `y` nor `Y`. A skip sends no request, leaves the files unchanged and adds one skip. |
| Properties.StepSynthesis | voice.py:139-162 | On status 200 the output path holds exactly the response body afterwards, whether new or overwritten, and one success is added. On any other status or a transport error the files are unchanged and one failure is added. |
| Properties.LaterDuplicatePrompts | voice.py:119-150 | Once an entry has written its file, any later entry `k` with the same `wavName` that the loop reaches finds that file. It then reads one answer, or stops at the end of input. |
| Properties.BeforeRun | voice.py:93-162 | The state before entry `k` is the loop's own state there. If the loop reaches entry `k`, the rest of the run continues from that state over the remaining entries. If it stops earlier, the run ends for lack of input before entry `k`. |
| Properties.RunStopsOnlyAtPrompt | voice.py:119-128 | A run ends before its last entry only at a well-formed entry whose output file exists when no operator answer is left. Malformed entries, declined overwrites and failed requests never stop it. |
| Properties.RunAccounting | voice.py:93-162 | Over any stretch of the loop, counters never decrease. The total grows by exactly the number of entries iterated: all of them on completion, those before entry `at` when input runs out. |
| Properties.RunFrame | voice.py:98-162 | A run changes no file outside the output paths of its well-formed entries, and it removes no file. |
| Properties.RunWritesOnlyResponses | voice.py:144-150 | Every file a run creates or changes holds the full body of a status-200 response to an entry that targets that path. |
| Properties.RunAllDeclined | voice.py:119-128 | If all target files exist and every answer declines, a run sends no request, changes no file and adds no success. With enough answers it completes, with one more skip per well-formed entry. |
| Properties.RunNoConflicts | voice.py:98-162 | If no target file exists beforehand and no two entries share an output, no answer is read, nothing is skipped and the run completes. If the endpoint always answers 200, every well-formed entry succeeds and only the malformed ones fail. |
| Properties.MainHalts | voice.py:15-79 | The program halts before any entry exactly when the export directory cannot be created, the API key is empty, or the manifest is not a non-empty dictionary. In each of those cases the files are left as they were. However the program ends, only the manifest entries' output paths can differ from the files before it started. |
| Properties.MainCompletes | voice.py:93-167 | Past the startup guards, a completed run reports counters that add up to the manifest size, and only the entries' output paths can differ from the files before the run. |
| Properties.ExampleSuccess | voice.py:139-150 | Example: a one-entry manifest, no existing file, and status 200 with body `AUDIO`. Then `exports/v1.wav` holds exactly `AUDIO` and the tally is 1/0/0. |
| Properties.ExampleRateLimited | voice.py:152-157 | Example: the same manifest with status 429. No file is created and the tally is 0/0/1. |

## Left out

- Reading and parsing the credentials and manifest JSON files is not modelled. This covers the handling of a missing file, invalid JSON and a missing key (voice.py:24-46, 73-87). The model starts from the parsed values.
- The API key is modelled as a string. Python's `not API_KEY` also rejects other falsy JSON values (`null`, `0`, `[]`), which the model does not represent.
- The quota lookup (voice.py:50-70) only prints, changes no state and never stops the run, so it is not modelled.
- The `str()` normalisation of the speaker id is assumed to have happened already.
- All console output is left out, including the 30-character text preview and the error messages.
- `os.makedirs` is a boolean input saying whether the export directory could be created.
- Field values are modelled as strings. In the source a non-string `wavName`, or a `context` that cannot be sliced (a number, a boolean, null), raises an uncaught exception, and a list `context` is sent as repeated `text` parameters. The model represents neither.
- `Conflict.Lower` maps only ASCII letters. Python's `str.lower()` maps all of Unicode. No character other than `Y` lower-cases to `y`, so the contract of `Conflict.AuthorisesOverwrite` holds for Python's `lower()` too.
- Paths follow POSIX `os.path.join` for two components. Windows path rules, normalisation (`..`, repeated separators) and directories on disk are not modelled. The filesystem is a map of regular files only, so an empty `wavName` naming the export directory itself is not modelled.
- Writing a file is assumed to succeed. A failing `open`/`write` raises an uncaught `OSError` in the source, and that crash is not modelled.
- The endpoint is represented by the response it gives to each entry. That response is only consulted when the entry actually sends a request. Query encoding, timeouts and the HTTP exchange itself are not modelled.
- When the operator's input ends at a prompt, `input()` raises an uncaught `EOFError`. The model stops the run there as `InputClosed`: files written so far remain, and no tally is reported. Interrupts (Ctrl-C) are not modelled.
- Python dictionaries have unique keys. The model's manifest is a sequence of (key, value) pairs and relies on nothing about the keys, which are used only in messages.
