/** The batch synthesis loop: for each manifest entry in order, validate it,
    resolve a conflict with an existing file, call the synthesis endpoint and
    write the audio on success, keeping a tally of successes, skips and
    failures. The filesystem, the operator's terminal and the endpoint are
    explicit inputs: a map from path to file contents, the sequence of lines
    the operator types, and the response the endpoint gives for each entry. */
module Orchestrator {
  import opened Config
  import opened Conflict
  import opened Synthesis

  /** The files present on disk, by path. */
  type FileMap = map<string, Bytes>

  datatype Tally = Tally(success: nat, skip: nat, fail: nat)
  {
    function Total(): nat
    {
      success + skip + fail
    }
  }

  /** Everything the loop changes: the tally, the files on disk, how many
      operator answers have been read, and the synthesis requests sent so far. */
  datatype State = State(tally: Tally, files: FileMap, answersUsed: nat, calls: seq<SynthesisCall>)

  function Initial(files: FileMap): State
  {
    State(Tally(0, 0, 0), files, 0, [])
  }

  /** The four ways one entry can end. */
  datatype Outcome =
    | MalformedSkip(why: Malformation)
    | UserSkip
    | SynthesisSuccess
    | SynthesisFailure(response: Response)

  /** An entry is processed, or the operator's input ends while the
      overwrite prompt waits for an answer. */
  datatype StepResult = Processed(st: State, outcome: Outcome) | EndOfInput

  /** Exactly the counter that matches the outcome grows by one. */
  predicate CountedOnce(before: Tally, after: Tally, o: Outcome)
  {
    match o
    case SynthesisSuccess => after == before.(success := before.success + 1)
    case UserSkip => after == before.(skip := before.skip + 1)
    case _ => after == before.(fail := before.fail + 1)
  }

  /** The one situation in which an entry stops the batch: it is well formed,
      its output file exists, and the operator has no answer left to give. */
  predicate PromptsWithoutInput(st: State, v: EntryValue, answers: seq<string>)
  {
    && ParseEntry(v).Valid?
    && OutputPath(ParseEntry(v).req.wavName) in st.files
    && |answers| <= st.answersUsed
  }

  /** Processing of one manifest entry. `response` is what the endpoint
      answers if this entry is sent to it. */
  function Step(c: Credentials, st: State, v: EntryValue, response: Response, answers: seq<string>): (r: StepResult)
    ensures r.Processed? ==> CountedOnce(st.tally, r.st.tally, r.outcome)
    ensures r.Processed? && !r.outcome.SynthesisSuccess? ==> r.st.files == st.files
    ensures r.Processed? ==> st.files.Keys <= r.st.files.Keys
    ensures r.Processed? ==> st.answersUsed <= r.st.answersUsed <= st.answersUsed + 1
    ensures r.EndOfInput? <==> PromptsWithoutInput(st, v, answers)
  {
    match ParseEntry(v)
    case Malformed(why) =>
      Processed(st.(tally := st.tally.(fail := st.tally.fail + 1)), MalformedSkip(why))
    case Valid(req) =>
      var path := OutputPath(req.wavName);
      var conflict := path in st.files;
      if conflict && |answers| <= st.answersUsed then
        EndOfInput
      else if conflict && !AuthorisesOverwrite(answers[st.answersUsed]) then
        Processed(st.(tally := st.tally.(skip := st.tally.skip + 1), answersUsed := st.answersUsed + 1), UserSkip)
      else
        var used := if conflict then st.answersUsed + 1 else st.answersUsed;
        var calls := st.calls + [SynthesisCall(c.apiKey, c.speakerId, req.text)];
        if Succeeded(response) then
          Processed(State(st.tally.(success := st.tally.success + 1), st.files[path := response.content], used, calls),
                    SynthesisSuccess)
        else
          Processed(State(st.tally.(fail := st.tally.fail + 1), st.files, used, calls), SynthesisFailure(response))
  }

  datatype StartupError = ExportDirFailed | EmptyApiKey | ManifestNotUsable

  /** How a run ends: halted at startup before any entry, stopped at entry
      `at` because the operator's input ended, or completed with a tally. */
  datatype RunEnd =
    | Halted(why: StartupError)
    | InputClosed(st: State, at: nat)
    | Completed(st: State)

  /** The loop over the remaining entries, `at` being the position of the
      first of them in the manifest. No entry's problem halts the batch the
      way a startup error does; a run that stops early stops at one of its
      own entries (which one, and why, is RunStopsOnlyAtPrompt). */
  function Run(c: Credentials, st: State, entries: seq<(string, EntryValue)>, responses: seq<Response>,
               answers: seq<string>, at: nat): (r: RunEnd)
    requires |responses| == |entries|
    ensures !r.Halted?
    ensures r.InputClosed? ==> at <= r.at < at + |entries|
    decreases |entries|
  {
    if entries == [] then Completed(st)
    else
      match Step(c, st, entries[0].1, responses[0], answers)
      case EndOfInput => InputClosed(st, at)
      case Processed(next, _) => Run(c, next, entries[1..], responses[1..], answers, at + 1)
  }

  /** Where the loop stands just before entry `k` of `entries`: the state
      reached after the entries before it, or stopped at the end of input. */
  datatype Position = Reached(st: State) | Stopped

  /** The loop's state before entry `k`. The counters have grown by exactly
      `k`, and every file present at the start is still present. */
  function Before(c: Credentials, st: State, entries: seq<(string, EntryValue)>, responses: seq<Response>,
                  answers: seq<string>, k: nat): (r: Position)
    requires |responses| == |entries|
    requires k <= |entries|
    ensures r.Reached? ==> r.st.tally.Total() == st.tally.Total() + k
    ensures r.Reached? ==> st.files.Keys <= r.st.files.Keys
    decreases k
  {
    if k == 0 then Reached(st)
    else
      match Step(c, st, entries[0].1, responses[0], answers)
      case EndOfInput => Stopped
      case Processed(next, _) => Before(c, next, entries[1..], responses[1..], answers, k - 1)
  }

  /** The whole program: the startup guards in order, then the loop from an
      empty tally. `dirCreated` says whether the export directory could be
      created. */
  function Main(dirCreated: bool, c: Credentials, m: ManifestDoc, files: FileMap,
                answers: seq<string>, responses: seq<Response>): (r: RunEnd)
    requires m.Dict? ==> |responses| == |m.items|
    ensures r == Halted(ExportDirFailed) <==> !dirCreated
    ensures r == Halted(EmptyApiKey) <==> dirCreated && !ApiKeyAccepted(c)
    ensures r == Halted(ManifestNotUsable) <==> dirCreated && ApiKeyAccepted(c) && !ManifestAccepted(m)
    ensures !r.Halted? ==> dirCreated && ApiKeyAccepted(c) && ManifestAccepted(m)
  {
    if !dirCreated then Halted(ExportDirFailed)
    else if !ApiKeyAccepted(c) then Halted(EmptyApiKey)
    else if !ManifestAccepted(m) then Halted(ManifestNotUsable)
    else Run(c, Initial(files), m.items, responses, answers, 0)
  }

  /** The files on disk once the program has ended. */
  function FinalFiles(end: RunEnd, files: FileMap): FileMap
  {
    if end.Halted? then files else end.st.files
  }

  /** The program's main routine: startup guards, then the per-entry loop
      with its three counters. */
  method RunBatch(dirCreated: bool, c: Credentials, m: ManifestDoc, files0: FileMap,
                  answers: seq<string>, responses: seq<Response>) returns (end: RunEnd)
    requires m.Dict? ==> |responses| == |m.items|
    ensures end == Main(dirCreated, c, m, files0, answers, responses)
    ensures end.Halted? <==> !dirCreated || !ApiKeyAccepted(c) || !ManifestAccepted(m)
    ensures end.Completed? ==> end.st.tally.Total() == |m.items|
    ensures end.InputClosed? ==> end.at < |m.items| && end.st.tally.Total() == end.at
  {
    if !dirCreated {
      return Halted(ExportDirFailed);
    }
    if c.apiKey == "" {
      return Halted(EmptyApiKey);
    }
    if !m.Dict? || |m.items| == 0 {
      return Halted(ManifestNotUsable);
    }
    end := ProcessEntries(c, m.items, files0, answers, responses);
  }

  /** The per-entry loop of the main routine, from an empty tally: local
      counters, a local copy of the files, a cursor into the operator's
      answers, and `continue` past malformed and skipped entries. */
  method ProcessEntries(c: Credentials, entries: seq<(string, EntryValue)>, files0: FileMap,
                        answers: seq<string>, responses: seq<Response>) returns (end: RunEnd)
    requires |responses| == |entries|
    ensures end == Run(c, Initial(files0), entries, responses, answers, 0)
    ensures end.Completed? ==> end.st.tally.Total() == |entries|
    ensures end.InputClosed? ==> end.at < |entries| && end.st.tally.Total() == end.at
  {
    var successCount, skipCount, failCount := 0, 0, 0;
    var files := files0;
    var used := 0;
    var calls := [];
    ghost var whole := Run(c, Initial(files0), entries, responses, answers, 0);
    for i := 0 to |entries|
      invariant successCount + skipCount + failCount == i
      invariant used <= |answers|
      invariant whole == Run(c, State(Tally(successCount, skipCount, failCount), files, used, calls),
                             entries[i..], responses[i..], answers, i)
    {
      assert entries[i..][0] == entries[i] && entries[i..][1..] == entries[i + 1..];
      assert responses[i..][0] == responses[i] && responses[i..][1..] == responses[i + 1..];
      var parsed := ParseEntry(entries[i].1);
      if parsed.Malformed? {
        failCount := failCount + 1;
        continue;
      }
      var req := parsed.req;
      var path := OutputPath(req.wavName);
      if path in files {
        if used == |answers| {
          return InputClosed(State(Tally(successCount, skipCount, failCount), files, used, calls), i);
        }
        var answer := answers[used];
        used := used + 1;
        if !AuthorisesOverwrite(answer) {
          skipCount := skipCount + 1;
          continue;
        }
      }
      calls := calls + [SynthesisCall(c.apiKey, c.speakerId, req.text)];
      match responses[i]
      case Http(status, content) =>
        if status == StatusOk {
          files := files[path := content];
          successCount := successCount + 1;
        } else {
          failCount := failCount + 1;
        }
      case TransportError(_) =>
        failCount := failCount + 1;
    }
    end := Completed(State(Tally(successCount, skipCount, failCount), files, used, calls));
  }
}
