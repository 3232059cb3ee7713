/** What the batch loop guarantees: per entry, over a whole run, and for the
    program including its startup guards. */
module Properties {
  import opened Config
  import opened Conflict
  import opened Synthesis
  import opened Orchestrator

  /** The output path a manifest entry targets, if it is well formed. */
  function Target(v: EntryValue): set<string>
  {
    match ParseEntry(v)
    case Valid(req) => {OutputPath(req.wavName)}
    case Malformed(_) => {}
  }

  /** All output paths the entries target. */
  function TargetPaths(entries: seq<(string, EntryValue)>): set<string>
  {
    if entries == [] then {} else Target(entries[0].1) + TargetPaths(entries[1..])
  }

  /** The number of well-formed entries. */
  function ValidCount(entries: seq<(string, EntryValue)>): nat
  {
    if entries == [] then 0
    else (if ParseEntry(entries[0].1).Valid? then 1 else 0) + ValidCount(entries[1..])
  }

  /** No two well-formed entries target the same file. */
  predicate DistinctTargets(entries: seq<(string, EntryValue)>)
  {
    entries == [] || (Target(entries[0].1) !! TargetPaths(entries[1..]) && DistinctTargets(entries[1..]))
  }

  /** `b` holds what `a` holds at every path outside `paths`. */
  ghost predicate SameOutside(a: FileMap, b: FileMap, paths: set<string>)
  {
    forall p :: p !in paths ==> (p in a <==> p in b) && (p in a ==> a[p] == b[p])
  }

  /** Counters only ever grow. */
  predicate TallyGrows(a: Tally, b: Tally)
  {
    a.success <= b.success && a.skip <= b.skip && a.fail <= b.fail
  }

  // ---------------------------------------------------------------------
  // One entry
  // ---------------------------------------------------------------------

  /** A malformed entry counts as a failure and touches nothing else: no
      prompt, no request, no file. */
  lemma StepMalformed(c: Credentials, st: State, v: EntryValue, response: Response, answers: seq<string>)
    requires ParseEntry(v).Malformed?
    ensures Step(c, st, v, response, answers)
            == Processed(st.(tally := st.tally.(fail := st.tally.fail + 1)), MalformedSkip(ParseEntry(v).why))
  {
  }

  /** When the output file does not exist no answer is read, and the entry's
      text is sent to the endpoint. */
  lemma StepNoConflict(c: Credentials, st: State, v: EntryValue, response: Response, answers: seq<string>)
    requires ParseEntry(v).Valid?
    requires OutputPath(ParseEntry(v).req.wavName) !in st.files
    ensures var r := Step(c, st, v, response, answers);
            r.Processed? && r.st.answersUsed == st.answersUsed
            && r.st.calls == st.calls + [SynthesisCall(c.apiKey, c.speakerId, ParseEntry(v).req.text)]
  {
  }

  /** When the output file exists, exactly one answer is read; unless it is
      "y" or "Y" the entry is skipped with no request and no file change. */
  lemma StepConflict(c: Credentials, st: State, v: EntryValue, response: Response, answers: seq<string>)
    requires ParseEntry(v).Valid?
    requires OutputPath(ParseEntry(v).req.wavName) in st.files
    requires st.answersUsed < |answers|
    ensures var r := Step(c, st, v, response, answers);
            r.Processed? && r.st.answersUsed == st.answersUsed + 1
            && (r.outcome == UserSkip <==> !(answers[st.answersUsed] == "y" || answers[st.answersUsed] == "Y"))
            && (r.outcome == UserSkip ==> r.st.files == st.files && r.st.calls == st.calls
                                          && r.st.tally == st.tally.(skip := st.tally.skip + 1))
  {
  }

  /** A request that gets status 200 leaves its output path holding exactly
      the response body, whether the file was new or overwritten; any other
      answer leaves every file as it was. */
  lemma StepSynthesis(c: Credentials, st: State, v: EntryValue, response: Response, answers: seq<string>)
    requires ParseEntry(v).Valid?
    requires var path := OutputPath(ParseEntry(v).req.wavName);
             path !in st.files || (st.answersUsed < |answers| && AuthorisesOverwrite(answers[st.answersUsed]))
    ensures var r := Step(c, st, v, response, answers);
            var path := OutputPath(ParseEntry(v).req.wavName);
            r.Processed?
            && (Succeeded(response) ==> r.outcome == SynthesisSuccess
                                        && r.st.files == st.files[path := response.content]
                                        && r.st.tally == st.tally.(success := st.tally.success + 1))
            && (!Succeeded(response) ==> r.outcome == SynthesisFailure(response)
                                         && r.st.files == st.files
                                         && r.st.tally == st.tally.(fail := st.tally.fail + 1))
  {
  }

  /** A later entry with the same output name as one written earlier in the
      run finds the file: if the loop reaches it, it prompts, reading one
      answer or stopping at the end of input. */
  lemma LaterDuplicatePrompts(c: Credentials, st: State, entries: seq<(string, EntryValue)>,
                              responses: seq<Response>, answers: seq<string>, k: nat)
    requires |responses| == |entries|
    requires 0 < k < |entries|
    requires ParseEntry(entries[0].1).Valid? && ParseEntry(entries[k].1).Valid?
    requires ParseEntry(entries[0].1).req.wavName == ParseEntry(entries[k].1).req.wavName
    requires Step(c, st, entries[0].1, responses[0], answers).Processed?
    requires Step(c, st, entries[0].1, responses[0], answers).outcome == SynthesisSuccess
    ensures var b := Before(c, st, entries, responses, answers, k);
            b.Reached? ==>
              && OutputPath(ParseEntry(entries[k].1).req.wavName) in b.st.files
              && var r := Step(c, b.st, entries[k].1, responses[k], answers);
                 r.EndOfInput? || r.st.answersUsed == b.st.answersUsed + 1
  {
    var next := Step(c, st, entries[0].1, responses[0], answers).st;
    assert OutputPath(ParseEntry(entries[0].1).req.wavName) in next.files;
    assert Before(c, st, entries, responses, answers, k)
           == Before(c, next, entries[1..], responses[1..], answers, k - 1);
  }

  /** Before is the run cut at entry `k`: when the loop reaches entry `k`
      the rest of the run continues from that state, and when it stops
      earlier the run itself ends there for lack of input. */
  lemma {:induction false} BeforeRun(c: Credentials, st: State, entries: seq<(string, EntryValue)>,
                                     responses: seq<Response>, answers: seq<string>, at: nat, k: nat)
    requires |responses| == |entries|
    requires k <= |entries|
    ensures var b := Before(c, st, entries, responses, answers, k);
            && (b.Reached? ==> Run(c, st, entries, responses, answers, at)
                               == Run(c, b.st, entries[k..], responses[k..], answers, at + k))
            && (b.Stopped? ==> var end := Run(c, st, entries, responses, answers, at);
                               end.InputClosed? && end.at < at + k)
    decreases k
  {
    if k > 0 {
      match Step(c, st, entries[0].1, responses[0], answers)
      case EndOfInput =>
      case Processed(next, _) =>
        BeforeRun(c, next, entries[1..], responses[1..], answers, at + 1, k - 1);
        assert entries[1..][k - 1..] == entries[k..];
        assert responses[1..][k - 1..] == responses[k..];
    }
  }

  // ---------------------------------------------------------------------
  // A whole run
  // ---------------------------------------------------------------------

  /** Every entry iterated adds one to exactly one counter, and no counter
      ever decreases. A run that completes has iterated every entry; one
      stopped by the end of input has iterated those before entry `at`. */
  lemma {:induction false} RunAccounting(c: Credentials, st: State, entries: seq<(string, EntryValue)>,
                                         responses: seq<Response>, answers: seq<string>, at: nat)
    requires |responses| == |entries|
    ensures var end := Run(c, st, entries, responses, answers, at);
            !end.Halted? && TallyGrows(st.tally, end.st.tally)
            && (end.Completed? ==> end.st.tally.Total() == st.tally.Total() + |entries|)
            && (end.InputClosed? ==> at <= end.at < at + |entries|
                                     && end.st.tally.Total() == st.tally.Total() + (end.at - at))
    decreases |entries|
  {
    if entries != [] {
      match Step(c, st, entries[0].1, responses[0], answers)
      case EndOfInput =>
      case Processed(next, _) =>
        RunAccounting(c, next, entries[1..], responses[1..], answers, at + 1);
    }
  }

  /** A run ends before its last entry only at a well-formed entry whose
      output file exists when the operator has no answer left; every
      malformed entry, declined overwrite and failed request lets the loop
      go on to the next entry. */
  lemma {:induction false} RunStopsOnlyAtPrompt(c: Credentials, st: State, entries: seq<(string, EntryValue)>,
                                                responses: seq<Response>, answers: seq<string>, at: nat)
    requires |responses| == |entries|
    ensures var end := Run(c, st, entries, responses, answers, at);
            end.InputClosed? ==> at <= end.at < at + |entries|
                                 && PromptsWithoutInput(end.st, entries[end.at - at].1, answers)
    decreases |entries|
  {
    if entries != [] {
      match Step(c, st, entries[0].1, responses[0], answers)
      case EndOfInput =>
      case Processed(next, _) =>
        RunStopsOnlyAtPrompt(c, next, entries[1..], responses[1..], answers, at + 1);
        var end := Run(c, next, entries[1..], responses[1..], answers, at + 1);
        if end.InputClosed? {
          assert entries[1..][end.at - (at + 1)] == entries[end.at - at];
        }
    }
  }

  /** Only the entries' own output paths can change, and no file is ever
      removed. */
  lemma {:induction false} RunFrame(c: Credentials, st: State, entries: seq<(string, EntryValue)>,
                                    responses: seq<Response>, answers: seq<string>, at: nat)
    requires |responses| == |entries|
    ensures var end := Run(c, st, entries, responses, answers, at);
            !end.Halted?
            && SameOutside(st.files, end.st.files, TargetPaths(entries))
            && st.files.Keys <= end.st.files.Keys
    decreases |entries|
  {
    if entries != [] {
      match Step(c, st, entries[0].1, responses[0], answers)
      case EndOfInput =>
      case Processed(next, _) =>
        RunFrame(c, next, entries[1..], responses[1..], answers, at + 1);
    }
  }

  /** Every file the run created or changed holds the body of a status-200
      response to an entry targeting that path: there are no partial writes. */
  lemma {:induction false} RunWritesOnlyResponses(c: Credentials, st: State, entries: seq<(string, EntryValue)>,
                                                  responses: seq<Response>, answers: seq<string>, at: nat,
                                                  p: string)
    requires |responses| == |entries|
    requires var end := Run(c, st, entries, responses, answers, at);
             !end.Halted? && p in end.st.files && (p !in st.files || end.st.files[p] != st.files[p])
    ensures var end := Run(c, st, entries, responses, answers, at);
            exists k :: 0 <= k < |entries| && p in Target(entries[k].1)
                        && responses[k] == Http(StatusOk, end.st.files[p])
    decreases |entries|
  {
    var end := Run(c, st, entries, responses, answers, at);
    if entries != [] {
      match Step(c, st, entries[0].1, responses[0], answers)
      case EndOfInput =>
      case Processed(next, o) =>
        assert end == Run(c, next, entries[1..], responses[1..], answers, at + 1);
        if p in next.files && (p !in st.files || next.files[p] != st.files[p]) && !(p in end.st.files && (p !in next.files || end.st.files[p] != next.files[p])) {
          // written by this entry and untouched afterwards
          assert o == SynthesisSuccess;
          assert p in Target(entries[0].1);
          assert responses[0] == Http(StatusOk, end.st.files[p]);
        } else {
          RunWritesOnlyResponses(c, next, entries[1..], responses[1..], answers, at + 1, p);
          var k :| 0 <= k < |entries| - 1 && p in Target(entries[1..][k].1)
                   && responses[1..][k] == Http(StatusOk, end.st.files[p]);
          assert entries[1..][k] == entries[k + 1] && responses[1..][k] == responses[k + 1];
        }
    }
  }

  /** Re-running over outputs that all exist, with every answer declining:
      no request is sent, no file changes, nothing succeeds; with an answer
      for every well-formed entry the run completes and skips each of them. */
  lemma {:induction false} RunAllDeclined(c: Credentials, st: State, entries: seq<(string, EntryValue)>,
                                          responses: seq<Response>, answers: seq<string>, at: nat)
    requires |responses| == |entries|
    requires forall k :: 0 <= k < |answers| ==> !AuthorisesOverwrite(answers[k])
    requires TargetPaths(entries) <= st.files.Keys
    ensures var end := Run(c, st, entries, responses, answers, at);
            !end.Halted? && end.st.files == st.files && end.st.calls == st.calls
            && end.st.tally.success == st.tally.success
    ensures st.answersUsed + ValidCount(entries) <= |answers| ==>
            var end := Run(c, st, entries, responses, answers, at);
            end.Completed? && end.st.tally.skip == st.tally.skip + ValidCount(entries)
    decreases |entries|
  {
    if entries != [] {
      assert TargetPaths(entries[1..]) <= st.files.Keys;
      match Step(c, st, entries[0].1, responses[0], answers)
      case EndOfInput =>
      case Processed(next, o) =>
        assert o.MalformedSkip? || o == UserSkip;
        RunAllDeclined(c, next, entries[1..], responses[1..], answers, at + 1);
    }
  }

  /** With no output present beforehand and no two entries sharing an
      output, the operator is never prompted and nothing is skipped; if the
      endpoint always answers 200, every well-formed entry succeeds. */
  lemma {:induction false} RunNoConflicts(c: Credentials, st: State, entries: seq<(string, EntryValue)>,
                                          responses: seq<Response>, answers: seq<string>, at: nat)
    requires |responses| == |entries|
    requires TargetPaths(entries) !! st.files.Keys
    requires DistinctTargets(entries)
    ensures var end := Run(c, st, entries, responses, answers, at);
            end.Completed? && end.st.answersUsed == st.answersUsed && end.st.tally.skip == st.tally.skip
    ensures (forall k :: 0 <= k < |responses| ==> Succeeded(responses[k])) ==>
            var end := Run(c, st, entries, responses, answers, at);
            end.st.tally.success == st.tally.success + ValidCount(entries)
            && end.st.tally.fail == st.tally.fail + (|entries| - ValidCount(entries))
    decreases |entries|
  {
    if entries != [] {
      var r := Step(c, st, entries[0].1, responses[0], answers);
      assert r.Processed?;
      var next := r.st;
      assert next.files.Keys <= st.files.Keys + Target(entries[0].1);
      assert TargetPaths(entries[1..]) !! next.files.Keys;
      RunNoConflicts(c, next, entries[1..], responses[1..], answers, at + 1);
      if forall k :: 0 <= k < |responses| ==> Succeeded(responses[k]) {
        assert Succeeded(responses[0]);
        assert forall k :: 0 <= k < |responses[1..]| ==> Succeeded(responses[1..][k]) by {
          forall k | 0 <= k < |responses[1..]| ensures Succeeded(responses[1..][k]) {
            assert responses[1..][k] == responses[k + 1];
          }
        }
        assert ValidCount(entries) <= |entries| by { ValidCountBound(entries); }
      }
    }
  }

  lemma {:induction false} ValidCountBound(entries: seq<(string, EntryValue)>)
    ensures ValidCount(entries) <= |entries|
    decreases |entries|
  {
    if entries != [] {
      ValidCountBound(entries[1..]);
    }
  }

  // ---------------------------------------------------------------------
  // The program
  // ---------------------------------------------------------------------

  /** The run halts before any entry exactly when the export directory could
      not be created, the API key is empty, or the manifest is not a
      non-empty dictionary; then no file is written and no tally reported.
      However the program ends, only the manifest entries' output paths can
      differ from the files present before it started. */
  lemma MainHalts(dirCreated: bool, c: Credentials, m: ManifestDoc, files: FileMap,
                  answers: seq<string>, responses: seq<Response>)
    requires m.Dict? ==> |responses| == |m.items|
    ensures var end := Main(dirCreated, c, m, files, answers, responses);
            (end.Halted? <==> !dirCreated || c.apiKey == "" || m.NotDict? || m.items == [])
            && ((!dirCreated || c.apiKey == "" || m.NotDict? || m.items == []) ==> FinalFiles(end, files) == files)
            && (m.Dict? ==> SameOutside(files, FinalFiles(end, files), TargetPaths(m.items)))
  {
    if dirCreated && ApiKeyAccepted(c) && ManifestAccepted(m) {
      RunFrame(c, Initial(files), m.items, responses, answers, 0);
    }
  }

  /** Once past the startup guards, the reported counters add up to the
      number of manifest entries, and only the entries' output paths differ
      from the files present before the run. */
  lemma MainCompletes(dirCreated: bool, c: Credentials, m: ManifestDoc, files: FileMap,
                      answers: seq<string>, responses: seq<Response>)
    requires m.Dict? ==> |responses| == |m.items|
    requires dirCreated && c.apiKey != "" && m.Dict? && m.items != []
    ensures var end := Main(dirCreated, c, m, files, answers, responses);
            !end.Halted?
            && (end.Completed? ==> end.st.tally.Total() == |m.items|)
            && SameOutside(files, end.st.files, TargetPaths(m.items))
  {
    RunAccounting(c, Initial(files), m.items, responses, answers, 0);
    RunFrame(c, Initial(files), m.items, responses, answers, 0);
  }

  /** A one-entry manifest, no existing file, the endpoint answering 200 with
      "AUDIO": the file exports/v1.wav holds exactly those bytes and the
      tally is one success. */
  lemma ExampleSuccess()
    ensures var item := ("v1", Record(map["context" := "hello", "wavName" := "v1.wav"]));
            var audio: Bytes := [65, 85, 68, 73, 79];
            var end := Main(true, Credentials("key", "3"), Dict([item]), map[], [], [Http(200, audio)]);
            end == Completed(State(Tally(1, 0, 0), map["exports/v1.wav" := audio], 0,
                                   [SynthesisCall("key", "3", "hello")]))
  {
    assert OutputPath("v1.wav") == "exports/v1.wav";
  }

  /** The same manifest with the endpoint answering 429: no file is created
      and the tally is one failure. */
  lemma ExampleRateLimited()
    ensures var item := ("v1", Record(map["context" := "hello", "wavName" := "v1.wav"]));
            var end := Main(true, Credentials("key", "3"), Dict([item]), map[], [], [Http(429, [])]);
            end == Completed(State(Tally(0, 0, 1), map[], 0, [SynthesisCall("key", "3", "hello")]))
  {
  }
}
