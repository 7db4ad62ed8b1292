/**
 * The Home page's interaction state machine as values: the five pieces of
 * component state, the events that change them (each asynchronous step of
 * `handleFileSelect` and `handleSubmit` is an event of its own), one step,
 * and runs of many steps.
 *
 * Besides the five fields, a State records what the outside world still
 * owes the page: the files whose preview reads are under way and the number
 * of submissions awaiting a response. The page never looks at these; they
 * only say which completion events can happen.
 */
module HomeState {
  import opened Wrappers
  import opened Analysis

  datatype State = State(
    selectedFile: Option<File>,
    preview: Option<string>,
    result: Option<AnalysisResult>,
    loading: bool,
    error: Option<string>,
    pendingReads: multiset<File>,
    pendingSubmits: nat)

  /** Every `useState` starts at null / false; nothing is under way. */
  const Initial: State := State(None, None, None, false, None, multiset{}, 0)

  datatype Event =
    | SelectFile(file: Option<File>)                     // the input's change event; None: empty `files`
    | PreviewReadCompletes(target: File, dataUrl: string) // a FileReader's `onload`
    | PreviewReadFails(target: File)                      // a FileReader that never calls `onload`
    | SubmitStart                                         // `handleSubmit` up to its `await`
    | SubmitCompletes(outcome: Outcome)                   // `handleSubmit` after its `await` settles

  /** A completion can only arrive for a read or a submission that was started. */
  predicate Enabled(s: State, e: Event) {
    match e
    case PreviewReadCompletes(target, _) => target in s.pendingReads
    case PreviewReadFails(target) => target in s.pendingReads
    case SubmitCompletes(_) => s.pendingSubmits > 0
    case _ => true
  }

  /** One event of either handler; `StepFrame` says what it may change. */
  function Step(s: State, e: Event): State
  {
    match e
    case SelectFile(None) => s
    case SelectFile(Some(f)) =>
      s.(selectedFile := Some(f), result := None, error := None,
         pendingReads := s.pendingReads + multiset{f})
    case PreviewReadCompletes(target, dataUrl) =>
      s.(preview := Some(dataUrl), pendingReads := s.pendingReads - multiset{target})
    case PreviewReadFails(target) =>
      s.(pendingReads := s.pendingReads - multiset{target})
    case SubmitStart =>
      if s.selectedFile.None? then s
      else s.(loading := true, error := None, pendingSubmits := s.pendingSubmits + 1)
    case SubmitCompletes(outcome) =>
      var settled := s.(loading := false,
                        pendingSubmits := if s.pendingSubmits > 0 then s.pendingSubmits - 1 else 0);
      if outcome.Ok? then settled.(result := Some(outcome.data))
      else settled.(error := Some(FailureMessage(outcome)))
  }

  /**
   * What one event may change: only a change event with a file moves
   * `selectedFile`, never back to null; every completion clears `loading`; only an `onload` moves `preview`; `result` changes only
   * to null by a selection or to a success's data; `loading` is raised only
   * by a start, which clears `error`; a submit with nothing selected changes
   * nothing.
   */
  lemma StepFrame(s: State, e: Event)
    ensures var r := Step(s, e);
      (r.selectedFile != s.selectedFile ==> e.SelectFile? && r.selectedFile == e.file) &&
      (s.selectedFile.Some? ==> r.selectedFile.Some?) &&
      (e.SubmitCompletes? ==> !r.loading) &&
      (r.preview != s.preview ==> e.PreviewReadCompletes? && r.preview == Some(e.dataUrl)) &&
      (r.result != s.result ==>
        (e.SelectFile? && r.result == None) ||
        (e.SubmitCompletes? && e.outcome.Ok? && r.result == Some(e.outcome.data))) &&
      (r.loading && !s.loading ==> e.SubmitStart? && r.error == None) &&
      (e.SubmitStart? && s.selectedFile.None? ==> r == s)
  {
  }

  /** The state after the events `evs`, in order, starting from `s`. */
  function Run(s: State, evs: seq<Event>): State
    decreases |evs|
  {
    if evs == [] then s else Step(Run(s, evs[..|evs| - 1]), evs[|evs| - 1])
  }

  /** Every event of `evs` is one the world can deliver at that point. */
  predicate Feasible(s: State, evs: seq<Event>)
    decreases |evs|
  {
    evs == [] ||
    (Feasible(s, evs[..|evs| - 1]) && Enabled(Run(s, evs[..|evs| - 1]), evs[|evs| - 1]))
  }

  /**
   * What the code keeps true: `loading` only while a file is selected and a
   * submission is awaiting its response; a preview, a read under way or a
   * submission under way only once a file has been selected.
   */
  predicate Inv(s: State) {
    (s.loading ==> s.selectedFile.Some? && s.pendingSubmits > 0) &&
    (s.preview.Some? ==> s.selectedFile.Some?) &&
    (s.pendingReads != multiset{} ==> s.selectedFile.Some?) &&
    (s.pendingSubmits > 0 ==> s.selectedFile.Some?)
  }

  lemma InitialInv()
    ensures Inv(Initial)
  {
  }

  lemma StepInv(s: State, e: Event)
    requires Inv(s) && Enabled(s, e)
    ensures Inv(Step(s, e))
  {
  }

  lemma {:induction false} RunInv(s: State, evs: seq<Event>)
    requires Inv(s) && Feasible(s, evs)
    ensures Inv(Run(s, evs))
    decreases |evs|
  {
    if evs != [] {
      var n := |evs| - 1;
      RunInv(s, evs[..n]);
      StepInv(Run(s, evs[..n]), evs[n]);
    }
  }

  // ---------------------------------------------------------------------
  // Each field is the value written by the most recent event that writes it.
  // ---------------------------------------------------------------------

  /** Running `evs` then `e` is one more step after running `evs`. */
  lemma RunSnoc(s: State, evs: seq<Event>, e: Event)
    ensures Run(s, evs + [e]) == Step(Run(s, evs), e)
    ensures Feasible(s, evs + [e]) == (Feasible(s, evs) && Enabled(Run(s, evs), e))
  {
    assert (evs + [e])[..|evs|] == evs;
  }

  /** A change event that carries a file: the only writer of `selectedFile`. */
  predicate Selects(e: Event) {
    e.SelectFile? && e.file.Some?
  }

  /** Success results and new selections are the writers of `result`. */
  predicate WritesResult(e: Event) {
    Selects(e) || (e.SubmitCompletes? && e.outcome.Ok?)
  }

  /** Writer of `result`: a selection clears it, a success replaces it whole. */
  function ResultWritten(e: Event): Option<AnalysisResult>
    requires WritesResult(e)
  {
    if e.SubmitCompletes? then Some(e.outcome.data) else None
  }

  /** What one step does to `selectedFile`, `result` and `preview`. */
  lemma StepWrites(t: State, e: Event)
    ensures Step(t, e).selectedFile == if Selects(e) then e.file else t.selectedFile
    ensures Step(t, e).result == if WritesResult(e) then ResultWritten(e) else t.result
    ensures Step(t, e).preview == if e.PreviewReadCompletes? then Some(e.dataUrl) else t.preview
  {
  }

  /** The last step of a non-empty run, with the events before it. */
  lemma LastStep(s: State, evs: seq<Event>)
    requires evs != []
    ensures Run(s, evs) == Step(Run(s, evs[..|evs| - 1]), evs[|evs| - 1])
    ensures forall j :: 0 <= j < |evs| - 1 ==> evs[..|evs| - 1][j] == evs[j]
  {
  }

  lemma {:induction false} SelectionUnchanged(s: State, evs: seq<Event>)
    requires forall j :: 0 <= j < |evs| ==> !Selects(evs[j])
    ensures Run(s, evs).selectedFile == s.selectedFile
    decreases |evs|
  {
    if evs != [] {
      var n := |evs| - 1;
      LastStep(s, evs);
      StepWrites(Run(s, evs[..n]), evs[n]);
      SelectionUnchanged(s, evs[..n]);
    }
  }

  lemma {:induction false} SelectionIsLatest(s: State, evs: seq<Event>, i: nat)
    requires i < |evs| && Selects(evs[i])
    requires forall j :: i < j < |evs| ==> !Selects(evs[j])
    ensures Run(s, evs).selectedFile == evs[i].file
    decreases |evs|
  {
    var n := |evs| - 1;
    LastStep(s, evs);
    StepWrites(Run(s, evs[..n]), evs[n]);
    if i < n {
      SelectionIsLatest(s, evs[..n], i);
    }
  }

  /** Some file has been selected before the run or during it. */
  predicate FileChosen(s: State, evs: seq<Event>) {
    s.selectedFile.Some? || exists k :: 0 <= k < |evs| && Selects(evs[k])
  }

  /** Once a file is selected, `selectedFile` never becomes null again. */
  lemma {:induction false} SelectedIffChosen(s: State, evs: seq<Event>)
    ensures Run(s, evs).selectedFile.Some? <==> FileChosen(s, evs)
    decreases |evs|
  {
    if evs != [] {
      var n := |evs| - 1;
      LastStep(s, evs);
      StepWrites(Run(s, evs[..n]), evs[n]);
      SelectedIffChosen(s, evs[..n]);
      if Selects(evs[n]) {
        assert FileChosen(s, evs);
      } else if FileChosen(s, evs) && !s.selectedFile.Some? {
        var k :| 0 <= k < |evs| && Selects(evs[k]);
        assert k < n && Selects(evs[..n][k]);
      }
    }
  }

  lemma {:induction false} ResultUnchanged(s: State, evs: seq<Event>)
    requires forall j :: 0 <= j < |evs| ==> !WritesResult(evs[j])
    ensures Run(s, evs).result == s.result
    decreases |evs|
  {
    if evs != [] {
      var n := |evs| - 1;
      LastStep(s, evs);
      StepWrites(Run(s, evs[..n]), evs[n]);
      ResultUnchanged(s, evs[..n]);
    }
  }

  lemma {:induction false} ResultIsLatest(s: State, evs: seq<Event>, i: nat)
    requires i < |evs| && WritesResult(evs[i])
    requires forall j :: i < j < |evs| ==> !WritesResult(evs[j])
    ensures Run(s, evs).result == ResultWritten(evs[i])
    decreases |evs|
  {
    var n := |evs| - 1;
    LastStep(s, evs);
    StepWrites(Run(s, evs[..n]), evs[n]);
    if i < n {
      ResultIsLatest(s, evs[..n], i);
    }
  }

  lemma {:induction false} PreviewUnchanged(s: State, evs: seq<Event>)
    requires forall j :: 0 <= j < |evs| ==> !evs[j].PreviewReadCompletes?
    ensures Run(s, evs).preview == s.preview
    decreases |evs|
  {
    if evs != [] {
      var n := |evs| - 1;
      LastStep(s, evs);
      StepWrites(Run(s, evs[..n]), evs[n]);
      PreviewUnchanged(s, evs[..n]);
    }
  }

  /**
   * The preview is the data URL of the read that completed last, whichever
   * file that read was for and whatever was selected since.
   */
  lemma {:induction false} PreviewIsLatestRead(s: State, evs: seq<Event>, i: nat)
    requires i < |evs| && evs[i].PreviewReadCompletes?
    requires forall j :: i < j < |evs| ==> !evs[j].PreviewReadCompletes?
    ensures Run(s, evs).preview == Some(evs[i].dataUrl)
    decreases |evs|
  {
    var n := |evs| - 1;
    LastStep(s, evs);
    StepWrites(Run(s, evs[..n]), evs[n]);
    if i < n {
      PreviewIsLatestRead(s, evs[..n], i);
    }
  }

  /** The submit at index `i` passes the `if (!selectedFile) return` guard. */
  predicate StartsSubmission(s: State, evs: seq<Event>, i: nat)
    requires i < |evs|
  {
    evs[i].SubmitStart? && FileChosen(s, evs[..i])
  }

  /** Writers of `loading`: a submission that starts, and every completion. */
  predicate WritesLoading(s: State, evs: seq<Event>, i: nat)
    requires i < |evs|
  {
    StartsSubmission(s, evs, i) || evs[i].SubmitCompletes?
  }

  /** Writers of `error`: a selection, a submission that starts, a failed completion. */
  predicate WritesError(s: State, evs: seq<Event>, i: nat)
    requires i < |evs|
  {
    Selects(evs[i]) || StartsSubmission(s, evs, i) ||
    (evs[i].SubmitCompletes? && !evs[i].outcome.Ok?)
  }

  /** Writer of `error`: a failure's message, or null for a selection or a start. */
  function ErrorWritten(e: Event): Option<string> {
    if e.SubmitCompletes? && !e.outcome.Ok? then Some(FailureMessage(e.outcome)) else None
  }

  /** An index below `n` is a writer in `evs[..n]` exactly when it is one in `evs`. */
  lemma PrefixWriter(s: State, evs: seq<Event>, n: nat, j: nat)
    requires j < n <= |evs|
    ensures WritesLoading(s, evs[..n], j) <==> WritesLoading(s, evs, j)
    ensures WritesError(s, evs[..n], j) <==> WritesError(s, evs, j)
  {
    assert evs[..n][..j] == evs[..j];
  }

  /** The last event of `evs` sets `loading` if it writes it, and keeps it otherwise. */
  lemma LastStepLoading(s: State, evs: seq<Event>)
    requires evs != []
    ensures WritesLoading(s, evs, |evs| - 1) ==> Run(s, evs).loading == evs[|evs| - 1].SubmitStart?
    ensures !WritesLoading(s, evs, |evs| - 1) ==> Run(s, evs).loading == Run(s, evs[..|evs| - 1]).loading
  {
    SelectedIffChosen(s, evs[..|evs| - 1]);
  }

  /** The last event of `evs` sets `error` if it writes it, and keeps it otherwise. */
  lemma LastStepError(s: State, evs: seq<Event>)
    requires evs != []
    ensures WritesError(s, evs, |evs| - 1) ==> Run(s, evs).error == ErrorWritten(evs[|evs| - 1])
    ensures !WritesError(s, evs, |evs| - 1) ==> Run(s, evs).error == Run(s, evs[..|evs| - 1]).error
  {
    SelectedIffChosen(s, evs[..|evs| - 1]);
  }

  /** No writer of `loading` after index `i` in `evs` means none in its prefix `evs[..n]` either. */
  lemma NoLaterLoadingWriter(s: State, evs: seq<Event>, n: nat, i: int)
    requires n <= |evs| && -1 <= i
    requires forall j: nat :: i < j < |evs| ==> !WritesLoading(s, evs, j)
    ensures forall j: nat :: i < j < n ==> !WritesLoading(s, evs[..n], j)
  {
    forall j: nat | i < j < n
      ensures !WritesLoading(s, evs[..n], j)
    {
      PrefixWriter(s, evs, n, j);
    }
  }

  /** No writer of `error` after index `i` in `evs` means none in its prefix `evs[..n]` either. */
  lemma NoLaterErrorWriter(s: State, evs: seq<Event>, n: nat, i: int)
    requires n <= |evs| && -1 <= i
    requires forall j: nat :: i < j < |evs| ==> !WritesError(s, evs, j)
    ensures forall j: nat :: i < j < n ==> !WritesError(s, evs[..n], j)
  {
    forall j: nat | i < j < n
      ensures !WritesError(s, evs[..n], j)
    {
      PrefixWriter(s, evs, n, j);
    }
  }

  /**
   * `loading` is true exactly when the latest start-or-completion of a
   * submission is a start: every settlement clears it, even while another
   * submission is still awaiting its response.
   */
  lemma {:induction false} LoadingIsLatest(s: State, evs: seq<Event>, i: nat)
    requires i < |evs| && WritesLoading(s, evs, i)
    requires forall j: nat :: i < j < |evs| ==> !WritesLoading(s, evs, j)
    ensures Run(s, evs).loading == evs[i].SubmitStart?
    decreases |evs|
  {
    var n := |evs| - 1;
    LastStepLoading(s, evs);
    if i < n {
      assert !WritesLoading(s, evs, n);
      PrefixWriter(s, evs, n, i);
      NoLaterLoadingWriter(s, evs, n, i);
      LoadingIsLatest(s, evs[..n], i);
      assert evs[..n][i] == evs[i];
    }
  }

  lemma {:induction false} LoadingUnchanged(s: State, evs: seq<Event>)
    requires forall j: nat :: j < |evs| ==> !WritesLoading(s, evs, j)
    ensures Run(s, evs).loading == s.loading
    decreases |evs|
  {
    if evs != [] {
      LastStepLoading(s, evs);
      NoLaterLoadingWriter(s, evs, |evs| - 1, -1);
      LoadingUnchanged(s, evs[..|evs| - 1]);
    }
  }

  /**
   * `error` holds the message of the latest failure, unless a selection or a
   * submission start has cleared it since; a success leaves it alone.
   */
  lemma {:induction false} ErrorIsLatest(s: State, evs: seq<Event>, i: nat)
    requires i < |evs| && WritesError(s, evs, i)
    requires forall j: nat :: i < j < |evs| ==> !WritesError(s, evs, j)
    ensures Run(s, evs).error == ErrorWritten(evs[i])
    decreases |evs|
  {
    var n := |evs| - 1;
    LastStepError(s, evs);
    if i < n {
      assert !WritesError(s, evs, n);
      PrefixWriter(s, evs, n, i);
      NoLaterErrorWriter(s, evs, n, i);
      ErrorIsLatest(s, evs[..n], i);
      assert evs[..n][i] == evs[i];
    }
  }

  lemma {:induction false} ErrorUnchanged(s: State, evs: seq<Event>)
    requires forall j: nat :: j < |evs| ==> !WritesError(s, evs, j)
    ensures Run(s, evs).error == s.error
    decreases |evs|
  {
    if evs != [] {
      LastStepError(s, evs);
      NoLaterErrorWriter(s, evs, |evs| - 1, -1);
      ErrorUnchanged(s, evs[..|evs| - 1]);
    }
  }

  // ---------------------------------------------------------------------
  // Behaviours of the code that an idealised controller would not have.
  // ---------------------------------------------------------------------

  /** Two selections from the initial state: the second is selected, both reads are owed. */
  lemma TwoSelections(a: File, b: File)
    ensures var evs := [SelectFile(Some(a)), SelectFile(Some(b))];
      Feasible(Initial, evs) &&
      Run(Initial, evs) == Initial.(selectedFile := Some(b), pendingReads := multiset{a} + multiset{b})
  {
    var e0, e1 := SelectFile(Some(a)), SelectFile(Some(b));
    RunSnoc(Initial, [], e0);
    assert [] + [e0] == [e0];
    RunSnoc(Initial, [e0], e1);
    assert [e0] + [e1] == [e0, e1];
  }

  /**
   * Reads are not tagged with the selection they serve: when the read for an
   * older file completes last, its data URL is shown beside the newer file.
   */
  lemma StaleReadOverwritesPreview(a: File, b: File, urlA: string, urlB: string)
    ensures var evs := [SelectFile(Some(a)), SelectFile(Some(b)),
                        PreviewReadCompletes(b, urlB), PreviewReadCompletes(a, urlA)];
      Feasible(Initial, evs) &&
      Run(Initial, evs).selectedFile == Some(b) &&
      Run(Initial, evs).preview == Some(urlA)
  {
    var e0, e1, e2, e3 := SelectFile(Some(a)), SelectFile(Some(b)),
                          PreviewReadCompletes(b, urlB), PreviewReadCompletes(a, urlA);
    var p2 := [e0, e1];
    var p3 := p2 + [e2];
    TwoSelections(a, b);
    var s2 := Run(Initial, p2);
    assert s2.pendingReads[a] >= (if a == b then 2 else 1);
    RunSnoc(Initial, p2, e2);
    var s3 := Run(Initial, p3);
    assert s3 == s2.(preview := Some(urlB), pendingReads := s2.pendingReads - multiset{b});
    assert s3.pendingReads[a] >= 1;
    RunSnoc(Initial, p3, e3);
    assert p3 + [e3] == [e0, e1, e2, e3];
  }

  /**
   * Nothing rejects a second submit while one is under way: after two starts
   * and one settlement `loading` is false although a response is still owed.
   */
  lemma ReentrantCompletionClearsLoading(f: File, outcome: Outcome)
    ensures var evs := [SelectFile(Some(f)), SubmitStart, SubmitStart, SubmitCompletes(outcome)];
      Feasible(Initial, evs) &&
      !Run(Initial, evs).loading && Run(Initial, evs).pendingSubmits == 1
  {
    var e0, e3 := SelectFile(Some(f)), SubmitCompletes(outcome);
    var p1 := [e0];
    var p2 := p1 + [SubmitStart];
    var p3 := p2 + [SubmitStart];
    var p4 := p3 + [e3];
    RunSnoc(Initial, [], e0);
    assert [] + [e0] == p1;
    RunSnoc(Initial, p1, SubmitStart);
    RunSnoc(Initial, p2, SubmitStart);
    assert Run(Initial, p3).pendingSubmits == 2;
    RunSnoc(Initial, p3, e3);
    assert p4 == [e0, SubmitStart, SubmitStart, e3];
  }

  /**
   * A failed submission keeps the previous result: after a success and then
   * a failure, `result` and `error` are both populated.
   */
  lemma ResultSurvivesLaterFailure(f: File, data: AnalysisResult, outcome: Outcome)
    requires !outcome.Ok?
    ensures var evs := [SelectFile(Some(f)), SubmitStart, SubmitCompletes(Ok(data)),
                        SubmitStart, SubmitCompletes(outcome)];
      Feasible(Initial, evs) &&
      Run(Initial, evs).result == Some(data) &&
      Run(Initial, evs).error == Some(FailureMessage(outcome))
  {
    var e0, e2, e4 := SelectFile(Some(f)), SubmitCompletes(Ok(data)), SubmitCompletes(outcome);
    var p1 := [e0];
    var p2 := p1 + [SubmitStart];
    var p3 := p2 + [e2];
    var p4 := p3 + [SubmitStart];
    var p5 := p4 + [e4];
    RunSnoc(Initial, [], e0);
    assert [] + [e0] == p1;
    RunSnoc(Initial, p1, SubmitStart);
    RunSnoc(Initial, p2, e2);
    assert Run(Initial, p3).result == Some(data);
    RunSnoc(Initial, p3, SubmitStart);
    assert Run(Initial, p4).pendingSubmits == 1;
    RunSnoc(Initial, p4, e4);
    assert p5 == [e0, SubmitStart, e2, SubmitStart, e4];
  }

  /**
   * A success does not clear `error`: when an overlapping submission failed
   * after this one started, its message stays beside the new result.
   */
  lemma OverlappingFailureSurvivesSuccess(f: File, data: AnalysisResult, outcome: Outcome)
    requires !outcome.Ok?
    ensures var evs := [SelectFile(Some(f)), SubmitStart, SubmitStart,
                        SubmitCompletes(outcome), SubmitCompletes(Ok(data))];
      Feasible(Initial, evs) &&
      Run(Initial, evs).result == Some(data) &&
      Run(Initial, evs).error == Some(FailureMessage(outcome)) &&
      !Run(Initial, evs).loading
  {
    var e0, e3, e4 := SelectFile(Some(f)), SubmitCompletes(outcome), SubmitCompletes(Ok(data));
    var p1 := [e0];
    var p2 := p1 + [SubmitStart];
    var p3 := p2 + [SubmitStart];
    var p4 := p3 + [e3];
    var p5 := p4 + [e4];
    RunSnoc(Initial, [], e0);
    assert [] + [e0] == p1;
    RunSnoc(Initial, p1, SubmitStart);
    RunSnoc(Initial, p2, SubmitStart);
    RunSnoc(Initial, p3, e3);
    assert Run(Initial, p4).pendingSubmits == 1;
    assert Run(Initial, p4).error == Some(FailureMessage(outcome));
    RunSnoc(Initial, p4, e4);
    assert p5 == [e0, SubmitStart, SubmitStart, e3, e4];
  }
}
