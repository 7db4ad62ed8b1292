/**
 * The `Home` component's state and handlers, updated in place. Each
 * asynchronous handler is split at its suspension point: `SelectFile` issues
 * a preview read that `PreviewReadCompletes` (or `PreviewReadFails`) later
 * finishes, and `SubmitStart` issues a request that `SubmitCompletes` later
 * settles with the outcome the network and the JSON parser produced.
 */
module HomeComponent {
  import opened Wrappers
  import opened Analysis
  import HomeState

  class Home {
    var selectedFile: Option<File>
    var preview: Option<string>
    var result: Option<AnalysisResult>
    var loading: bool
    var error: Option<string>

    // What the outside world still owes the component: preview reads under
    // way (by target file) and submissions awaiting a response.
    ghost var pendingReads: multiset<File>
    ghost var pendingSubmits: nat

    ghost function Snapshot(): HomeState.State
      reads this
    {
      HomeState.State(selectedFile, preview, result, loading, error, pendingReads, pendingSubmits)
    }

    ghost predicate Valid()
      reads this
    {
      HomeState.Inv(Snapshot())
    }

    constructor ()
      ensures Valid() && Snapshot() == HomeState.Initial
      ensures selectedFile == None && preview == None && result == None
      ensures !loading && error == None
    {
      selectedFile, preview, result, loading, error := None, None, None, false, None;
      pendingReads, pendingSubmits := multiset{}, 0;
    }

    /**
     * The file input's change handler. With no file it does nothing; with a
     * file it makes that file the selection, clears `result` and `error`, and
     * starts reading it for the preview; the old preview stays until then.
     */
    method SelectFile(file: Option<File>)
      requires Valid()
      modifies this
      ensures Valid()
      ensures Snapshot() == HomeState.Step(old(Snapshot()), HomeState.SelectFile(file))
      ensures file.None? ==> Snapshot() == old(Snapshot())
      ensures file.Some? ==> selectedFile == file && result == None && error == None
      ensures preview == old(preview) && loading == old(loading)
      ensures file.Some? ==> pendingReads == old(pendingReads) + multiset{file.value}
    {
      if file.Some? {
        selectedFile := file;
        result := None;
        error := None;
        pendingReads := pendingReads + multiset{file.value};
      }
    }

    /**
     * A reader's `onload`: the preview becomes its data URL. The handler does
     * not look at which file the read was for (`target` is ghost), so a read
     * for an earlier selection still overwrites the preview.
     */
    method PreviewReadCompletes(ghost target: File, dataUrl: string)
      requires Valid() && target in pendingReads
      modifies this
      ensures Valid()
      ensures Snapshot() == HomeState.Step(old(Snapshot()), HomeState.PreviewReadCompletes(target, dataUrl))
      ensures preview == Some(dataUrl) && selectedFile.Some?
      ensures selectedFile == old(selectedFile) && result == old(result)
      ensures loading == old(loading) && error == old(error)
    {
      preview := Some(dataUrl);
      pendingReads := pendingReads - multiset{target};
    }

    /** A read that fails: the code installs no error handler, so nothing changes. */
    method PreviewReadFails(ghost target: File)
      requires Valid() && target in pendingReads
      modifies this
      ensures Valid()
      ensures Snapshot() == HomeState.Step(old(Snapshot()), HomeState.PreviewReadFails(target))
      ensures selectedFile == old(selectedFile) && preview == old(preview) && result == old(result)
      ensures loading == old(loading) && error == old(error)
    {
      pendingReads := pendingReads - multiset{target};
    }

    /**
     * `handleSubmit` up to its `await`: without a selection it returns at
     * once; otherwise it sets `loading`, clears `error` and sends the request.
     * It neither rejects a submit already under way nor clears `result`.
     */
    method SubmitStart() returns (sent: bool)
      requires Valid()
      modifies this
      ensures Valid()
      ensures Snapshot() == HomeState.Step(old(Snapshot()), HomeState.SubmitStart)
      ensures sent <==> old(selectedFile).Some?
      ensures !sent ==> Snapshot() == old(Snapshot())
      ensures sent ==> loading && error == None && pendingSubmits == old(pendingSubmits) + 1
      ensures selectedFile == old(selectedFile) && preview == old(preview) && result == old(result)
    {
      if selectedFile.None? {
        return false;
      }
      loading := true;
      error := None;
      pendingSubmits := pendingSubmits + 1;
      sent := true;
    }

    /**
     * `handleSubmit` after its `await` settles: a success replaces `result`
     * whole; any failure stores its message in `error` and keeps `result`;
     * the `finally` clears `loading` on every path.
     */
    method SubmitCompletes(outcome: Outcome)
      requires Valid() && pendingSubmits > 0
      modifies this
      ensures Valid()
      ensures Snapshot() == HomeState.Step(old(Snapshot()), HomeState.SubmitCompletes(outcome))
      ensures !loading && pendingSubmits == old(pendingSubmits) - 1 && selectedFile.Some?
      ensures outcome.Ok? ==> result == Some(outcome.data) && error == old(error)
      ensures !outcome.Ok? ==> result == old(result) && error == Some(FailureMessage(outcome))
      ensures selectedFile == old(selectedFile) && preview == old(preview)
    {
      if outcome.Ok? {
        result := Some(outcome.data);
      } else {
        error := Some(FailureMessage(outcome));
      }
      loading := false;
      pendingSubmits := pendingSubmits - 1;
    }
  }
}
