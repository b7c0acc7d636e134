/**
  Sequences of user and completion events applied to the add-menu dialog,
  and the properties every such sequence keeps: an uploaded image is never
  forgotten, the preview URL and the uploaded flag stay in step, `onClose` is
  called once per closing event, and the confirmation dialog's events never
  touch the image state.
 */
module ModalTraces {
  import opened Optional
  import opened UploadValidator
  import opened AddMenuModal

  /** Every event the component reacts to. */
  datatype Event =
    | AddMenu                                      // add-menu button of the primary dialog
    | ConfirmCancel                                // cancel button or dismissal of the confirmation dialog
    | ConfirmSubmit                                // confirm button of the confirmation dialog
    | PrimaryClose                                 // dismissal of the primary dialog
    | FormFinish                                   // the form's finish callback
    | FileChange(files: Option<seq<SelectedFile>>) // the file input changed
    | ReadSettled(outcome: ReadOutcome)            // the pending file read settled

  /**
    The handler each control runs: the file input runs the change handler,
    the primary dialog's dismissal and the form's finish call `onClose`, the
    add-menu button opens the confirmation dialog, and both the confirmation
    dialog's dismissal and its cancel button run `handleCancel`, while its
    confirm button runs `handleSubmit`.
   */
  function Step(c: Component, e: Event): (c': Component)
    ensures c'.onCloseCalls == c.onCloseCalls + (if IsClosing(e) then 1 else 0)
    ensures IsClosing(e) ==> c'.local == c.local
    ensures IsConfirmEvent(e) ==> SameImageState(c.local, c'.local)
    ensures IsConfirmEvent(e) ==> c'.local.confirmVisible == e.AddMenu?
    ensures e.FileChange? ==> c'.local.confirmVisible == c.local.confirmVisible
    ensures e.FileChange? ==> c'.local.loading == (c.local.loading || PickedFile(e.files).Some?)
    ensures e.ReadSettled? ==> c'.local.confirmVisible == c.local.confirmVisible && !c'.local.loading
  {
    match e
    case AddMenu => AddMenuClick(c)
    case ConfirmCancel => HandleCancel(c)
    case ConfirmSubmit => HandleSubmit(c)
    case PrimaryClose => PrimaryCancel(c)
    case FormFinish => OnFinish(c)
    case FileChange(files) => HandleChangeStart(c, files)
    case ReadSettled(outcome) => HandleChangeComplete(c, outcome)
  }

  /** The events in order, each applied to the component the previous one left. */
  function Run(c: Component, es: seq<Event>): Component
    decreases |es|
  {
    if es == [] then c else Run(Step(c, es[0]), es[1..])
  }

  /** Running a non-empty sequence runs its first event, then the rest. */
  lemma RunCons(c: Component, e: Event, es: seq<Event>)
    ensures Run(c, [e] + es) == Run(Step(c, e), es)
  {
    assert ([e] + es)[1..] == es;
  }

  /** An event that calls the host's `onClose`. */
  predicate IsClosing(e: Event)
  {
    e.PrimaryClose? || e.FormFinish?
  }

  /** An event handled by the confirmation dialog's controls. */
  predicate IsConfirmEvent(e: Event)
  {
    e.AddMenu? || e.ConfirmCancel? || e.ConfirmSubmit?
  }

  /** The number of closing events in a sequence, counted independently of `Run`. */
  function ClosingCount(es: seq<Event>): (n: nat)
    ensures n <= |es|
  {
    if es == [] then 0 else (if IsClosing(es[0]) then 1 else 0) + ClosingCount(es[1..])
  }

  /** One step never lowers the uploaded flag. */
  lemma StepKeepsUploaded(c: Component, e: Event)
    requires c.local.imageUploaded
    ensures Step(c, e).local.imageUploaded
  {
  }

  /** Once an image is uploaded, no sequence of events makes the flag false again. */
  lemma {:induction false} RunKeepsUploaded(c: Component, es: seq<Event>)
    requires c.local.imageUploaded
    ensures Run(c, es).local.imageUploaded
    decreases |es|
  {
    if es != [] {
      StepKeepsUploaded(c, es[0]);
      RunKeepsUploaded(Step(c, es[0]), es[1..]);
    }
  }

  /** One step keeps the preview URL and the uploaded flag in step. */
  lemma StepKeepsConsistent(c: Component, e: Event)
    requires Consistent(c.local)
    ensures Consistent(Step(c, e).local)
  {
  }

  /** Every sequence of events keeps the preview URL and the uploaded flag in step. */
  lemma {:induction false} RunKeepsConsistent(c: Component, es: seq<Event>)
    requires Consistent(c.local)
    ensures Consistent(Run(c, es).local)
    decreases |es|
  {
    if es != [] {
      StepKeepsConsistent(c, es[0]);
      RunKeepsConsistent(Step(c, es[0]), es[1..]);
    }
  }

  /** From the initial component, a preview URL is shown exactly when an image was uploaded. */
  lemma ReachableConsistent(es: seq<Event>)
    ensures Run(Init, es).local.imageUploaded <==> Run(Init, es).local.imageUrl.Some?
  {
    RunKeepsConsistent(Init, es);
  }

  /** One step calls `onClose` once for a closing event and never otherwise. */
  lemma StepCountsClose(c: Component, e: Event)
    ensures Step(c, e).onCloseCalls == c.onCloseCalls + (if IsClosing(e) then 1 else 0)
  {
  }

  /** Over any sequence, `onClose` is called exactly once per closing event. */
  lemma {:induction false} RunCountsCloses(c: Component, es: seq<Event>)
    ensures Run(c, es).onCloseCalls == c.onCloseCalls + ClosingCount(es)
    decreases |es|
  {
    if es != [] {
      StepCountsClose(c, es[0]);
      RunCountsCloses(Step(c, es[0]), es[1..]);
    }
  }

  /** Closing events leave the local state exactly as it was. */
  lemma {:induction false} ClosingEventsKeepLocal(c: Component, es: seq<Event>)
    requires forall i :: 0 <= i < |es| ==> IsClosing(es[i])
    ensures Run(c, es).local == c.local
    ensures Run(c, es).onCloseCalls == c.onCloseCalls + |es|
    decreases |es|
  {
    if es != [] {
      ClosingEventsKeepLocal(Step(c, es[0]), es[1..]);
    }
  }

  /**
    Confirmation-dialog events never touch the image state or call `onClose`,
    and the dialog ends visible exactly when the last of them was the add-menu
    click.
   */
  lemma {:induction false} ConfirmEventsFrame(c: Component, es: seq<Event>)
    requires forall i :: 0 <= i < |es| ==> IsConfirmEvent(es[i])
    ensures SameImageState(c.local, Run(c, es).local)
    ensures Run(c, es).onCloseCalls == c.onCloseCalls
    ensures Run(c, es).local.confirmVisible
         == (if es == [] then c.local.confirmVisible else es[|es| - 1].AddMenu?)
    decreases |es|
  {
    if es != [] {
      ConfirmEventsFrame(Step(c, es[0]), es[1..]);
      if |es| > 1 {
        assert es[1..][|es[1..]| - 1] == es[|es| - 1];
      }
    }
  }

  /**
    The open, cancel, open, confirm round of the confirmation dialog ends with
    the dialog closed and `onClose` never called: confirming commits nothing.
   */
  lemma ConfirmRoundCallsNoClose(c: Component)
    ensures Run(c, [AddMenu, ConfirmCancel, AddMenu, ConfirmSubmit])
         == c.(local := c.local.(confirmVisible := false))
  {
  }

  /**
    The change handler never consults the validator: a file it refuses is
    still read, and a successful read marks it uploaded and shows it.
   */
  lemma RefusedFileIsStillPreviewed(c: Component, f: SelectedFile, url: string)
    requires !BeforeUpload(f.mimeType, f.size).accepted
    ensures Run(c, [FileChange(Some([f])), ReadSettled(ReadOk(url))]).local.imageUploaded
    ensures Run(c, [FileChange(Some([f])), ReadSettled(ReadOk(url))]).local.imageUrl == Some(url)
  {
    var c1 := Step(c, FileChange(Some([f])));
    RunCons(c, FileChange(Some([f])), [ReadSettled(ReadOk(url))]);
    RunCons(c1, ReadSettled(ReadOk(url)), []);
  }

  /**
    There is no guard against stale reads: when the read of an earlier file
    settles after the read of a later one, the earlier file's data URL wins.
   */
  lemma StaleReadWins(c: Component, a: SelectedFile, b: SelectedFile, urlA: string, urlB: string)
    ensures Run(c, [FileChange(Some([a])), FileChange(Some([b])),
                    ReadSettled(ReadOk(urlB)), ReadSettled(ReadOk(urlA))]).local.imageUrl == Some(urlA)
  {
    var c1 := Step(c, FileChange(Some([a])));
    var c2 := Step(c1, FileChange(Some([b])));
    var c3 := Step(c2, ReadSettled(ReadOk(urlB)));
    RunCons(c, FileChange(Some([a])), [FileChange(Some([b])), ReadSettled(ReadOk(urlB)), ReadSettled(ReadOk(urlA))]);
    RunCons(c1, FileChange(Some([b])), [ReadSettled(ReadOk(urlB)), ReadSettled(ReadOk(urlA))]);
    RunCons(c2, ReadSettled(ReadOk(urlB)), [ReadSettled(ReadOk(urlA))]);
    RunCons(c3, ReadSettled(ReadOk(urlA)), []);
  }

  /**
    The loading flag is lowered by whichever read settles first: after two
    files are picked and one read fails, the flag is down although the other
    read has not settled.
   */
  lemma FirstSettledReadLowersLoading(c: Component, a: SelectedFile, b: SelectedFile)
    ensures !Run(c, [FileChange(Some([a])), FileChange(Some([b])), ReadSettled(ReadFailed)]).local.loading
  {
    var c1 := Step(c, FileChange(Some([a])));
    var c2 := Step(c1, FileChange(Some([b])));
    RunCons(c, FileChange(Some([a])), [FileChange(Some([b])), ReadSettled(ReadFailed)]);
    RunCons(c1, FileChange(Some([b])), [ReadSettled(ReadFailed)]);
    RunCons(c2, ReadSettled(ReadFailed), []);
  }
}
