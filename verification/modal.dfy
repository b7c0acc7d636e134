/**
  The state and event handlers of the add-menu dialog component.

  The component owns four pieces of local state: whether the confirmation
  dialog is visible, a loading flag (raised when a read starts and lowered
  when any read settles, so with overlapping reads it can be down while a
  read is still running), the preview URL of the image read last, and
  whether an image has been uploaded. The primary dialog's visibility
  belongs to the host; the component only calls the host's `onClose`
  callback, which the model counts.

  Each handler is a pure function from the component before the event to the
  component after it. The file-input handler awaits an asynchronous read, so
  it is split into the step that runs when the input changes and the step that
  runs when the read settles.
 */
module AddMenuModal {
  import opened Optional
  import opened UploadValidator

  /** The component's local state (its `useState` hooks). */
  datatype Local = Local(
    confirmVisible: bool,
    loading: bool,
    imageUrl: Option<string>,
    imageUploaded: bool
  )

  /** The local state together with the number of `onClose` calls made so far. */
  datatype Component = Component(local: Local, onCloseCalls: nat)

  /** How the asynchronous read of a file settled: a data URL, or an error. */
  datatype ReadOutcome = ReadOk(dataUrl: string) | ReadFailed

  /** The initial component: every hook at its initial value, no callback made. */
  const Init: Component := Component(Local(false, false, None, false), 0)

  /** The image part of the local state: everything but the confirmation dialog. */
  predicate SameImageState(a: Local, b: Local)
  {
    a.loading == b.loading && a.imageUrl == b.imageUrl && a.imageUploaded == b.imageUploaded
  }

  /** A preview URL is held exactly when an image has been uploaded. */
  predicate Consistent(l: Local)
  {
    l.imageUploaded <==> l.imageUrl.Some?
  }

  /** Click on the primary dialog's add-menu button: opens the confirmation dialog. */
  function AddMenuClick(c: Component): (c': Component)
    ensures c'.local.confirmVisible
    ensures SameImageState(c.local, c'.local)
    ensures c'.onCloseCalls == c.onCloseCalls
  {
    c.(local := c.local.(confirmVisible := true))
  }

  /** `handleCancel`: closes the confirmation dialog. */
  function HandleCancel(c: Component): (c': Component)
    ensures !c'.local.confirmVisible
    ensures SameImageState(c.local, c'.local)
    ensures c'.onCloseCalls == c.onCloseCalls
  {
    c.(local := c.local.(confirmVisible := false))
  }

  /** `handleSubmit`: closes the confirmation dialog; nothing is committed. */
  function HandleSubmit(c: Component): (c': Component)
    ensures !c'.local.confirmVisible
    ensures SameImageState(c.local, c'.local)
    ensures c'.onCloseCalls == c.onCloseCalls
  {
    c.(local := c.local.(confirmVisible := false))
  }

  /** Cancel on the primary dialog: calls `onClose` once and changes no local state. */
  function PrimaryCancel(c: Component): (c': Component)
    ensures c'.local == c.local
    ensures c'.onCloseCalls == c.onCloseCalls + 1
  {
    Component(c.local, c.onCloseCalls + 1)
  }

  /** `onFinish` of the form: calls `onClose` once and changes no local state. */
  function OnFinish(c: Component): (c': Component)
    ensures c'.local == c.local
    ensures c'.onCloseCalls == c.onCloseCalls + 1
  {
    Component(c.local, c.onCloseCalls + 1)
  }

  /**
    The file the change handler picks from the input's file list: the first
    one, when the list exists and is not empty.
   */
  function PickedFile(files: Option<seq<SelectedFile>>): (f: Option<SelectedFile>)
    ensures f.Some? <==> files.Some? && |files.value| > 0
    ensures f.Some? ==> f.value == files.value[0]
  {
    if files.Some? && |files.value| > 0 then Some(files.value[0]) else None
  }

  /**
    `handleChange` up to its `await`: with no file nothing happens; with a
    file the loading flag is raised and the read begins. The file is not
    validated here.
   */
  function HandleChangeStart(c: Component, files: Option<seq<SelectedFile>>): (c': Component)
    ensures PickedFile(files).None? ==> c' == c
    ensures PickedFile(files).Some? ==> c'.local.loading
    ensures c'.local.confirmVisible == c.local.confirmVisible
    ensures c'.local.imageUrl == c.local.imageUrl
    ensures c'.local.imageUploaded == c.local.imageUploaded
    ensures c'.onCloseCalls == c.onCloseCalls
  {
    match PickedFile(files)
    case None => c
    case Some(_) => c.(local := c.local.(loading := true))
  }

  /**
    `handleChange` after its `await`: a successful read stores the data URL
    and marks the image uploaded; a failed read leaves them as they were.
    Either way the loading flag is lowered.
   */
  function HandleChangeComplete(c: Component, outcome: ReadOutcome): (c': Component)
    ensures !c'.local.loading
    ensures outcome.ReadOk? ==> c'.local.imageUrl == Some(outcome.dataUrl) && c'.local.imageUploaded
    ensures outcome.ReadFailed? ==> c'.local.imageUrl == c.local.imageUrl
    ensures outcome.ReadFailed? ==> c'.local.imageUploaded == c.local.imageUploaded
    ensures c'.local.confirmVisible == c.local.confirmVisible
    ensures c'.onCloseCalls == c.onCloseCalls
  {
    match outcome
    case ReadOk(url) =>
      c.(local := c.local.(imageUrl := Some(url), imageUploaded := true, loading := false))
    case ReadFailed =>
      c.(local := c.local.(loading := false))
  }

  /** `handleCancel` and `handleSubmit` have the same effect on every component. */
  lemma CancelAndSubmitAgree(c: Component)
    ensures HandleCancel(c) == HandleSubmit(c)
  {
  }

  /** Closing the confirmation dialog twice is closing it once. */
  lemma CloseConfirmIdempotent(c: Component)
    ensures HandleCancel(HandleCancel(c)) == HandleCancel(c)
    ensures HandleSubmit(HandleSubmit(c)) == HandleSubmit(c)
  {
  }

  /** Opening the confirmation dialog twice is opening it once. */
  lemma AddMenuClickIdempotent(c: Component)
    ensures AddMenuClick(AddMenuClick(c)) == AddMenuClick(c)
  {
  }

  /** The start step with a file changes only the loading flag. */
  lemma ChangeStartOnlyRaisesLoading(c: Component, files: Option<seq<SelectedFile>>)
    requires PickedFile(files).Some?
    ensures HandleChangeStart(c, files) == c.(local := c.local.(loading := true))
  {
  }

  /** A read that starts and then settles always leaves the loading flag down. */
  lemma ReadCycleClearsLoading(c: Component, files: Option<seq<SelectedFile>>, outcome: ReadOutcome)
    ensures !HandleChangeComplete(HandleChangeStart(c, files), outcome).local.loading
  {
  }

  /** A failed read returns the component to its state before the change, loading flag down. */
  lemma FailedReadRestores(c: Component, files: Option<seq<SelectedFile>>)
    requires !c.local.loading
    ensures HandleChangeComplete(HandleChangeStart(c, files), ReadFailed) == c
  {
  }
}
