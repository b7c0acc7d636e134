# Add-menu dialog: upload validator and dialog state

This project models the logic of the restaurant application's "add menu"
dialog component (`AddMenuModal`). The component has two parts with logic in them.

- **The upload validator `beforeUpload`** is a pure check on a picked file.
  A file is accepted only when its MIME type is `image/jpeg` or `image/png`
  and its size is under 2 MiB. The two rules are checked independently. Each
  failing rule raises its own error message: "You can only upload JPG/PNG
  file!" or "Image must be smaller than 2MB!". The module `UploadValidator`
  (`upload.dfy`) models it as a function from MIME type and size to a
  verdict and the list of messages raised, in order.
- **The component state** has four parts. One flag says whether the
  confirmation dialog is visible. A loading flag is raised when a file read
  starts and lowered when any read settles; with overlapping reads it can be
  down while a read is still running. Then there is the preview URL of the last image read, and a flag
  saying whether an image has been uploaded. The host owns the primary
  dialog's visibility, so the component can only call the host's `onClose`.
  The model counts those calls. The module `AddMenuModal` (`modal.dfy`) has
  one pure transition function per handler. The file-input handler awaits a
  read, so it is split in two: a start step and a completion step. The read
  result is an opaque data-URL string or a failure. The module `ModalTraces`
  (`traces.dfy`) folds sequences of events over the component. It proves
  what every such sequence keeps.

`optional.dfy` holds the `Option` type used for the possibly-undefined preview URL.

The component's intended design differs from its code in three places, and
the model follows the code:

- The intended design is a commit/cancel state machine in which
  confirming closes both dialogs and calls the host's callback. In the code,
  the confirm button's `handleSubmit` only hides the confirmation dialog. It
  does exactly what `handleCancel` does. `ConfirmRoundCallsNoClose` and
  `CancelAndSubmitAgree` state this.
- In the intended design the validator gates the preview encoding. In
  the code, nothing calls `beforeUpload`: the file input runs only
  `handleChange`, which reads any file it gets. So the validator is a
  standalone function, and `HandleChangeStart` does not consult it.
  `RefusedFileIsStillPreviewed` states this.
- The intended design discards the result of a read superseded by a later
  file choice (a generation guard). The code has none, and the model
  invents none: `StaleReadWins` shows an earlier file's late read
  overwriting the later one's preview.

## Model

| member | source | states |
|---|---|---|
| UploadValidator.BeforeUpload | src/common/components/elements/modals/addMenuModal.tsx:23-33 | accepted iff the type is `image/jpeg` or `image/png` and the size is under 2097152 bytes; accepted iff no message; the type message is raised iff the type rule fails and the size message iff the size rule fails; at most two messages, and two are type then size |
| UploadValidator.Lt2MIsByteBound | src/common/components/elements/modals/addMenuModal.tsx:28 | the source's `size / 1024 / 1024 < 2`, over reals, holds iff the size is below 2097152 bytes |
| UploadValidator.SmallImageAccepted | src/common/components/elements/modals/addMenuModal.tsx:24-32 | a JPEG/PNG under 2 MiB is accepted with no message |
| UploadValidator.LargeImageOnlySizeMessage | src/common/components/elements/modals/addMenuModal.tsx:24-32 | a JPEG/PNG of 2 MiB or more is refused with only the size message |
| UploadValidator.SmallOtherTypeOnlyTypeMessage | src/common/components/elements/modals/addMenuModal.tsx:24-32 | a file of another type under 2 MiB is refused with only the type message |
| UploadValidator.BothRulesFailBothMessages | src/common/components/elements/modals/addMenuModal.tsx:24-32 | a file failing both rules is refused with the type message followed by the size message |
| UploadValidator.MessageCountMatchesFailingRules | src/common/components/elements/modals/addMenuModal.tsx:24-31 | the number of messages equals the number of failing rules; both rules are always evaluated |
| AddMenuModal.AddMenuClick | src/common/components/elements/modals/addMenuModal.tsx:149 | the add-menu click makes the confirmation dialog visible, leaves the image state alone and does not call `onClose` |
| AddMenuModal.HandleCancel | src/common/components/elements/modals/addMenuModal.tsx:100-104 | hides the confirmation dialog, leaves the image state alone, does not call `onClose` |
| AddMenuModal.HandleSubmit | src/common/components/elements/modals/addMenuModal.tsx:106-110 | hides the confirmation dialog, leaves the image state alone, does not call `onClose` |
| AddMenuModal.PrimaryCancel | src/common/components/elements/modals/addMenuModal.tsx:118 | dismissing the primary dialog calls `onClose` exactly once and changes no local state |
| AddMenuModal.OnFinish | src/common/components/elements/modals/addMenuModal.tsx:41-44 | finishing the form calls `onClose` exactly once and changes no local state |
| AddMenuModal.PickedFile | src/common/components/elements/modals/addMenuModal.tsx:47-48 | a file is picked iff the file list exists and is non-empty, and then it is the first file |
| AddMenuModal.HandleChangeStart | src/common/components/elements/modals/addMenuModal.tsx:46-49 | with no file the component is unchanged; with a file the loading flag is raised; the dialog flag, preview URL, uploaded flag and `onClose` count are kept |
| AddMenuModal.HandleChangeComplete | src/common/components/elements/modals/addMenuModal.tsx:50-58 | after a read settles the loading flag is down; on success the preview URL is the read result and the image is marked uploaded; on failure both are kept; the dialog flag and `onClose` count are kept |
| AddMenuModal.CancelAndSubmitAgree | src/common/components/elements/modals/addMenuModal.tsx:100-110 | `handleCancel` and `handleSubmit` have the same effect on every component |
| AddMenuModal.CloseConfirmIdempotent | src/common/components/elements/modals/addMenuModal.tsx:100-110 | `handleCancel` and `handleSubmit` are idempotent |
| AddMenuModal.AddMenuClickIdempotent | src/common/components/elements/modals/addMenuModal.tsx:149 | the add-menu click is idempotent |
| AddMenuModal.ChangeStartOnlyRaisesLoading | src/common/components/elements/modals/addMenuModal.tsx:47-49 | with a file, the start step changes the loading flag to true and nothing else |
| AddMenuModal.ReadCycleClearsLoading | src/common/components/elements/modals/addMenuModal.tsx:46-59 | a change followed by the read settling leaves the loading flag down, whether the read succeeded or failed |
| AddMenuModal.FailedReadRestores | src/common/components/elements/modals/addMenuModal.tsx:49-58 | a change whose read fails gives back the component as it was before the change |
| ModalTraces.Step | src/common/components/elements/modals/addMenuModal.tsx:84-189 | which handler each control runs: the file input (89) runs the change handler, which keeps the confirmation flag and raises the loading flag iff a file was picked; the primary dialog's dismissal (118) and the form's finish (126) each call `onClose` once and change no local state; the add-menu button (149) opens the confirmation dialog, while its dismissal (157), its cancel button (170) and its confirm button (189) close it, all three keeping the image state; a settled read lowers the loading flag and keeps the confirmation flag; only closing events call `onClose` |
| ModalTraces.StepKeepsUploaded | src/common/components/elements/modals/addMenuModal.tsx:39-60 | no single event lowers the uploaded flag |
| ModalTraces.RunKeepsUploaded | src/common/components/elements/modals/addMenuModal.tsx:37-60 | once an image is uploaded, no sequence of events makes the flag false again |
| ModalTraces.StepKeepsConsistent | src/common/components/elements/modals/addMenuModal.tsx:51-53 | every event keeps "a preview URL is held iff an image is uploaded" |
| ModalTraces.RunKeepsConsistent | src/common/components/elements/modals/addMenuModal.tsx:46-60 | every sequence of events keeps "a preview URL is held iff an image is uploaded" |
| ModalTraces.ReachableConsistent | src/common/components/elements/modals/addMenuModal.tsx:37-94 | from the initial hooks (lines 37-39, and the confirmation flag's hook at line 94), a preview URL is held after any events iff an image has been uploaded |
| ModalTraces.StepCountsClose | src/common/components/elements/modals/addMenuModal.tsx:41-44 | an event calls `onClose` once if it is a form finish or a primary-dialog dismissal, and never otherwise |
| ModalTraces.RunCountsCloses | src/common/components/elements/modals/addMenuModal.tsx:115-118 | over any sequence, the `onClose` count grows by exactly the number of closing events |
| ModalTraces.ClosingEventsKeepLocal | src/common/components/elements/modals/addMenuModal.tsx:41-44 | closing events change no local state and each calls `onClose` once |
| ModalTraces.ConfirmEventsFrame | src/common/components/elements/modals/addMenuModal.tsx:94-110 | confirmation-dialog events never touch the image state or call `onClose`; the dialog ends visible iff the last of them was the add-menu click |
| ModalTraces.ConfirmRoundCallsNoClose | src/common/components/elements/modals/addMenuModal.tsx:106-110 | open, cancel, open, confirm ends with the confirmation dialog hidden, everything else unchanged, and no `onClose` call |
| ModalTraces.RefusedFileIsStillPreviewed | src/common/components/elements/modals/addMenuModal.tsx:46-60 | a file the validator refuses is still read by the change handler, and a successful read marks it uploaded and shows its data URL |
| ModalTraces.StaleReadWins | src/common/components/elements/modals/addMenuModal.tsx:46-58 | with two files picked, when the first file's read settles after the second's, the preview URL is the first file's data URL |
| ModalTraces.FirstSettledReadLowersLoading | src/common/components/elements/modals/addMenuModal.tsx:49-57 | with two reads in flight, the first read to settle lowers the loading flag although the other read is still running |

## Left out

- Layout, inline styles, label markup and hover handlers: presentation only.
- The antd message popup: each `message.error` call is an entry in the validator's message list. Other antd, `next/image` and button components are foreign code.
- `ButtonConfirm`'s source is not part of this model. How its `buttonType="submit"` relates to the form's `onFinish` is unknown, so the add-menu click and the form finish are separate events.
- `getBase64` and the browser's `FileReader`: a read's result is a parameter of the completion event, either an opaque data-URL string or a failure.
- Overlapping reads: completions are applied in the order the event sequence gives them, and the model does not track which reads are still in flight. The code has no generation guard, and the model adds none; the loading flag therefore reflects the last read to start or settle, not whether any read is pending.
- React rendering between the `setState` calls of one completion: a completion is applied as one step.
- `console.log` and `console.error`: diagnostics only.
- The name and price inputs: they are not bound to the form, and nothing reads, validates or stores them.
- `showModal` (lines 96-98): defined but never used.
- The `visible` and `menuName` props: the host controls the primary dialog's visibility, and the label is display only.
- Floating point: `IsLt2M` divides reals. For integer sizes the JavaScript divisions by 1024 are exact, so the two agree.
