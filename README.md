# Add-user modal: a verified model

This project models the add-user modal of an Angular front end
(`AddUserModalComponent`). The modal collects a display name and an avatar
image. It validates the image's type and size, shows a preview once the file
has been read, and emits `{name, avatarData}` to its parent on submit. It then
resets itself and asks the shared modal service to close it.

The model has four modules:

- `Wrappers`: `Option`, standing for TypeScript's `T | null`.
- `FileValidation`: the avatar file validator, a pure function from an
  optional file `(mimeType, size)` to `null` or a non-empty set of flags
  drawn from `invalidType` and `maxSize`.
- `FormRules`: the form's validity rules. The name has `required` and
  `minLength(2)`, with Angular's semantics: `required` fails on `null` and on
  `""`, and `minLength` leaves an empty value to `required`. The avatar file
  has `required` and the file validator. The avatar data has no rule. The
  module also says how control errors make up the form's status and which
  key names `hasError` answers to.
- `AddUserModal`: the component as a class. Its fields are the three control
  values, the per-control touched and dirty sets, the preview handle, the
  error message, the busy flag, the visibility flag, the file input's value,
  an append-only outbox of emitted records and an append-only log of modal
  service requests. Each handler is a method. The browser's asynchronous
  `FileReader` completion is its own event (`OnReadComplete`), and so is the
  visibility update coming from the modal service (`OnVisibilityChange`).
  Ghost state records which reads are in flight and which file produced the
  current avatar data.

The class invariant `Valid()` is kept by every event. It says four things:

- the preview is exactly the trusted handle of the avatar data;
- avatar data only comes from the read of a file the validator accepted;
- every read in flight is of an accepted file;
- the busy flag is down between events.

The client methods at the end of `AddUserModal` are concrete event sequences.
They show what the handlers do together, including two behaviours of the code
that a reader might not expect:

- A read is never cancelled or checked against the current selection. A slow
  read of an earlier image can therefore overwrite a later one, and a submit
  then sends the earlier image (`StaleReadWins`). A read can also land in a
  form that was closed meanwhile (`ReadAfterClose`).
- The form is valid as soon as an accepted file is selected. A submit before
  the read completes sends `avatarData: null`, although the emitter's type
  says `string` (`SubmitBeforeReadCompletes`). The model's `NewUser` record
  therefore carries an optional avatar.

Where the intended design and the code differ, the model follows the code:

- After a reset every control is `null`. The name and the avatar file then
  carry a `required` error (`ResetValueErrors`). No error is shown, because no
  control is touched or dirty (`PristineShowsNothing`).
- The last selection does not win (see above).
- A close reported by the modal service only sets `isOpen`. Only the local
  `closeModal` resets the form.

## Model

| member | source | states |
|---|---|---|
| FileValidation.FileValidator | src/app/shared/modals/modals/add-user-modal/add-user-modal.component.ts:106-123 | no file gives `null`; for a file, `invalidType` is flagged exactly when the type does not start with `image/` and `maxSize` exactly when the size exceeds 2 MiB; a non-null result is never empty |
| FileValidation.AcceptedIff | src/app/shared/modals/modals/add-user-modal/add-user-modal.component.ts:112-122 | a file is accepted (`null` result) exactly when both checks pass |
| FileValidation.SizeLimitBoundary | src/app/shared/modals/modals/add-user-modal/add-user-modal.component.ts:118-120 | 2,097,152 bytes pass the size check and 2,097,153 bytes fail it, whatever the type |
| FileValidation.ChecksAreIndependent | src/app/shared/modals/modals/add-user-modal/add-user-modal.component.ts:112-122 | the type flag does not depend on the size and the size flag does not depend on the type |
| FileValidation.BothFlagsTogether | src/app/shared/modals/modals/add-user-modal/add-user-modal.component.ts:114-120 | some file raises both flags at once |
| FileValidation.SomeImageAccepted | src/app/shared/modals/modals/add-user-modal/add-user-modal.component.ts:114-122 | an image of exactly 2 MiB is accepted |
| FormRules.NameErrors | src/app/shared/modals/modals/add-user-modal/add-user-modal.component.ts:97 | `required` exactly for `null` or empty names, `minlength` exactly for names of length 1, nothing else |
| FormRules.AvatarFileErrors | src/app/shared/modals/modals/add-user-modal/add-user-modal.component.ts:98-101 | `required` alone when there is no file; otherwise exactly the validator's flags |
| FormRules.FormValidIff | src/app/shared/modals/modals/add-user-modal/add-user-modal.component.ts:96-103 | the form is valid exactly when the name has length at least 2 and an avatar file is present and accepted |
| FormRules.AvatarDataIrrelevant | src/app/shared/modals/modals/add-user-modal/add-user-modal.component.ts:102 | changing the avatar data never changes validity |
| FormRules.ResetValueErrors | src/app/shared/modals/modals/add-user-modal/add-user-modal.component.ts:140-141 | after a reset the name and the file carry `required` only, the data nothing, and the form is invalid |
| FormRules.KeyOf | src/app/shared/modals/modals/add-user-modal/add-user-modal.component.ts:135-138 | parsing an error-key name is the inverse of naming the key |
| FormRules.HasKey | src/app/shared/modals/modals/add-user-modal/add-user-modal.component.ts:137 | an empty error set (`errors === null`) answers nothing; a non-empty one answers a key name exactly when it holds that key, and answers every name inherited from `Object.prototype` |
| FormRules.KeyNamesNotInherited | src/app/shared/modals/modals/add-user-modal/add-user-modal.component.ts:137 | no key shares a name with an inherited property, so a key's own name is answered exactly when the key is present |
| FormRules.SomeKeyNamed | src/app/shared/modals/modals/add-user-modal/add-user-modal.component.ts:135-138 | a non-empty error set answers to some key name |
| AddUserModal.SubmitErrorMessage | src/app/shared/modals/modals/add-user-modal/add-user-modal.component.ts:261-264 | the message starts with `Error adding user: ` and continues with the error's message, or with `Unknown error` for a non-`Error` throw |
| AddUserModal.AddUserModalComponent.constructor | src/app/shared/modals/modals/add-user-modal/add-user-modal.component.ts:58-103 | closed, idle, no message or preview; the name is `""` and both avatar controls are `null`; nothing touched, sent or requested |
| AddUserModal.AddUserModalComponent.IsControlInvalid | src/app/shared/modals/modals/add-user-modal/add-user-modal.component.ts:130-133 | a control is shown invalid only once touched or dirty, and then `hasError` answers for one of its keys |
| AddUserModal.AddUserModalComponent.HasError | src/app/shared/modals/modals/add-user-modal/add-user-modal.component.ts:135-138 | never true for a valid control; for a name inherited from `Object.prototype`, true exactly when the control is invalid; for any other name, true exactly when the control's errors hold the key of that name |
| AddUserModal.AddUserModalComponent.IsAvatarFileValid | src/app/shared/modals/modals/add-user-modal/add-user-modal.component.ts:178-180 | true exactly when a file is selected and the validator accepts it |
| AddUserModal.AddUserModalComponent.OnVisibilityChange | src/app/shared/modals/modals/add-user-modal/add-user-modal.component.ts:78-81 | `isOpen` becomes the reported visibility and nothing else changes |
| AddUserModal.AddUserModalComponent.EnterName | src/app/shared/modals/modals/add-user-modal/add-user-modal.component.ts:97 | the name control takes the typed text and becomes dirty |
| AddUserModal.AddUserModalComponent.ClearFileInput | src/app/shared/modals/modals/add-user-modal/add-user-modal.component.ts:147-151 | the file input's value becomes empty |
| AddUserModal.AddUserModalComponent.ClearPreview | src/app/shared/modals/modals/add-user-modal/add-user-modal.component.ts:167-170 | the preview and the avatar data become `null` |
| AddUserModal.AddUserModalComponent.SetAvatarFile | src/app/shared/modals/modals/add-user-modal/add-user-modal.component.ts:172-176 | the avatar-file control takes the file and is marked touched |
| AddUserModal.AddUserModalComponent.CreateImagePreview | src/app/shared/modals/modals/add-user-modal/add-user-modal.component.ts:192-200 | one read of the file is started |
| AddUserModal.AddUserModalComponent.HandleInvalidFile | src/app/shared/modals/modals/add-user-modal/add-user-modal.component.ts:203-207 | preview, avatar data and file input are cleared |
| AddUserModal.AddUserModalComponent.ValidateAndProcessFile | src/app/shared/modals/modals/add-user-modal/add-user-modal.component.ts:182-190 | the file is set and touched; an accepted file starts one read and changes nothing else; a rejected one starts none and clears preview, data and input |
| AddUserModal.AddUserModalComponent.OnFileSelected | src/app/shared/modals/modals/add-user-modal/add-user-modal.component.ts:154-165 | message, preview and data cleared; the control holds the picked file or `null`, touched; a read starts only for an accepted file; the input is cleared only for a rejected one; the invariant is kept |
| AddUserModal.AddUserModalComponent.OnReadComplete | src/app/shared/modals/modals/add-user-modal/add-user-modal.component.ts:194-199 | the data becomes the read's data URL and the preview its trusted handle, whichever file is selected now; nothing else changes |
| AddUserModal.AddUserModalComponent.RemoveImage | src/app/shared/modals/modals/add-user-modal/add-user-modal.component.ts:210-217 | the file becomes `null` and touched; data, preview, input and message are cleared; nothing else changes |
| AddUserModal.AddUserModalComponent.OpenImagePreview | src/app/shared/modals/modals/add-user-modal/add-user-modal.component.ts:219-231 | at most one open request for the image-preview modal, carrying exactly the avatar data, and none when there is no preview or its URL is empty |
| AddUserModal.AddUserModalComponent.ResetFormState | src/app/shared/modals/modals/add-user-modal/add-user-modal.component.ts:140-145 | every control `null`, untouched and pristine; message, preview and input cleared |
| AddUserModal.AddUserModalComponent.CloseModal | src/app/shared/modals/modals/add-user-modal/add-user-modal.component.ts:239-242 | the form is reset and one close request for this modal is logged; `isOpen` is unchanged |
| AddUserModal.AddUserModalComponent.AddNewUser | src/app/shared/modals/modals/add-user-modal/add-user-modal.component.ts:245-269 | invalid form: every control touched and nothing else changes; valid form: exactly one `{name, avatarData}` record, then reset and one close request; a throw: the error message, no reset; the busy flag is down on every path |
| AddUserModal.PristineShowsNothing | src/app/shared/modals/modals/add-user-modal/add-user-modal.component.ts:130-133 | a control neither touched nor dirty is never shown invalid |
| AddUserModal.TouchedShowsEveryError | src/app/shared/modals/modals/add-user-modal/add-user-modal.component.ts:246-247 | once all controls are touched, as after a rejected submit, each is shown invalid exactly when it has errors |
| AddUserModal.StaleReadWins | src/app/shared/modals/modals/add-user-modal/add-user-modal.component.ts:192-201 | two accepted picks whose first read completes last: the second file stays selected, but the submit sends the first file's data |
| AddUserModal.SubmitBeforeReadCompletes | src/app/shared/modals/modals/add-user-modal/add-user-modal.component.ts:255-259 | a submit right after an accepted pick sends the name with `null` avatar data |
| AddUserModal.ShortNameRejected | src/app/shared/modals/modals/add-user-modal/add-user-modal.component.ts:246-250 | a one-character name with an accepted image sends nothing and shows `minlength` |
| AddUserModal.InheritedNameAnswered | src/app/shared/modals/modals/add-user-modal/add-user-modal.component.ts:137 | a name control with only a `minlength` error answers `constructor` but not `required` |
| AddUserModal.TwoCharacterNameSent | src/app/shared/modals/modals/add-user-modal/add-user-modal.component.ts:252-260 | a two-character name with a read image sends exactly one record, resets the name and logs exactly one close request |
| AddUserModal.ReadAfterClose | src/app/shared/modals/modals/add-user-modal/add-user-modal.component.ts:192-201 | a read that completes after `closeModal` fills the avatar data while no file is selected |
| AddUserModal.InvalidPickClearsPreview | src/app/shared/modals/modals/add-user-modal/add-user-modal.component.ts:182-207 | an oversized pick after a read image clears data, preview and input, and shows `maxSize` on the touched file control |

## Left out

- Dependency injection, `markForCheck`, the template and its styles are left out. The `@ViewChild` input is assumed attached: `clearFileInput`'s check for a missing reference is not modelled.
- The `ngOnDestroy` teardown, the `destroy$` subject, `takeUntilDestroyed`, the `IsModalOpen` getter and `getControl` are left out. They are subscription and lookup plumbing over the modal service and the form group. Only the visibility update they deliver is modelled.
- `FileReader` and the data-URL encoding are not modelled. A read's completion is an event carrying an opaque string. The code defines no read-error handler, so the model has none.
- `DomSanitizer` is not modelled. `bypassSecurityTrustUrl` becomes a trusted-URL wrapper, and `sanitize` with the URL context hands the wrapped string back.
- AddUserModal.AddUserModalComponent.RemoveImage: `event.stopPropagation()` is not modelled; the click is not passed on to the parent elements' handlers, which are template code outside this model.
- The browser sets the file input's value; `OnFileSelected` takes that value as a parameter together with the picked file.
- The template's own touched marking on blur is not modelled. Angular's group-level flags and its `PENDING` and `DISABLED` statuses are not modelled either.
- AddUserModal.AddUserModalComponent.AddNewUser: a throw is modelled only at the emit, and a throwing emit delivers no record to the outbox; a throw from the modal service's `closeModal` inside the same `try` is not modelled.
- String lengths are sequence lengths; JavaScript counts UTF-16 code units, which differs for characters outside the Basic Multilingual Plane.
