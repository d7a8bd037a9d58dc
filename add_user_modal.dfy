/**
  The add-user modal component: a form holding a display name and an avatar
  image, its file-intake handlers, its submission and its close action.

  The Angular machinery is reduced to plain fields: the three form controls
  and their touched/dirty flags, the preview handle, the error message, the
  busy flag, the visibility flag mirrored from the modal service, the value of
  the file input, the records emitted on `userAdded` (an append-only outbox)
  and the requests sent to the modal service (an append-only log).
 */
module AddUserModal {
  import opened Wrappers
  import opened FileValidation
  import opened FormRules

  /** The modal identifiers this component names. */
  datatype ModalType = AddUser | ImagePreview

  /** A request sent to the shared modal service. */
  datatype ModalRequest = Open(modal: ModalType, payload: string) | Close(modal: ModalType)

  /** A URL the sanitizer has been told to trust (`bypassSecurityTrustUrl`). */
  datatype SafeUrl = TrustedUrl(url: string)

  /** The record emitted on `userAdded`. The avatar data is whatever the form
      holds at submission, which is `null` while the file is still being read. */
  datatype NewUser = NewUser(name: string, avatarData: Option<string>)

  /** What a failing emit throws: an `Error` with its message, or anything else. */
  datatype Thrown = ErrorInstance(message: string) | NonError

  const SubmitErrorPrefix: string := "Error adding user: "

  /** The preview handle that belongs to some avatar data: the trusted URL of
      the data itself, or none. */
  function PreviewOf(data: Option<string>): Option<SafeUrl>
  {
    if data.Some? then Some(TrustedUrl(data.value)) else None
  }

  /** The message shown when submission throws. */
  function SubmitErrorMessage(t: Thrown): (m: string)
    ensures StartsWith(m, SubmitErrorPrefix)
    ensures t.ErrorInstance? ==> m[|SubmitErrorPrefix|..] == t.message
    ensures t.NonError? ==> m[|SubmitErrorPrefix|..] == "Unknown error"
  {
    SubmitErrorPrefix + match t
      case ErrorInstance(message) => message
      case NonError => "Unknown error"
  }

  class AddUserModalComponent {
    /** Visibility, as last reported by the modal service. */
    var isOpen: bool
    var isUploading: bool
    var errorMessage: string
    var avatarPreview: Option<SafeUrl>

    /** The form controls' values and their interaction flags. */
    var name: Option<string>
    var avatarFile: Option<File>
    var avatarData: Option<string>
    var touched: set<Control>
    var dirty: set<Control>

    /** The `value` of the file input element. */
    var fileInputValue: string

    /** Every record emitted on `userAdded`, in order. */
    var userAdded: seq<NewUser>

    /** Every request sent to the modal service, in order. */
    var modalRequests: seq<ModalRequest>

    /** The files whose `FileReader` has been started and has not yet called
        back; any of them may complete next. */
    ghost var pendingReads: seq<File>

    /** The file whose completed read produced the current avatar data. */
    ghost var dataSource: Option<File>

    /** What every handler keeps between events: the coherence below, and the
        busy flag is down (it is raised only inside `addNewUser`). */
    ghost predicate Valid()
      reads this
    {
      Coherent() && !isUploading
    }

    /** The preview is exactly the trusted handle of the avatar data, and avatar
        data only ever comes from reading a file the validator accepted (not
        necessarily the file selected now). */
    ghost predicate Coherent()
      reads this
    {
      && avatarPreview == PreviewOf(avatarData)
      && (avatarData.Some? <==> dataSource.Some?)
      && (dataSource.Some? ==> Accepted(dataSource.value))
      && forall i :: 0 <= i < |pendingReads| ==> Accepted(pendingReads[i])
    }

    /** The field initialisers together with `initializeForm`: the name starts
        as the empty string, both avatar controls as null. */
    constructor ()
      ensures Valid()
      ensures !isOpen && !isUploading && errorMessage == "" && avatarPreview.None?
      ensures name == Some("") && avatarFile.None? && avatarData.None?
      ensures touched == {} && dirty == {} && fileInputValue == ""
      ensures userAdded == [] && modalRequests == [] && pendingReads == []
    {
      isOpen := false;
      isUploading := false;
      errorMessage := "";
      avatarPreview := None;
      name := Some("");
      avatarFile := None;
      avatarData := None;
      touched := {};
      dirty := {};
      fileInputValue := "";
      userAdded := [];
      modalRequests := [];
      pendingReads := [];
      dataSource := None;
    }

    /** The form's current value. */
    function Value(): FormValue
      reads this
    {
      FormValue(name, avatarFile, avatarData)
    }

    /** `isControlInvalid`: the control has errors and the user has interacted
        with it. */
    predicate IsControlInvalid(c: Control)
      reads this
      ensures IsControlInvalid(c) ==> c in dirty || c in touched
      ensures IsControlInvalid(c) ==> exists k :: HasError(c, KeyName(k))
    {
      if ControlInvalid(Value(), c) then
        SomeKeyNamed(ControlErrors(Value(), c));
        c in dirty || c in touched
      else
        false
    }

    /** `hasError`: the control's errors carry the key `errorType`. */
    predicate HasError(c: Control, errorType: string)
      reads this
      ensures HasError(c, errorType) ==> ControlInvalid(Value(), c)
      ensures errorType !in InheritedNames ==>
                (HasError(c, errorType) <==> KeyOf(errorType).Some? && KeyOf(errorType).value in ControlErrors(Value(), c))
      ensures errorType in InheritedNames ==> (HasError(c, errorType) <==> ControlInvalid(Value(), c))
    {
      HasKey(ControlErrors(Value(), c), errorType)
    }

    /** `isAvatarFileValid`: the avatar-file control reports no errors. */
    function IsAvatarFileValid(): (r: bool)
      reads this
      ensures r <==> avatarFile.Some? && Accepted(avatarFile.value)
    {
      ControlErrors(Value(), AvatarFile) == {}
    }

    /** The subscription to the modal service: an external visibility update. */
    method OnVisibilityChange(open: bool)
      modifies this`isOpen
      ensures isOpen == open
    {
      isOpen := open;
    }

    /** The template's name input writing the control (which marks it dirty). */
    method EnterName(s: string)
      requires Valid()
      modifies this`name, this`dirty
      ensures Valid()
      ensures name == Some(s) && dirty == old(dirty) + {Name}
    {
      name := Some(s);
      dirty := dirty + {Name};
    }

    method ClearFileInput()
      modifies this`fileInputValue
      ensures fileInputValue == ""
    {
      fileInputValue := "";
    }

    method ClearPreview()
      modifies this`avatarPreview, this`avatarData, this`dataSource
      ensures avatarPreview.None? && avatarData.None? && dataSource.None?
    {
      avatarPreview := None;
      avatarData := None;
      dataSource := None;
    }

    method SetAvatarFile(file: Option<File>)
      modifies this`avatarFile, this`touched
      ensures avatarFile == file && touched == old(touched) + {AvatarFile}
    {
      avatarFile := file;
      touched := touched + {AvatarFile};
    }

    /** Starts a `FileReader`; its completion is the separate event OnReadComplete. */
    method CreateImagePreview(file: File)
      modifies this`pendingReads
      ensures pendingReads == old(pendingReads) + [file]
    {
      pendingReads := pendingReads + [file];
    }

    method HandleInvalidFile()
      modifies this`avatarPreview, this`avatarData, this`dataSource, this`fileInputValue
      ensures avatarPreview.None? && avatarData.None? && dataSource.None?
      ensures fileInputValue == ""
    {
      ClearPreview();
      ClearFileInput();
    }

    method ValidateAndProcessFile(file: File)
      modifies this`avatarFile, this`touched, this`pendingReads
      modifies this`avatarPreview, this`avatarData, this`dataSource, this`fileInputValue
      ensures avatarFile == Some(file) && touched == old(touched) + {AvatarFile}
      ensures Accepted(file) ==>
                && pendingReads == old(pendingReads) + [file]
                && unchanged(this`avatarPreview, this`avatarData, this`dataSource, this`fileInputValue)
      ensures !Accepted(file) ==>
                && pendingReads == old(pendingReads)
                && avatarPreview.None? && avatarData.None? && dataSource.None?
                && fileInputValue == ""
    {
      SetAvatarFile(Some(file));
      if IsAvatarFileValid() {
        CreateImagePreview(file);
      } else {
        HandleInvalidFile();
      }
    }

    /** `onFileSelected`. The event's target is the file input as the browser
        left it: its `value` and its first selected file, if any. */
    method OnFileSelected(inputValue: string, picked: Option<File>)
      requires Valid()
      modifies this
      ensures Valid()
      ensures errorMessage == "" && avatarPreview.None? && avatarData.None?
      ensures avatarFile == picked && touched == old(touched) + {AvatarFile}
      ensures pendingReads == old(pendingReads) + if picked.Some? && Accepted(picked.value) then [picked.value] else []
      ensures fileInputValue == if picked.Some? && !Accepted(picked.value) then "" else inputValue
      ensures name == old(name) && dirty == old(dirty)
      ensures isOpen == old(isOpen) && isUploading == old(isUploading)
      ensures userAdded == old(userAdded) && modalRequests == old(modalRequests)
    {
      fileInputValue := inputValue;
      errorMessage := "";
      ClearPreview();
      match picked
      case None =>
        SetAvatarFile(None);
      case Some(file) =>
        ValidateAndProcessFile(file);
    }

    /** The `onload` callback of the read of `pendingReads[k]`, carrying the
        data URL it produced. Nothing checks that the file is still the
        selected one. */
    method OnReadComplete(k: nat, dataUrl: string)
      requires Valid()
      requires k < |pendingReads|
      modifies this
      ensures Valid()
      ensures avatarData == Some(dataUrl) && avatarPreview == Some(TrustedUrl(dataUrl))
      ensures dataSource == Some(old(pendingReads[k]))
      ensures pendingReads == old(pendingReads[..k] + pendingReads[k + 1..])
      ensures name == old(name) && avatarFile == old(avatarFile)
      ensures touched == old(touched) && dirty == old(dirty)
      ensures errorMessage == old(errorMessage) && fileInputValue == old(fileInputValue)
      ensures isOpen == old(isOpen) && isUploading == old(isUploading)
      ensures userAdded == old(userAdded) && modalRequests == old(modalRequests)
    {
      dataSource := Some(pendingReads[k]);
      pendingReads := pendingReads[..k] + pendingReads[k + 1..];
      avatarPreview := Some(TrustedUrl(dataUrl));
      avatarData := Some(dataUrl);
    }

    /** `removeImage`. */
    method RemoveImage()
      requires Valid()
      modifies this
      ensures Valid()
      ensures avatarFile.None? && touched == old(touched) + {AvatarFile}
      ensures avatarData.None? && avatarPreview.None? && fileInputValue == "" && errorMessage == ""
      ensures name == old(name) && dirty == old(dirty) && pendingReads == old(pendingReads)
      ensures isOpen == old(isOpen) && isUploading == old(isUploading)
      ensures userAdded == old(userAdded) && modalRequests == old(modalRequests)
    {
      ClearPreview();
      ClearFileInput();
      SetAvatarFile(None);
      errorMessage := "";
    }

    /** `openImagePreview`: asks for the image-preview modal with the preview's
        URL, unless there is no preview or its URL is the empty string. */
    method OpenImagePreview()
      requires Valid()
      modifies this`modalRequests
      ensures modalRequests == old(modalRequests) +
                if avatarData.Some? && avatarData.value != "" then [Open(ImagePreview, avatarData.value)] else []
    {
      match avatarPreview
      case None =>
      case Some(preview) =>
        // sanitize(SecurityContext.URL, ...) hands back a bypassed URL unchanged
        var url := preview.url;
        if url != "" {
          modalRequests := modalRequests + [Open(ImagePreview, url)];
        }
    }

    /** `resetFormState`: every control back to null, untouched and pristine. */
    method ResetFormState()
      modifies this`name, this`avatarFile, this`avatarData, this`dataSource, this`touched, this`dirty
      modifies this`errorMessage, this`avatarPreview, this`fileInputValue
      ensures name.None? && avatarFile.None? && avatarData.None? && dataSource.None?
      ensures touched == {} && dirty == {}
      ensures errorMessage == "" && avatarPreview.None? && fileInputValue == ""
    {
      name, avatarFile, avatarData := None, None, None;
      dataSource := None;
      touched, dirty := {}, {};
      errorMessage := "";
      avatarPreview := None;
      ClearFileInput();
    }

    /** `closeModal`: resets the form and asks the service to close this modal;
        `isOpen` changes only when the service reports back. */
    method CloseModal()
      requires Coherent()
      modifies this
      ensures Coherent()
      ensures name.None? && avatarFile.None? && avatarData.None?
      ensures touched == {} && dirty == {}
      ensures errorMessage == "" && avatarPreview.None? && fileInputValue == ""
      ensures modalRequests == old(modalRequests) + [Close(AddUser)]
      ensures isOpen == old(isOpen) && isUploading == old(isUploading)
      ensures userAdded == old(userAdded) && pendingReads == old(pendingReads)
    {
      ResetFormState();
      modalRequests := modalRequests + [Close(AddUser)];
    }

    /** `addNewUser`. `thrown` is what the emit throws, if it throws. */
    method AddNewUser(thrown: Option<Thrown>)
      requires Valid()
      modifies this
      ensures Valid()
      ensures !isUploading
      ensures isOpen == old(isOpen) && pendingReads == old(pendingReads)
      // an invalid form: nothing is emitted and every control is marked touched
      ensures old(FormInvalid(Value())) ==>
                && touched == AllControls
                && isUploading == old(isUploading)
                && name == old(name) && avatarFile == old(avatarFile) && avatarData == old(avatarData)
                && dirty == old(dirty) && errorMessage == old(errorMessage)
                && avatarPreview == old(avatarPreview) && fileInputValue == old(fileInputValue)
                && userAdded == old(userAdded) && modalRequests == old(modalRequests)
      // a valid form whose emit completes: one record out, form reset, modal closed
      ensures !old(FormInvalid(Value())) && thrown.None? ==>
                && old(name).Some?
                && userAdded == old(userAdded) + [NewUser(old(name).value, old(avatarData))]
                && name.None? && avatarFile.None? && avatarData.None?
                && touched == {} && dirty == {}
                && errorMessage == "" && avatarPreview.None? && fileInputValue == ""
                && modalRequests == old(modalRequests) + [Close(AddUser)]
      // a valid form whose emit throws: the message is shown, nothing else changes
      ensures !old(FormInvalid(Value())) && thrown.Some? ==>
                && errorMessage == SubmitErrorMessage(thrown.value)
                && name == old(name) && avatarFile == old(avatarFile) && avatarData == old(avatarData)
                && touched == old(touched) && dirty == old(dirty)
                && avatarPreview == old(avatarPreview) && fileInputValue == old(fileInputValue)
                && userAdded == old(userAdded) && modalRequests == old(modalRequests)
    {
      if FormInvalid(Value()) {
        touched := AllControls;
        return;
      }
      FormValidIff(Value());
      isUploading := true;
      match thrown {
        case None =>
          userAdded := userAdded + [NewUser(name.value, avatarData)];
          CloseModal();
        case Some(t) =>
          errorMessage := SubmitErrorMessage(t);
      }
      isUploading := false;
    }
  }

  /** A control nobody has touched or typed into never shows its errors, even
      an empty required one. */
  lemma PristineShowsNothing(m: AddUserModalComponent)
    requires m.touched == {} && m.dirty == {}
    ensures forall c :: !m.IsControlInvalid(c)
  {
  }

  /** Once every control is touched (as a rejected submit leaves them), each
      control shows exactly when it has errors. */
  lemma TouchedShowsEveryError(m: AddUserModalComponent)
    requires m.touched == AllControls
    ensures forall c :: m.IsControlInvalid(c) <==> ControlErrors(m.Value(), c) != {}
  {
  }

  /** Two images picked one after the other, the first one read more slowly:
      its late completion overwrites the second one's data, and a submit sends
      the first image under the second selection. Selecting a file does not
      cancel or ignore an earlier read. */
  method StaleReadWins() returns (selected: Option<File>, sent: seq<NewUser>)
    ensures selected == Some(File("image/jpeg", 200))
    ensures sent == [NewUser("Al", Some("data:first"))]
  {
    var first, second := File("image/png", 100), File("image/jpeg", 200);
    assert first.mimeType[..|ImagePrefix|] == ImagePrefix;
    assert second.mimeType[..|ImagePrefix|] == ImagePrefix;
    var m := new AddUserModalComponent();
    m.EnterName("Al");
    m.OnFileSelected("first.png", Some(first));
    m.OnFileSelected("second.jpg", Some(second));
    m.OnReadComplete(1, "data:second");
    m.OnReadComplete(0, "data:first");
    selected := m.avatarFile;
    FormValidIff(m.Value());
    m.AddNewUser(None);
    sent := m.userAdded;
  }

  /** The form is valid as soon as an accepted file is selected, before its read
      completes: a submit then sends the name with no avatar data. */
  method SubmitBeforeReadCompletes() returns (sent: seq<NewUser>)
    ensures sent == [NewUser("Al", None)]
  {
    var photo := File("image/png", MaxAvatarBytes);
    assert photo.mimeType[..|ImagePrefix|] == ImagePrefix;
    var m := new AddUserModalComponent();
    m.EnterName("Al");
    m.OnFileSelected("photo.png", Some(photo));
    FormValidIff(m.Value());
    m.AddNewUser(None);
    sent := m.userAdded;
  }

  /** A one-character name is rejected with an accepted image: nothing is sent
      and the name now shows its `minlength` error. */
  method ShortNameRejected() returns (sent: seq<NewUser>, shown: bool)
    ensures sent == [] && shown
  {
    var photo := File("image/gif", 1);
    assert photo.mimeType[..|ImagePrefix|] == ImagePrefix;
    var m := new AddUserModalComponent();
    m.OnFileSelected("photo.gif", Some(photo));
    m.EnterName("A");
    assert ControlErrors(m.Value(), Name) == {MinLength};
    assert ControlInvalid(m.Value(), Name);
    m.AddNewUser(None);
    sent := m.userAdded;
    shown := m.IsControlInvalid(Name) && m.HasError(Name, "minlength");
  }

  /** Once the name has an error, its error object also answers the inherited
      name `constructor`, while `required`, which it does not carry, stays false. */
  method InheritedNameAnswered() returns (inherited: bool, required: bool)
    ensures inherited && !required
  {
    var m := new AddUserModalComponent();
    m.EnterName("A");
    assert ControlErrors(m.Value(), Name) == {MinLength};
    assert "constructor" in InheritedNames;
    assert "required" !in InheritedNames;
    inherited := m.HasError(Name, "constructor");
    required := m.HasError(Name, "required");
  }

  /** A two-character name with an accepted, read image is sent exactly once,
      the form is reset and the modal is asked to close. */
  method TwoCharacterNameSent() returns (sent: seq<NewUser>, requests: seq<ModalRequest>, name: Option<string>)
    ensures sent == [NewUser("Al", Some("data:photo"))]
    ensures requests == [Close(AddUser)]
    ensures name.None?
  {
    var photo := File("image/gif", 1);
    assert photo.mimeType[..|ImagePrefix|] == ImagePrefix;
    var m := new AddUserModalComponent();
    m.OnFileSelected("photo.gif", Some(photo));
    m.OnReadComplete(0, "data:photo");
    m.EnterName("Al");
    FormValidIff(m.Value());
    m.AddNewUser(None);
    sent, requests, name := m.userAdded, m.modalRequests, m.name;
  }

  /** A read still pending when the modal is closed completes into the reset
      form: avatar data and a preview appear with no avatar file selected. */
  method ReadAfterClose() returns (file: Option<File>, data: Option<string>)
    ensures file.None? && data == Some("data:late")
  {
    var photo := File("image/webp", 10);
    assert photo.mimeType[..|ImagePrefix|] == ImagePrefix;
    var m := new AddUserModalComponent();
    m.OnFileSelected("photo.webp", Some(photo));
    m.CloseModal();
    m.OnReadComplete(0, "data:late");
    file, data := m.avatarFile, m.avatarData;
  }

  /** An invalid pick after a valid one leaves no stale preview: the data and
      preview of the earlier image are gone, the input is cleared and the
      rejected file stays in the control, touched and showing its flags. */
  method InvalidPickClearsPreview() returns (preview: Option<SafeUrl>, data: Option<string>, input: string, shown: bool)
    ensures preview.None? && data.None? && input == ""
    ensures shown
  {
    var photo, big := File("image/png", 100), File("image/png", MaxAvatarBytes + 1);
    assert photo.mimeType[..|ImagePrefix|] == ImagePrefix;
    var m := new AddUserModalComponent();
    m.OnFileSelected("photo.png", Some(photo));
    m.OnReadComplete(0, "data:photo");
    assert MaxSize in Flags(FileValidator(Some(big)));
    m.OnFileSelected("big.png", Some(big));
    assert MaxSize in ControlErrors(m.Value(), AvatarFile);
    preview, data, input := m.avatarPreview, m.avatarData, m.fileInputValue;
    shown := m.IsControlInvalid(AvatarFile) && m.HasError(AvatarFile, "maxSize");
  }
}
