/**
  The validity rules of the add-user form: Angular's `required` and
  `minLength(2)` on the name, `required` and the file validator on the avatar
  file, nothing on the avatar data, and how the control errors combine into the
  form's status and into the error keys the template asks about.
 */
module FormRules {
  import opened Wrappers
  import opened FileValidation

  /** The three controls of the form. */
  datatype Control = Name | AvatarFile | AvatarData

  const AllControls: set<Control> := {Name, AvatarFile, AvatarData}

  /** The form's value: one entry per control, each nullable. */
  datatype FormValue = FormValue(name: Option<string>, avatarFile: Option<File>, avatarData: Option<string>)

  /** The name's minimum length. */
  const MinNameLength: nat := 2

  /** Angular's notion of an empty input value: `null`, or a string of length 0. */
  predicate IsEmptyInput(v: Option<string>)
  {
    v.None? || v.value == ""
  }

  /** `Validators.required` on a string control. */
  function RequiredErrors(v: Option<string>): set<ErrorKey>
  {
    if IsEmptyInput(v) then {Required} else {}
  }

  /** `Validators.minLength(n)`: an empty value is left to `required`. */
  function MinLengthErrors(v: Option<string>, n: nat): set<ErrorKey>
  {
    if IsEmptyInput(v) || |v.value| >= n then {} else {MinLength}
  }

  /** The name control's errors: both validators' errors merged. */
  function NameErrors(v: Option<string>): (r: set<ErrorKey>)
    ensures r <= {Required, MinLength}
    ensures Required in r <==> v.None? || |v.value| == 0
    ensures MinLength in r <==> v.Some? && 0 < |v.value| < MinNameLength
  {
    RequiredErrors(v) + MinLengthErrors(v, MinNameLength)
  }

  /** The avatar-file control's errors: `required` merged with the file validator's flags. */
  function AvatarFileErrors(v: Option<File>): (r: set<ErrorKey>)
    ensures v.None? ==> r == {Required}
    ensures v.Some? ==> r == Flags(FileValidator(v)) && Required !in r
  {
    (if v.None? then {Required} else {}) + Flags(FileValidator(v))
  }

  /** A control's current errors; the empty set is Angular's `errors === null`. */
  function ControlErrors(v: FormValue, c: Control): set<ErrorKey>
  {
    match c
    case Name => NameErrors(v.name)
    case AvatarFile => AvatarFileErrors(v.avatarFile)
    case AvatarData => {}
  }

  predicate ControlInvalid(v: FormValue, c: Control)
  {
    ControlErrors(v, c) != {}
  }

  /** The group is invalid when any of its controls is. */
  predicate FormInvalid(v: FormValue)
  {
    exists c :: ControlInvalid(v, c)
  }

  /** The form is valid exactly when the name has at least two characters and
      the avatar file is present and passes the file validator. */
  lemma FormValidIff(v: FormValue)
    ensures !FormInvalid(v) <==>
              && v.name.Some? && |v.name.value| >= MinNameLength
              && v.avatarFile.Some? && FileValidator(v.avatarFile).None?
  {
    if !(v.name.Some? && |v.name.value| >= MinNameLength) {
      assert ControlInvalid(v, Name);
    } else if !(v.avatarFile.Some? && FileValidator(v.avatarFile).None?) {
      assert ControlInvalid(v, AvatarFile);
    } else {
      forall c ensures !ControlInvalid(v, c) {
      }
    }
  }

  /** The avatar data never affects validity. */
  lemma AvatarDataIrrelevant(v: FormValue, data: Option<string>)
    ensures FormInvalid(v) <==> FormInvalid(v.(avatarData := data))
  {
    FormValidIff(v);
    FormValidIff(v.(avatarData := data));
  }

  /** The form's value after `reset()` (every control null) fails both `required`
      rules and nothing else. */
  lemma ResetValueErrors()
    ensures ControlErrors(FormValue(None, None, None), Name) == {Required}
    ensures ControlErrors(FormValue(None, None, None), AvatarFile) == {Required}
    ensures ControlErrors(FormValue(None, None, None), AvatarData) == {}
    ensures FormInvalid(FormValue(None, None, None))
  {
    assert ControlInvalid(FormValue(None, None, None), Name);
  }

  /** The key under which Angular and the file validator store each error. */
  function KeyName(k: ErrorKey): string
  {
    match k
    case Required => "required"
    case MinLength => "minlength"
    case InvalidType => "invalidType"
    case MaxSize => "maxSize"
  }

  /** The error key a string names, if any: the inverse of KeyName. */
  function KeyOf(t: string): (r: Option<ErrorKey>)
    ensures r.Some? ==> KeyName(r.value) == t
    ensures forall k :: KeyName(k) == t ==> r == Some(k)
  {
    if t == "required" then Some(Required)
    else if t == "minlength" then Some(MinLength)
    else if t == "invalidType" then Some(InvalidType)
    else if t == "maxSize" then Some(MaxSize)
    else None
  }

  /** The property names every plain JavaScript object inherits from
      `Object.prototype`; each of them holds a function or an object. */
  const InheritedNames: set<string> := {
    "constructor", "hasOwnProperty", "isPrototypeOf", "propertyIsEnumerable",
    "toLocaleString", "toString", "valueOf", "__proto__",
    "__defineGetter__", "__defineSetter__", "__lookupGetter__", "__lookupSetter__"
  }

  /** `control.errors?.[errorType]` is truthy. A control without errors has
      `errors === null` and answers nothing. Otherwise `errors` is a plain
      object: every value the validators store under their keys is truthy, and
      so is every property the object inherits. */
  function HasKey(errors: set<ErrorKey>, errorType: string): (r: bool)
    ensures errors == {} ==> !r
    ensures errorType !in InheritedNames ==> (r <==> exists k :: k in errors && KeyName(k) == errorType)
    ensures errorType in InheritedNames ==> (r <==> errors != {})
  {
    if errors == {} then false
    else if errorType in InheritedNames then true
    else match KeyOf(errorType)
      case None => false
      case Some(k) => k in errors
  }

  /** No error key is named like an inherited property, so a key's own name is
      answered exactly when the key is present. */
  lemma KeyNamesNotInherited(errors: set<ErrorKey>, k: ErrorKey)
    ensures KeyName(k) !in InheritedNames
    ensures HasKey(errors, KeyName(k)) <==> k in errors
  {
  }

  /** Every error a control carries is reported under its key's name. */
  lemma SomeKeyNamed(errors: set<ErrorKey>)
    requires errors != {}
    ensures exists k :: HasKey(errors, KeyName(k))
  {
    var k :| k in errors;
    assert HasKey(errors, KeyName(k));
  }
}
