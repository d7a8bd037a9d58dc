/**
  The avatar file validator of the add-user modal: a pure check of a selected
  file's declared MIME type and byte size.
 */
module FileValidation {
  import opened Wrappers

  /** The browser's `File`, reduced to what the validator reads: its declared
      MIME type (`file.type`) and its size in bytes. */
  datatype File = File(mimeType: string, size: nat)

  /** The keys a control's validation errors can carry, across all validators
      of the form: Angular's `required` and `minlength`, and the two flags of
      the file validator. */
  datatype ErrorKey = Required | MinLength | InvalidType | MaxSize

  /** The type prefix every accepted avatar must carry. */
  const ImagePrefix: string := "image/"

  /** The largest accepted avatar, in bytes: 2 MiB. */
  const MaxAvatarBytes: nat := 2 * 1024 * 1024

  /** JavaScript's `s.startsWith(prefix)`. */
  predicate StartsWith(s: string, prefix: string)
  {
    |prefix| <= |s| && s[..|prefix|] == prefix
  }

  /** The flags of a validator result; `null` carries none. */
  function Flags(r: Option<set<ErrorKey>>): set<ErrorKey>
  {
    if r.Some? then r.value else {}
  }

  /** The form's `fileValidator`: no file is no error (that case belongs to
      `required`); otherwise each failed check adds its flag, and a result
      without flags is reported as `null`. */
  function FileValidator(file: Option<File>): (r: Option<set<ErrorKey>>)
    ensures file.None? ==> r.None?
    ensures r.Some? ==> r.value != {} && r.value <= {InvalidType, MaxSize}
    ensures file.Some? ==> (InvalidType in Flags(r) <==> !StartsWith(file.value.mimeType, ImagePrefix))
    ensures file.Some? ==> (MaxSize in Flags(r) <==> file.value.size > MaxAvatarBytes)
  {
    match file
    case None => None
    case Some(f) =>
      var typeErrors := if !StartsWith(f.mimeType, ImagePrefix) then {InvalidType} else {};
      var errors := typeErrors + if f.size > MaxAvatarBytes then {MaxSize} else {};
      if |errors| > 0 then Some(errors) else None
  }

  /** A file the validator lets through. */
  predicate Accepted(f: File)
  {
    FileValidator(Some(f)).None?
  }

  /** A file is accepted exactly when its type starts with "image/" and it
      is at most 2 MiB long. */
  lemma AcceptedIff(f: File)
    ensures Accepted(f) <==> StartsWith(f.mimeType, ImagePrefix) && f.size <= MaxAvatarBytes
  {
  }

  /** The size limit is inclusive: a file of exactly 2,097,152 bytes passes the
      size check and one of a byte more fails it, whatever its type. */
  lemma SizeLimitBoundary(mimeType: string)
    ensures MaxSize !in Flags(FileValidator(Some(File(mimeType, 2097152))))
    ensures MaxSize in Flags(FileValidator(Some(File(mimeType, 2097153))))
  {
  }

  /** Each flag depends only on its own attribute: changing a file's size never
      changes its type flag, and changing its type never changes its size flag. */
  lemma ChecksAreIndependent(f: File, otherType: string, otherSize: nat)
    ensures InvalidType in Flags(FileValidator(Some(f)))
        <==> InvalidType in Flags(FileValidator(Some(f.(size := otherSize))))
    ensures MaxSize in Flags(FileValidator(Some(f)))
        <==> MaxSize in Flags(FileValidator(Some(f.(mimeType := otherType))))
  {
  }

  /** Both flags can be raised by one file. */
  lemma BothFlagsTogether()
    ensures exists f :: FileValidator(Some(f)) == Some({InvalidType, MaxSize})
  {
    var f := File("application/pdf", MaxAvatarBytes + 1);
    assert f.mimeType[..|ImagePrefix|][0] != ImagePrefix[0];
    var r := FileValidator(Some(f));
    assert InvalidType in Flags(r) && MaxSize in Flags(r);
    assert r.value == {InvalidType, MaxSize};
  }

  /** A small image is accepted: the validator does not reject everything. */
  lemma SomeImageAccepted()
    ensures exists f :: Accepted(f) && f.size == MaxAvatarBytes
  {
    var f := File("image/png", MaxAvatarBytes);
    assert f.mimeType[..|ImagePrefix|] == ImagePrefix;
    assert Accepted(f);
  }
}
