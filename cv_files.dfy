/**
 * The CV file field of a student and the rules both CV validators share:
 * the allowed extensions, the 5 MiB ceiling, the checks the form's file field
 * makes before either validator runs, and the error messages.
 */
module CvFiles {
  import opened Wrappers

  /** A file reference with its size in bytes; an empty name means "no file" (a falsy FieldFile). */
  datatype CvFile = CvFile(name: string, size: nat)

  const NoFile := CvFile("", 0)

  /** `bool(file)`: Django file objects are truthy exactly when they carry a name. */
  predicate IsPresent(f: CvFile) {
    f.name != ""
  }

  /** The directory uploads are stored under. */
  const UploadDir := "cv_files/"

  const AllowedExtensions: seq<string> := [".pdf", ".doc", ".docx"]

  /** 5 MiB. */
  const MaxCvSize: nat := 5 * 1024 * 1024

  /** The model field's default max_length, which its form field applies to the submitted name. */
  const MaxNameLength: nat := 100

  datatype CvError = MissingCv | UnsupportedType | TooLarge | NameTooLong | EmptyFile

  /**
   * The value a form's FileField cleans to: the newly submitted file when there is
   * one, otherwise the file already stored on the instance.
   */
  function BoundFile(submitted: CvFile, stored: CvFile): (f: CvFile)
    ensures IsPresent(submitted) ==> f == submitted
    ensures !IsPresent(submitted) ==> f == stored
  {
    if IsPresent(submitted) then submitted else stored
  }

  /**
   * The form's file field, before the form's own clean_cv: with nothing submitted it
   * cleans to the stored file unchecked; a submitted file whose name is longer than
   * 100 characters, or a name that fits but no content, is rejected, in that order.
   */
  function CleanFileField(submitted: CvFile, stored: CvFile): (r: Result<CvFile, CvError>)
    ensures r.Ok? <==> !IsPresent(submitted) || (|submitted.name| <= MaxNameLength && submitted.size > 0)
    ensures r.Ok? ==> r.value == BoundFile(submitted, stored)
    ensures r == Err(NameTooLong) <==> IsPresent(submitted) && |submitted.name| > MaxNameLength
    ensures r == Err(EmptyFile) <==> IsPresent(submitted) && |submitted.name| <= MaxNameLength && submitted.size == 0
  {
    if !IsPresent(submitted) then Ok(stored)
    else if |submitted.name| > MaxNameLength then Err(NameTooLong)
    else if submitted.size == 0 then Err(EmptyFile)
    else Ok(submitted)
  }

  /** The reference saved on the profile once an upload is accepted. */
  function SavedFile(submitted: CvFile, stored: CvFile): (f: CvFile)
    ensures IsPresent(submitted) ==> IsPresent(f) && f.size == submitted.size
    ensures !IsPresent(submitted) ==> f == stored
  {
    if IsPresent(submitted) then CvFile(UploadDir + submitted.name, submitted.size) else stored
  }
}
