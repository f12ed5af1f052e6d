/** The profile page (client/src/pages/Profile.jsx): the checks on a new
    avatar image, the upload that changes only the avatar field, and saving
    the form, after which the stored user is the old user overridden by the
    form. Profile records are modelled as maps from field name to value. */
module ProfilePage {
  import opened Wrappers
  import opened Text

  /** 2 MiB: the largest avatar accepted. */
  const MaxAvatarSize: nat := 2 * 1024 * 1024

  const NotAnImage: string := "Please select an image file."
  const ImageTooLarge: string := "Image size must be less than 2MB."
  const AvatarUploaded: string := "Avatar uploaded successfully!"
  const AvatarUploadFailed: string := "Failed to upload avatar."
  const ProfileUpdated: string := "Profile updated!"
  const UpdateFailed: string := "Update failed"
  const AvatarKey: string := "avatar"

  datatype ImageFile = ImageFile(mimeType: string, size: nat)

  /** The avatar checks: the type is checked first, then the size; a file of
      exactly 2 MiB passes. */
  function AvatarError(file: ImageFile): (r: Option<string>)
    ensures r.None? <==> StartsWith(file.mimeType, "image/") && file.size <= MaxAvatarSize
    ensures !StartsWith(file.mimeType, "image/") ==> r == Some(NotAnImage)
    ensures StartsWith(file.mimeType, "image/") && file.size > MaxAvatarSize ==> r == Some(ImageTooLarge)
  {
    if !StartsWith(file.mimeType, "image/") then Some(NotAnImage)
    else if file.size > MaxAvatarSize then Some(ImageTooLarge)
    else None
  }

  /** A 2 MiB image passes, one byte more does not. */
  lemma AvatarSizeBoundary(mimeType: string)
    requires StartsWith(mimeType, "image/")
    ensures AvatarError(ImageFile(mimeType, MaxAvatarSize)).None?
    ensures AvatarError(ImageFile(mimeType, MaxAvatarSize + 1)) == Some(ImageTooLarge)
  {
  }

  /** A non-image is refused as such whatever its size. */
  lemma TypeCheckedFirst(file: ImageFile)
    requires !StartsWith(file.mimeType, "image/")
    ensures AvatarError(file) == Some(NotAnImage)
  {
  }

  /** `{ ...user, ...formData }`: every form field wins, every other field of
      the user is kept. */
  function Merge(user: map<string, string>, form: map<string, string>): (r: map<string, string>)
    ensures r.Keys == user.Keys + form.Keys
    ensures forall k :: k in form ==> r[k] == form[k]
    ensures forall k :: k in user && k !in form ==> r[k] == user[k]
  {
    user + form
  }

  /** Merging the same form twice changes nothing more. */
  lemma MergeIdempotent(user: map<string, string>, form: map<string, string>)
    ensures Merge(Merge(user, form), form) == Merge(user, form)
  {
  }

  datatype Feedback = Feedback(error: string, success: string, uploading: bool)

  class Profile {
    var form: map<string, string>
    var feedback: Feedback
    var editing: bool
    /** The user record kept in the browser's storage. */
    var storedUser: map<string, string>

    constructor (storedUser: map<string, string>)
      ensures form == map["username" := "", "email" := "", "bio" := "", AvatarKey := ""]
      ensures feedback == Feedback("", "", false) && !editing && this.storedUser == storedUser
    {
      form := map["username" := "", "email" := "", "bio" := "", AvatarKey := ""];
      feedback := Feedback("", "", false);
      editing := false;
      this.storedUser := storedUser;
    }

    /** `handleChange`: one field takes the typed value. */
    method HandleChange(name: string, value: string)
      modifies this
      ensures form == old(form)[name := value]
      ensures feedback == old(feedback) && editing == old(editing) && storedUser == old(storedUser)
    {
      form := form[name := value];
    }

    /** `handleAvatarChange`. A refused file only sets the error; an accepted
        one is uploaded, and on success only the avatar field changes. The
        upload's URL, or `None` when it fails, is a parameter. */
    method HandleAvatarChange(file: Option<ImageFile>, uploaded: Option<string>)
      modifies this
      ensures editing == old(editing) && storedUser == old(storedUser)
      ensures file.None? ==> form == old(form) && feedback == old(feedback)
      ensures file.Some? && AvatarError(file.value).Some? ==>
        form == old(form) && feedback == old(feedback).(error := AvatarError(file.value).value)
      ensures file.Some? && AvatarError(file.value).None? && uploaded.Some? ==>
        form == old(form)[AvatarKey := uploaded.value] && feedback == Feedback("", AvatarUploaded, false)
      ensures file.Some? && AvatarError(file.value).None? && uploaded.None? ==>
        form == old(form) && feedback == Feedback(AvatarUploadFailed, "", false)
    {
      if file.None? {
        return;
      }
      var check := AvatarError(file.value);
      if check.Some? {
        feedback := feedback.(error := check.value);
        return;
      }
      feedback := Feedback("", "", true);
      if uploaded.Some? {
        form := form[AvatarKey := uploaded.value];
        feedback := Feedback("", AvatarUploaded, false);
      } else {
        feedback := Feedback(AvatarUploadFailed, "", false);
      }
    }

    /** `handleSubmit`: after a successful save the stored user is the old
        one merged with the form and editing ends; a failed save only sets
        the error. The `loadProfile()` a save triggers later replaces the
        form with the server's copy; that reload is a separate call and is
        not part of this method. */
    method HandleSubmit(saved: bool)
      modifies this
      ensures form == old(form)
      ensures saved ==> storedUser == Merge(old(storedUser), form) && !editing && feedback == Feedback("", ProfileUpdated, false)
      ensures !saved ==> storedUser == old(storedUser) && editing == old(editing) && feedback == Feedback(UpdateFailed, "", false)
    {
      feedback := Feedback("", "", false);
      if saved {
        feedback := Feedback("", ProfileUpdated, false);
        editing := false;
        storedUser := Merge(storedUser, form);
      } else {
        feedback := Feedback(UpdateFailed, "", false);
      }
    }
  }
}
