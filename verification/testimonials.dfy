/** The admin testimonials page: the add form, its validation, the text of
    the error shown when a create fails, and the two image pickers. */
module Testimonials {
  import opened Common
  import opened Text
  import opened Js
  import opened Upload
  import opened TestimonialsService

  /** The add form's model. */
  datatype Form = Form(name: string, message: string, socialIcon: string, profileImage: string, isActive: bool)

  /** The form as the page starts and as `resetForm` leaves it: every text
      empty and the testimonial active. */
  function EmptyForm(): (r: Form)
    ensures r.name == "" && r.message == "" && r.socialIcon == "" && r.profileImage == ""
    ensures r.isActive
  {
    Form("", "", "", "", true)
  }

  /** A testimonial needs a name and a message that are not blank. */
  predicate Submittable(f: Form) {
    !IsBlank(f.name) && !IsBlank(f.message)
  }

  // ---------------------------------------------------------- error text

  /** The text shown when a create fails, tried in order: the error's
      `message`, the `message` of its `error` member, the error itself when
      it is text, and its JSON form (`stringify`, which may throw, in which
      case the default text stays). */
  function ErrorText(error: Value, stringify: Value -> Option<Value>): (r: Value)
    ensures Truthy(Prop(error, "message")) ==> r == Prop(error, "message")
    ensures !Truthy(Prop(error, "message")) && Truthy(Prop(Prop(error, "error"), "message")) ==>
      r == Prop(Prop(error, "error"), "message")
    ensures !Truthy(Prop(error, "message")) && !Truthy(Prop(Prop(error, "error"), "message")) && error.Str? ==>
      r == error
    ensures !Truthy(Prop(error, "message")) && !Truthy(Prop(Prop(error, "error"), "message")) && !error.Str? ==>
      r == (if stringify(error).Some? then stringify(error).value else Str("Failed to add testimonial"))
  {
    var own := Prop(error, "message");
    var nested := Prop(Prop(error, "error"), "message");
    if Truthy(own) then own
    else if Truthy(nested) then nested
    else if error.Str? then error
    else match stringify(error)
      case Some(json) => json
      case None => Str("Failed to add testimonial")
  }

  /** A thrown `Error` shows its message, whatever else it carries. */
  lemma ErrorObjectShowsMessage(message: string, stringify: Value -> Option<Value>)
    requires message != ""
    ensures ErrorText(ErrorWith(message), stringify) == Str(message)
  {
  }

  /** A thrown text is shown as it is, even when empty: text has no
      `message` member. */
  lemma ThrownTextShownAsIs(s: string, stringify: Value -> Option<Value>)
    ensures ErrorText(Str(s), stringify) == Str(s)
  {
  }

  /** A service error wrapped as `{error: {message}}` shows the inner
      message. */
  lemma WrappedErrorShowsInner(message: string, stringify: Value -> Option<Value>)
    requires message != ""
    ensures ErrorText(Obj(map["error" := ErrorWith(message)]), stringify) == Str(message)
  {
    var e := Obj(map["error" := ErrorWith(message)]);
    assert Prop(e, "message") == Undefined;
  }

  /** The JSON conversion is consulted only as the last resort: two
      serialisers can disagree on the shown text only for an error with no
      message anywhere that is not itself text. */
  lemma StringifyIsLastResort(error: Value, s1: Value -> Option<Value>, s2: Value -> Option<Value>)
    requires ErrorText(error, s1) != ErrorText(error, s2)
    ensures !Truthy(Prop(error, "message")) && !Truthy(Prop(Prop(error, "error"), "message")) && !error.Str?
    ensures s1(error) != s2(error)
  {
  }

  // ------------------------------------------------------ addTestimonial

  datatype AddResult =
    | MissingFields
    | Added(sent: Form)
    | AddFailed(sent: Form, shown: Value)

  /** `addTestimonial`: a blank name or message is refused and nothing is
      sent; otherwise the form is sent as it is, and it is cleared only when
      the create succeeds.  `thrown` is the error the create rejected with,
      if any. */
  function AddTestimonial(f: Form, thrown: Option<Value>, stringify: Value -> Option<Value>): (r: (Form, AddResult))
    ensures r.1.MissingFields? <==> !Submittable(f)
    ensures r.1.MissingFields? ==> r.0 == f
    ensures r.1.Added? ==> r.1.sent == f && thrown.None? && r.0 == EmptyForm()
    ensures r.1.AddFailed? ==> r.1.sent == f && thrown.Some? && r.0 == f && r.1.shown == ErrorText(thrown.value, stringify)
    ensures Submittable(f) && thrown.None? ==> r.1.Added?
  {
    if !Submittable(f) then (f, MissingFields)
    else match thrown
      case None => (EmptyForm(), Added(f))
      case Some(e) => (f, AddFailed(f, ErrorText(e, stringify)))
  }

  /** Once a create succeeds the form is empty, so pressing the button
      again sends nothing. */
  lemma NoDoubleSubmit(f: Form, stringify: Value -> Option<Value>, again: Option<Value>)
    requires AddTestimonial(f, None, stringify).1.Added?
    ensures AddTestimonial(AddTestimonial(f, None, stringify).0, again, stringify).1 == MissingFields
  {
    assert IsBlank("");
  }

  // --------------------------------------------------------- image pickers

  /** The picker's size limit: 2 MiB for a profile picture, 1 MiB for an
      icon. */
  function Limit(kind: Kind): nat {
    match kind
    case Profile => ProfileImageLimit
    case Social => SocialIconLimit
  }

  /** The form field a picker fills. */
  function ImageOf(f: Form, kind: Kind): string {
    match kind
    case Profile => f.profileImage
    case Social => f.socialIcon
  }

  function WithImage(f: Form, kind: Kind, url: string): (r: Form)
    ensures ImageOf(r, kind) == url
    ensures r.name == f.name && r.message == f.message && r.isActive == f.isActive
    ensures forall other :: other != kind ==> ImageOf(r, other) == ImageOf(f, other)
  {
    match kind
    case Profile => f.(profileImage := url)
    case Social => f.(socialIcon := url)
  }

  datatype PickResult = Refused(verdict: Verdict) | Stored(url: string) | PickFailed(shown: Value)

  function FallbackUploadText(kind: Kind): string {
    match kind
    case Profile => "Failed to upload profile image"
    case Social => "Failed to upload social media icon"
  }

  /** `onProfileImageSelected` / `onSocialIconSelected`: the file checks
      with the picker's limit, then the upload (`upload`, the service's
      result); its link goes into the picker's own field, and a failure
      shows the error's message or the picker's default text. */
  function PickImage(f: Form, kind: Kind, file: Option<FileInfo>, upload: Uploaded): (r: (Form, PickResult))
    ensures CheckImage(file, Limit(kind)) != Accepted ==> r == (f, Refused(CheckImage(file, Limit(kind))))
    ensures r.1.Stored? ==>
      && CheckImage(file, Limit(kind)) == Accepted && upload == Link(r.1.url)
      && r.0 == WithImage(f, kind, r.1.url)
    ensures r.1.PickFailed? ==>
      && CheckImage(file, Limit(kind)) == Accepted && upload.UploadFailed? && r.0 == f
      && r.1.shown == (if Truthy(Prop(upload.error, "message")) then Prop(upload.error, "message")
                       else Str(FallbackUploadText(kind)))
    ensures CheckImage(file, Limit(kind)) == Accepted && upload.Link? ==> r.1 == Stored(upload.url)
    ensures CheckImage(file, Limit(kind)) == Accepted && upload.UploadFailed? ==> r.0 == f && r.1.PickFailed?
  {
    var verdict := CheckImage(file, Limit(kind));
    if verdict != Accepted then (f, Refused(verdict))
    else match upload
      case Link(url) => (WithImage(f, kind, url), Stored(url))
      case UploadFailed(e) =>
        var m := Prop(e, "message");
        (f, PickFailed(if Truthy(m) then m else Str(FallbackUploadText(kind))))
  }

  /** `removeProfileImage` / `removeSocialIcon`: clear the picker's own
      field and nothing else. */
  function RemoveImage(f: Form, kind: Kind): (r: Form)
    ensures ImageOf(r, kind) == ""
    ensures r.name == f.name && r.message == f.message && r.isActive == f.isActive
    ensures forall other :: other != kind ==> ImageOf(r, other) == ImageOf(f, other)
  {
    WithImage(f, kind, "")
  }

  /** Removing an image just stored undoes the pick as far as that field
      goes, and never touches the other picker's field. */
  lemma RemoveUndoesPick(f: Form, kind: Kind, file: Option<FileInfo>, url: string)
    requires CheckImage(file, Limit(kind)) == Accepted
    ensures RemoveImage(PickImage(f, kind, file, Link(url)).0, kind) == RemoveImage(f, kind)
  {
  }

  /** An icon of 1 MiB is taken, one of 2 MiB only as a profile picture. */
  lemma PickerLimits(f: Form, name: string, mimeType: string, upload: Uploaded)
    requires StartsWith(mimeType, "image/") && upload.Link?
    ensures PickImage(f, Social, Some(FileInfo(name, mimeType, 1048576)), upload).1.Stored?
    ensures PickImage(f, Social, Some(FileInfo(name, mimeType, 1048577)), upload).1 == Refused(TooLarge)
    ensures PickImage(f, Profile, Some(FileInfo(name, mimeType, 2097152)), upload).1.Stored?
    ensures PickImage(f, Profile, Some(FileInfo(name, mimeType, 2097153)), upload).1 == Refused(TooLarge)
  {
  }

  /** `editTestimonial` was reduced to a no-op: whatever row is passed, the
      form is left alone. */
  function EditTestimonial(f: Form, row: Record): (r: Form)
    ensures r == f
  {
    f
  }
}
