/** The testimonials service: turning stored image paths into links the
    browser can show, naming uploaded files, and choosing the link an upload
    returns.  Every storage call is an input: the reply it settled with, or
    the fact that it threw. */
module TestimonialsService {
  import opened Common
  import opened Text
  import opened Js

  // ------------------------------------------------------- image links

  /** The test `/^https?:\/\//i`: the text already is a web address. */
  predicate IsAbsoluteUrl(s: string) {
    StartsWith(ToLower(s), "http://") || StartsWith(ToLower(s), "https://")
  }

  /** An image field is sent for signing when it is set and is not already
      a web address (the regular expression tests its text form). */
  predicate NeedsSigning(v: Value) {
    Truthy(v) && !IsAbsoluteUrl(ToJsString(v))
  }

  /** How one `createSignedUrl` call went: it settled with an error and a
      data object, or it threw. */
  datatype Signing = Settled(error: Value, data: Value) | Threw

  /** The signed link a settled call yields, if it yields one. */
  predicate Signed(s: Signing) {
    s.Settled? && !Truthy(s.error) && Truthy(s.data) && Truthy(Prop(s.data, "signedUrl"))
  }

  /** One image field after signing: replaced only by a signed link,
      otherwise kept as it was. */
  function SignedField(v: Value, s: Signing): (r: Value)
    ensures Signed(s) ==> r == Prop(s.data, "signedUrl")
    ensures !Signed(s) ==> r == v
  {
    if Signed(s) then Prop(s.data, "signedUrl") else v
  }

  /** The row after its social icon is handled; `sign` is the storage
      oracle, keyed by the stored path. */
  function WithSocialIcon(row: Record, sign: Value -> Signing): (r: Record)
    ensures r.Keys == row.Keys
    ensures forall k :: k in row && k != "social_icon" ==> r[k] == row[k]
    ensures !NeedsSigning(Get(row, "social_icon")) ==> r == row
  {
    var icon := Get(row, "social_icon");
    if NeedsSigning(icon) then row["social_icon" := SignedField(icon, sign(icon))] else row
  }

  /** The copy of one fetched row that `getTestimonials` returns: the
      profile image and then the social icon are signed when they need it.
      A signing call that throws ends the row's processing where it is, so
      a throw on the profile image leaves both fields as fetched. */
  function ResolveRow(row: Record, sign: Value -> Signing): (r: Record)
    ensures r.Keys == row.Keys
    ensures forall k :: k in row && k != "profile_image" && k != "social_icon" ==> r[k] == row[k]
    ensures !NeedsSigning(Get(row, "profile_image")) ==> Get(r, "profile_image") == Get(row, "profile_image")
    ensures !NeedsSigning(Get(row, "social_icon")) ==> Get(r, "social_icon") == Get(row, "social_icon")
    ensures NeedsSigning(Get(row, "profile_image")) ==>
      Get(r, "profile_image") == SignedField(Get(row, "profile_image"), sign(Get(row, "profile_image")))
    ensures NeedsSigning(Get(row, "social_icon")) && !(NeedsSigning(Get(row, "profile_image")) && sign(Get(row, "profile_image")).Threw?) ==>
      Get(r, "social_icon") == SignedField(Get(row, "social_icon"), sign(Get(row, "social_icon")))
    ensures NeedsSigning(Get(row, "profile_image")) && sign(Get(row, "profile_image")).Threw? ==> r == row
  {
    var image := Get(row, "profile_image");
    if NeedsSigning(image) then
      match sign(image)
      case Threw => row
      case s => WithSocialIcon(row["profile_image" := SignedField(image, s)], sign)
    else WithSocialIcon(row, sign)
  }

  /** `getTestimonials` / `getAllTestimonials` after the query: a query
      error is rethrown, `null` data reads as no rows, and every row is
      resolved on its own, in order. */
  function ResolveRows(query: Reply<Option<seq<Record>>>, sign: Value -> Signing): (r: Reply<seq<Record>>)
    ensures query.Failed? ==> r == Failed(query.message)
    ensures query == Ok(None) ==> r == Ok([])
    ensures query.Ok? && query.value.Some? ==>
      && r.Ok? && |r.value| == |query.value.value|
      && forall i :: 0 <= i < |r.value| ==> r.value[i] == ResolveRow(query.value.value[i], sign)
  {
    match query
    case Failed(m) => Failed(m)
    case Ok(None) => Ok([])
    case Ok(Some(rows)) => Ok(seq(|rows|, i requires 0 <= i < |rows| => ResolveRow(rows[i], sign)))
  }

  /** A signer that hands out web addresses makes resolving a second time
      change nothing: signed fields are skipped, and the fields it could not
      sign fail the same way again. */
  lemma ResolveRowIdempotent(row: Record, sign: Value -> Signing)
    requires forall v :: Signed(sign(v)) ==> IsAbsoluteUrl(ToJsString(Prop(sign(v).data, "signedUrl")))
    ensures ResolveRow(ResolveRow(row, sign), sign) == ResolveRow(row, sign)
  {
    var image := Get(row, "profile_image");
    if NeedsSigning(image) && !sign(image).Threw? {
      var row1 := row["profile_image" := SignedField(image, sign(image))];
      assert Get(row1, "social_icon") == Get(row, "social_icon");
      SocialIconIdempotent(row1, sign);
    } else if !NeedsSigning(image) {
      SocialIconIdempotent(row, sign);
    }
  }

  lemma SocialIconIdempotent(row: Record, sign: Value -> Signing)
    requires forall v :: Signed(sign(v)) ==> IsAbsoluteUrl(ToJsString(Prop(sign(v).data, "signedUrl")))
    ensures WithSocialIcon(WithSocialIcon(row, sign), sign) == WithSocialIcon(row, sign)
  {
    var icon := Get(row, "social_icon");
    if NeedsSigning(icon) && Signed(sign(icon)) {
      var row1 := WithSocialIcon(row, sign);
      assert Get(row1, "social_icon") == Prop(sign(icon).data, "signedUrl");
    }
  }

  // ------------------------------------------------------------ uploads

  /** The two upload kinds: profile pictures and social-network icons. */
  datatype Kind = Profile | Social

  function Folder(kind: Kind): string {
    match kind
    case Profile => "profiles"
    case Social => "social"
  }

  function FilePrefix(kind: Kind): string {
    match kind
    case Profile => "profile"
    case Social => "social"
  }

  /** `name.split('.').pop()`: the text after the last dot, or the whole
      name when it has none. */
  function Extension(name: string): (r: string)
    ensures '.' !in r
    ensures '.' !in name ==> r == name
  {
    var parts := Split(name, '.');
    if '.' in name then parts[|parts| - 1]
    else
      SplitNoSeparator(name, '.');
      parts[|parts| - 1]
  }

  /** The extension is what follows the last dot. */
  lemma ExtensionAfterLastDot(base: string, ext: string)
    requires '.' !in ext
    ensures Extension(base + "." + ext) == ext
  {
    SplitAround(base, '.', ext);
    SplitNoSeparator(ext, '.');
  }

  /** The fixed start of an upload path: folder and file prefix. */
  function PathHead(kind: Kind): string {
    Folder(kind) + "/" + FilePrefix(kind) + "-"
  }

  /** The storage path of an upload: folder, kind, upload time `stamp`
      (`Date.now()`), random text `token` and the original extension. */
  function UploadPath(kind: Kind, stamp: nat, token: string, fileName: string): (r: string)
    ensures StartsWith(r, PathHead(kind))
    ensures StartsWith(r[|PathHead(kind)|..], NatToString(stamp) + "-" + token + ".")
  {
    var head := PathHead(kind);
    var middle := NatToString(stamp) + "-" + token + ".";
    var r := head + middle + Extension(fileName);
    assert r[..|head|] == head;
    assert r[|head|..] == middle + Extension(fileName);
    assert (middle + Extension(fileName))[..|middle|] == middle;
    r
  }

  /** Two digit runs that differ stay apart when each is followed by '-'. */
  lemma DigitsThenDashDiffer(a: string, b: string, x: string, y: string)
    requires AllDigits(a) && AllDigits(b) && a != b
    requires x != [] && x[0] == '-' && y != [] && y[0] == '-'
    ensures a + x != b + y
  {
    if |a| == |b| {
      var i :| 0 <= i < |a| && a[i] != b[i];
      assert (a + x)[i] == a[i] && (b + y)[i] == b[i];
    } else if |a| < |b| {
      assert (a + x)[|a|] == '-' && (b + y)[|a|] == b[|a|];
    } else {
      assert (b + y)[|b|] == '-' && (a + x)[|b|] == a[|b|];
    }
  }

  /** After the head, an upload path is the stamp's digits and then text
      starting with '-'. */
  lemma StampThenDash(kind: Kind, stamp: nat, token: string, fileName: string) returns (rest: string)
    ensures UploadPath(kind, stamp, token, fileName)[|PathHead(kind)|..] == NatToString(stamp) + rest
    ensures rest != [] && rest[0] == '-'
  {
    var p := UploadPath(kind, stamp, token, fileName)[|PathHead(kind)|..];
    var a := NatToString(stamp);
    assert StartsWith(p, a + "-" + token + ".");
    assert p[..|a| + 1] == a + "-";
    rest := p[|a|..];
    assert p == a + rest;
  }

  /** Two uploads at different times get different paths, whatever their
      random text and file names; with `upsert: false` neither overwrites
      the other. */
  lemma DistinctStampsDistinctPaths(kind: Kind, s1: nat, s2: nat, t1: string, t2: string, f1: string, f2: string)
    requires s1 != s2
    ensures UploadPath(kind, s1, t1, f1) != UploadPath(kind, s2, t2, f2)
  {
    var x := StampThenDash(kind, s1, t1, f1);
    var y := StampThenDash(kind, s2, t2, f2);
    DecimalOfNatToString(s1);
    DecimalOfNatToString(s2);
    DigitsThenDashDiffer(NatToString(s1), NatToString(s2), x, y);
  }

  lemma UploadPathKeepsExtension(kind: Kind, stamp: nat, token: string, fileName: string)
    ensures Extension(UploadPath(kind, stamp, token, fileName)) == Extension(fileName)
  {
    var base := Folder(kind) + "/" + FilePrefix(kind) + "-" + NatToString(stamp) + "-" + token;
    assert UploadPath(kind, stamp, token, fileName) == base + "." + Extension(fileName);
    ExtensionAfterLastDot(base, Extension(fileName));
  }

  /** What the storage calls of an upload settled with.  Links are text;
      the empty text stands for a missing one. */
  datatype StorageReplies = StorageReplies(uploadError: Value, publicUrl: string, signedError: Value, signedUrl: string)

  /** How an upload ends: the link to show, or the error it throws. */
  datatype Uploaded = Link(url: string) | UploadFailed(error: Value)

  function MissingLinkError(kind: Kind): Value {
    match kind
    case Profile => ErrorWith("Failed to obtain URL for uploaded profile image")
    case Social => ErrorWith("Failed to obtain URL for uploaded social icon")
  }

  /** `uploadProfileImage` / `uploadSocialIcon` after the file is sent: an
      upload error is thrown; a public link wins; otherwise a signing error
      is thrown, a signed link is returned, and with neither the upload
      fails with its own error. */
  function UploadLink(kind: Kind, replies: StorageReplies): (r: Uploaded)
    ensures Truthy(replies.uploadError) ==> r == UploadFailed(replies.uploadError)
    ensures !Truthy(replies.uploadError) && replies.publicUrl != "" ==> r == Link(replies.publicUrl)
    ensures r.Link? ==> r.url != "" && !Truthy(replies.uploadError)
    ensures r.Link? && r.url != replies.publicUrl ==>
      replies.publicUrl == "" && !Truthy(replies.signedError) && r.url == replies.signedUrl
    ensures r.UploadFailed? && !Truthy(replies.uploadError) ==>
      replies.publicUrl == "" && (Truthy(replies.signedError) || replies.signedUrl == "")
    ensures !Truthy(replies.uploadError) && replies.publicUrl == "" && Truthy(replies.signedError)
            ==> r == UploadFailed(replies.signedError)
    ensures (!Truthy(replies.uploadError) && replies.publicUrl == "" && !Truthy(replies.signedError)
             && replies.signedUrl == "") ==> r == UploadFailed(MissingLinkError(kind))
  {
    if Truthy(replies.uploadError) then UploadFailed(replies.uploadError)
    else if replies.publicUrl != "" then Link(replies.publicUrl)
    else if Truthy(replies.signedError) then UploadFailed(replies.signedError)
    else if replies.signedUrl != "" then Link(replies.signedUrl)
    else UploadFailed(MissingLinkError(kind))
  }

  /** An upload gives a link exactly when no error comes before a usable
      link; the picker's kind only names the error for a missing link. */
  lemma LinkExactlyWhenUsable(k1: Kind, k2: Kind, replies: StorageReplies)
    ensures UploadLink(k1, replies).Link? <==>
      !Truthy(replies.uploadError)
      && (replies.publicUrl != "" || (!Truthy(replies.signedError) && replies.signedUrl != ""))
    ensures UploadLink(k1, replies) != UploadLink(k2, replies) ==>
      UploadLink(k1, replies) == UploadFailed(MissingLinkError(k1)) && k1 != k2
  {
  }
}
