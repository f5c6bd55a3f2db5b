/** The checks every image picker runs on the chosen file before anything
    is read or uploaded: a file must be chosen, its MIME type must start with
    `image/`, and its size must not exceed the picker's limit. */
module Upload {
  import opened Common
  import opened Text

  /** What the pickers look at in a browser `File`. */
  datatype FileInfo = FileInfo(name: string, mimeType: string, size: nat)

  /** How a pick ends; only `Accepted` goes on to read or upload the file. */
  datatype Verdict = NoFile | NotAnImage | TooLarge | Accepted

  const MiB: nat := 1024 * 1024

  /** Product images (products page): 5 MiB. */
  const ProductImageLimit: nat := 5 * MiB
  /** Testimonial profile pictures: 2 MiB. */
  const ProfileImageLimit: nat := 2 * MiB
  /** Testimonial social-network icons: 1 MiB. */
  const SocialIconLimit: nat := 1 * MiB

  /** The picker's checks, in their order: the type is checked before the
      size, and the size test is a strict `>`. */
  function CheckImage(file: Option<FileInfo>, limit: nat): (r: Verdict)
    ensures r == Accepted <==> file.Some? && StartsWith(file.value.mimeType, "image/") && file.value.size <= limit
    ensures r == NoFile <==> file.None?
    ensures r == NotAnImage <==> file.Some? && !StartsWith(file.value.mimeType, "image/")
    ensures r == TooLarge ==> file.value.size > limit
  {
    match file
    case None => NoFile
    case Some(f) =>
      if !StartsWith(f.mimeType, "image/") then NotAnImage
      else if f.size > limit then TooLarge
      else Accepted
  }

  /** A file of exactly the limit passes; one byte more does not. */
  lemma LimitIsInclusive(name: string, mimeType: string, limit: nat)
    requires StartsWith(mimeType, "image/")
    ensures CheckImage(Some(FileInfo(name, mimeType, limit)), limit) == Accepted
    ensures CheckImage(Some(FileInfo(name, mimeType, limit + 1)), limit) == TooLarge
  {
  }

  /** A file accepted under a limit is accepted under any larger one; in
      particular every icon the social picker accepts would pass the
      profile picker, and every profile picture the product picker. */
  lemma AcceptanceGrowsWithLimit(file: Option<FileInfo>, small: nat, large: nat)
    requires small <= large
    requires CheckImage(file, small) == Accepted
    ensures CheckImage(file, large) == Accepted
  {
  }

  lemma LimitsAreOrdered()
    ensures SocialIconLimit < ProfileImageLimit < ProductImageLimit
    ensures ProductImageLimit == 5242880
  {
  }

  /** Whatever its size, a file that is not an image is reported as such:
      the size is never looked at. */
  lemma TypeCheckedFirst(name: string, mimeType: string, size: nat, limit: nat)
    requires !StartsWith(mimeType, "image/")
    ensures CheckImage(Some(FileInfo(name, mimeType, size)), limit) == NotAnImage
  {
  }
}
