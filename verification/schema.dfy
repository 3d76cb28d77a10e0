/** The record shapes exchanged with clients and the upload validator. */
module Schema {
  import opened Wrappers

  /** The inclusive upper bound on an upload's file_size: 200 MiB. */
  const MaxFileSize: int := 200 * 1024 * 1024

  const ImagePrefix: string := "image/"
  const VideoPrefix: string := "video/"

  /** A reading of the store's clock; only the order of readings matters. */
  type Timestamp = int

  /** A stored file record, as returned to clients. */
  datatype UploadedFile = UploadedFile(
    id: int,
    filename: string,
    original_name: string,
    file_path: string,
    file_size: int,
    mime_type: string,
    public_link: string,
    uploaded_at: Timestamp)

  /** An upload request: a record without its server-assigned id and timestamp. */
  datatype UploadFileInput = UploadFileInput(
    filename: string,
    original_name: string,
    file_path: string,
    file_size: int,
    mime_type: string,
    public_link: string)

  /** The aggregate answer of the statistics query. */
  datatype FileStats = FileStats(total_files: int, total_size: int)

  /** The lookup request carries the link and nothing else. */
  datatype GetFileByLinkInput = GetFileByLinkInput(public_link: string)

  /** The fields of an upload request, as an issue names them. */
  datatype Field = Filename | OriginalName | FilePath | FileSize | MimeType | PublicLink

  /** The rule an issue reports as broken. */
  datatype Check = TooBig(maximum: int) | OnlyImageOrVideo

  /** One validation failure: which field, which rule. */
  datatype Issue = Issue(path: Field, check: Check)

  /** Whether `s` begins with `p`, compared character by character. */
  function StartsWith(s: string, p: string): (r: bool)
    ensures r <==> |p| <= |s| && s[..|p|] == p
  {
    if p == [] then true
    else if s == [] then false
    else s[0] == p[0] && StartsWith(s[1..], p[1..])
  }

  /** The media types the upload rule admits, stated on the first six characters. */
  predicate IsImageOrVideo(mime: string)
  {
    6 <= |mime| && (mime[..6] == "image/" || mime[..6] == "video/")
  }

  /** The issues the upload schema reports for `input`, in field order. Every
      field is checked, so a request that breaks both rules gets both issues;
      the four free-text fields accept any string, the empty one included. */
  function Issues(input: UploadFileInput): (r: seq<Issue>)
    ensures Issue(FileSize, TooBig(MaxFileSize)) in r <==> input.file_size > MaxFileSize
    ensures Issue(MimeType, OnlyImageOrVideo) in r <==> !IsImageOrVideo(input.mime_type)
    ensures forall i | 0 <= i < |r| ::
      r[i] == Issue(FileSize, TooBig(MaxFileSize)) || r[i] == Issue(MimeType, OnlyImageOrVideo)
    ensures |r| == (if input.file_size > MaxFileSize then 1 else 0)
                 + (if IsImageOrVideo(input.mime_type) then 0 else 1)
    ensures |r| == 2 ==> r[0].path == FileSize && r[1].path == MimeType
  {
    (if input.file_size <= MaxFileSize then [] else [Issue(FileSize, TooBig(MaxFileSize))])
    + (if StartsWith(input.mime_type, ImagePrefix) || StartsWith(input.mime_type, VideoPrefix)
       then []
       else [Issue(MimeType, OnlyImageOrVideo)])
  }

  /** Parses an upload request: the request itself when no rule is broken,
      otherwise every issue found. */
  function Validate(input: UploadFileInput): (r: Result<UploadFileInput, seq<Issue>>)
    ensures r.Success? <==> input.file_size <= MaxFileSize && IsImageOrVideo(input.mime_type)
    ensures r.Success? ==> r.value == input
    ensures r.Failure? ==> r.error == Issues(input) && r.error != []
  {
    var issues := Issues(input);
    if issues == [] then Success(input) else Failure(issues)
  }

  /** The size rule and the media-type rule are judged separately: a request
      passes exactly when each holds, whatever the other fields hold. */
  lemma RulesIndependent(input: UploadFileInput, filename: string, original_name: string,
                         file_path: string, public_link: string)
    ensures Validate(input).Success? <==>
      Validate(input.(mime_type := "image/png")).Success? &&
      Validate(input.(file_size := 0)).Success?
    ensures Validate(input.(filename := filename, original_name := original_name,
                            file_path := file_path, public_link := public_link))
         == (if Validate(input).Success?
             then Success(input.(filename := filename, original_name := original_name,
                                 file_path := file_path, public_link := public_link))
             else Validate(input))
  {
  }

  /** The size bound is inclusive: 200 MiB passes, one byte more does not. */
  lemma SizeBoundary(input: UploadFileInput)
    requires IsImageOrVideo(input.mime_type)
    ensures Validate(input.(file_size := 209715200)).Success?
    ensures Validate(input.(file_size := 209715201))
         == Failure([Issue(FileSize, TooBig(209715200))])
  {
    assert |ImagePrefix| == 6 && |VideoPrefix| == 6;
    assert StartsWith(input.mime_type, ImagePrefix) || StartsWith(input.mime_type, VideoPrefix);
    var over := input.(file_size := 209715201);
    assert Issues(over) == [Issue(FileSize, TooBig(MaxFileSize))] + [];
    assert [Issue(FileSize, TooBig(MaxFileSize))] + [] == [Issue(FileSize, TooBig(209715200))];
  }

  /** There is no lower bound: a negative size passes the size rule. */
  lemma NoLowerBound(input: UploadFileInput, size: int)
    requires IsImageOrVideo(input.mime_type) && size <= MaxFileSize
    ensures Validate(input.(file_size := size)).Success?
  {
  }

  /** Concrete media types: images and videos pass, others and near misses do not. */
  lemma MimeExamples()
    ensures IsImageOrVideo("video/quicktime") && IsImageOrVideo("image/png")
    ensures IsImageOrVideo("video/mp4") && IsImageOrVideo("image/")
    ensures !IsImageOrVideo("application/pdf") && !IsImageOrVideo("image")
    ensures !IsImageOrVideo("Image/png") && !IsImageOrVideo("")
  {
    assert "video/quicktime"[..6] == "video/";
    assert "image/png"[..6] == "image/";
    assert "video/mp4"[..6] == "video/";
    assert "application/pdf"[..6][0] != "image/"[0] && "application/pdf"[..6][0] != "video/"[0];
    assert "Image/png"[..6][0] != "image/"[0] && "Image/png"[..6][0] != "video/"[0];
  }
}
