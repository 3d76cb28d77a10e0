/** The repository's test cases, stated over the model: concrete stores built
    by the handlers from the empty table. */
module Scenarios {
  import opened Wrappers
  import opened Schema
  import opened Table
  import opened Handlers
  import opened Router

  const ImageUpload: UploadFileInput := UploadFileInput(
    "test-image-123.jpg", "my-photo.jpg", "/uploads/test-image-123.jpg",
    2048576, "image/jpeg", "https://example.com/files/abc123def456")

  const VideoUpload: UploadFileInput := UploadFileInput(
    "test-video-456.mp4", "my-video.mp4", "/uploads/test-video-456.mp4",
    10485760, "video/mp4", "https://example.com/files/xyz789abc123")

  /** A different file that reuses the image's link. */
  const DuplicateUpload: UploadFileInput := UploadFileInput(
    "different-file.png", "different.png", "/uploads/different-file.png",
    1024, "image/png", "https://example.com/files/abc123def456")

  /** Requests of a media type the rule admits and a size within the bound
      pass the validator. */
  lemma Admitted(input: UploadFileInput, prefix: string)
    requires prefix == ImagePrefix || prefix == VideoPrefix
    requires |prefix| <= |input.mime_type| && input.mime_type[..6] == prefix
    requires input.file_size <= MaxFileSize
    ensures Validate(input).Success?
  {
  }

  /** The image upload into the empty table is stored as given, with id 1. */
  lemma FirstUpload(t1: Timestamp)
    ensures var (s1, r1) := UploadFileProcedure(Empty, ImageUpload, t1);
            && r1.Success? && r1.value.id == 1 && InputOf(r1.value) == ImageUpload
            && s1 == Store([r1.value], 2)
  {
    Admitted(ImageUpload, ImagePrefix);
  }

  lemma ImageAndVideoLinksDiffer()
    ensures ImageUpload.public_link != VideoUpload.public_link
  {
    assert ImageUpload.public_link[26] != VideoUpload.public_link[26];
  }

  /** The video upload, with a different link, is stored next, with id 2. */
  lemma SecondUpload(s1: Store, t2: Timestamp)
    requires Valid(s1) && s1.nextId == 2 && |s1.rows| == 1
    requires s1.rows[0].public_link == ImageUpload.public_link
    ensures var (s2, r2) := UploadFileProcedure(s1, VideoUpload, t2);
            && r2.Success? && r2.value.id == 2 && InputOf(r2.value) == VideoUpload
            && s2.rows == s1.rows + [r2.value]
  {
    Admitted(VideoUpload, VideoPrefix);
    ImageAndVideoLinksDiffer();
    assert !LinkTaken(s1.rows, VideoUpload.public_link);
  }

  /** A different file under a link already stored is refused by the unique
      index and leaves the rows as they were. */
  lemma DuplicateUploadRefused(s2: Store, t3: Timestamp)
    requires |s2.rows| > 0 && s2.rows[0].public_link == ImageUpload.public_link
    ensures var (s3, r3) := UploadFileProcedure(s2, DuplicateUpload, t3);
            && r3 == Failure(InternalServerError(UniqueViolation(PublicLink)))
            && s3.rows == s2.rows
  {
    Admitted(DuplicateUpload, ImagePrefix);
    assert LinkTaken(s2.rows, DuplicateUpload.public_link);
  }

  /** The two uploads pass the validator and are stored as given, with ids 1
      and 2; re-using the first link is then refused. */
  lemma UploadScenario(t1: Timestamp, t2: Timestamp, t3: Timestamp)
    ensures var (s1, r1) := UploadFileProcedure(Empty, ImageUpload, t1);
            && r1.Success? && r1.value.id == 1
            && var (s2, r2) := UploadFileProcedure(s1, VideoUpload, t2);
               && r2.Success? && r2.value.id == 2 && |s2.rows| == 2
               && var (s3, r3) := UploadFileProcedure(s2, DuplicateUpload, t3);
                  && r3 == Failure(InternalServerError(UniqueViolation(PublicLink)))
                  && s3.rows == s2.rows
  {
    FirstUpload(t1);
    var (s1, r1) := UploadFileProcedure(Empty, ImageUpload, t1);
    SecondUpload(s1, t2);
    var (s2, r2) := UploadFileProcedure(s1, VideoUpload, t2);
    DuplicateUploadRefused(s2, t3);
  }

  /** A 199 MiB QuickTime video is within the limit and is stored. */
  lemma LargeVideoAccepted(now: Timestamp)
    ensures var large := UploadFileInput(
              "large-video-789.mov", "large-video.mov", "/uploads/large-video-789.mov",
              199 * 1024 * 1024, "video/quicktime", "https://example.com/files/large123");
            UploadFileProcedure(Empty, large, now).1.Success?
  {
    Admitted(UploadFileInput(
              "large-video-789.mov", "large-video.mov", "/uploads/large-video-789.mov",
              199 * 1024 * 1024, "video/quicktime", "https://example.com/files/large123"), VideoPrefix);
  }

  const CaseUpload: UploadFileInput := UploadFileInput(
    "test-image-123.jpg", "vacation-photo.jpg", "/uploads/test-image-123.jpg",
    1048576, "image/jpeg", "CaseSensitive-Link-123")

  /** Links match exactly: the stored spelling is found, another casing is
      not, and neither is the empty link nor an unknown one. */
  lemma LookupScenario(now: Timestamp)
    ensures var (s, r) := UploadFile(Empty, CaseUpload, now);
            && r.Success?
            && GetFileByLink(s, GetFileByLinkInput("CaseSensitive-Link-123")) == Some(r.value)
            && GetFileByLink(s, GetFileByLinkInput("casesensitive-link-123")) == None
            && GetFileByLink(s, GetFileByLinkInput("")) == None
            && GetFileByLink(s, GetFileByLinkInput("non-existent-link")) == None
  {
    var (s, r) := UploadFile(Empty, CaseUpload, now);
    assert s.rows == [r.value];
    assert "casesensitive-link-123"[0] != r.value.public_link[0];
    assert "non-existent-link"[0] != r.value.public_link[0];
  }

  const PhotoUpload: UploadFileInput := UploadFileInput(
    "test-image-123.jpg", "vacation-photo.jpg", "/uploads/test-image-123.jpg",
    1048576, "image/jpeg", "abc123-unique-link")

  const BirthdayUpload: UploadFileInput := UploadFileInput(
    "video-file-456.mp4", "birthday-video.mp4", "/uploads/video-file-456.mp4",
    52428800, "video/mp4", "def456-another-link")

  /** With two records stored, the second link returns the second record and
      not the first. */
  lemma LookupAmongSeveral(t1: Timestamp, t2: Timestamp)
    ensures var (s1, r1) := UploadFile(Empty, PhotoUpload, t1);
            var (s2, r2) := UploadFile(s1, BirthdayUpload, t2);
            && r2.Success?
            && GetFileByLink(s2, GetFileByLinkInput("def456-another-link")) == Some(r2.value)
            && InputOf(r2.value) == BirthdayUpload
  {
    var (s1, r1) := UploadFile(Empty, PhotoUpload, t1);
    assert PhotoUpload.public_link[0] != BirthdayUpload.public_link[0];
    var (s2, r2) := UploadFile(s1, BirthdayUpload, t2);
    LookupFindsStoredRecord(s2, GetFileByLinkInput("def456-another-link"), 1);
  }

  /** The empty table reports no files and a size of 0. */
  method EmptyStats() returns (stats: FileStats)
    ensures stats == FileStats(0, 0)
  {
    stats := GetFileStats(Empty);
  }

  /** Uploading storable requests with pairwise different links into the
      empty table and asking for statistics counts every request and sums
      every requested size. */
  method StatsAfterFreshUploads(inputs: seq<UploadFileInput>, clock: seq<Timestamp>) returns (stats: FileStats)
    requires |clock| == |inputs|
    requires Storable(inputs) && DistinctLinks(inputs)
    ensures stats == FileStats(|inputs|, SizeSum(inputs))
  {
    UploadAllFresh(Empty, inputs, clock);
    stats := GetFileStats(UploadAll(Empty, inputs, clock));
  }

  lemma SizeSumPair(a: UploadFileInput, b: UploadFileInput)
    ensures SizeSum([a, b]) == a.file_size + b.file_size
  {
    assert [a, b][1..] == [b] && [b][1..] == [];
    assert SizeSum([b]) == b.file_size + SizeSum([]);
  }

  lemma SizeSumTriple(a: UploadFileInput, b: UploadFileInput, c: UploadFileInput)
    ensures SizeSum([a, b, c]) == a.file_size + b.file_size + c.file_size
  {
    assert [a, b, c][1..] == [b, c];
    SizeSumPair(b, c);
  }

  const Image1: UploadFileInput := UploadFileInput(
    "image1.jpg", "photo1.jpg", "/uploads/image1.jpg",
    500000, "image/jpeg", "https://example.com/files/img1-123")

  const Video1: UploadFileInput := UploadFileInput(
    "video1.mp4", "vacation.mp4", "/uploads/video1.mp4",
    5000000, "video/mp4", "https://example.com/files/vid1-456")

  const Image2: UploadFileInput := UploadFileInput(
    "image2.png", "screenshot.png", "/uploads/image2.png",
    2500000, "image/png", "https://example.com/files/img2-789")

  const ThreeFiles: seq<UploadFileInput> := [Image1, Video1, Image2]

  lemma Image1Storable()
    ensures Validate(Image1).Success? && FitsTable(Image1)
  {
    Admitted(Image1, ImagePrefix);
  }

  lemma Video1Storable()
    ensures Validate(Video1).Success? && FitsTable(Video1)
  {
    Admitted(Video1, VideoPrefix);
  }

  lemma Image2Storable()
    ensures Validate(Image2).Success? && FitsTable(Image2)
  {
    Admitted(Image2, ImagePrefix);
  }

  lemma ThreeFilesStorable()
    ensures Storable(ThreeFiles)
  {
    forall k | 0 <= k < 3
      ensures Validate(ThreeFiles[k]).Success? && FitsTable(ThreeFiles[k])
    {
      if k == 0 {
        Image1Storable();
      } else if k == 1 {
        Video1Storable();
      } else {
        Image2Storable();
      }
    }
  }

  lemma ThreeFilesFresh()
    ensures Storable(ThreeFiles) && DistinctLinks(ThreeFiles)
    ensures SizeSum(ThreeFiles) == 8000000
  {
    ThreeFilesStorable();
    ThreeFilesDistinct();
    SizeSumTriple(Image1, Video1, Image2);
  }

  /** The links differ at character 26, after "https://example.com/files/",
      or, for the two images, at character 29. */
  lemma ThreeFilesDistinct()
    ensures DistinctLinks(ThreeFiles)
  {
    assert Image1.public_link[26] != Video1.public_link[26];
    assert Image1.public_link[29] != Image2.public_link[29];
    assert Video1.public_link[26] != Image2.public_link[26];
    forall i, j | 0 <= i < j < 3
      ensures ThreeFiles[i].public_link != ThreeFiles[j].public_link
    {
      assert (i == 0 && j == 1) || (i == 0 && j == 2) || (i == 1 && j == 2);
    }
  }

  /** Files of 500000, 5000000 and 2500000 bytes give three files and 8000000 bytes. */
  method ThreeFilesStats(clock: seq<Timestamp>) returns (stats: FileStats)
    requires |clock| == 3
    ensures stats == FileStats(3, 8000000)
  {
    ThreeFilesFresh();
    stats := StatsAfterFreshUploads(ThreeFiles, clock);
  }

  const EmptyFile: UploadFileInput := UploadFileInput(
    "empty.txt", "empty.txt", "/uploads/empty.txt",
    0, "image/jpeg", "https://example.com/files/empty-123")

  const NormalFile: UploadFileInput := UploadFileInput(
    "normal.jpg", "normal.jpg", "/uploads/normal.jpg",
    1000, "image/jpeg", "https://example.com/files/normal-456")

  const ZeroAndThousand: seq<UploadFileInput> := [EmptyFile, NormalFile]

  lemma EmptyFileStorable()
    ensures Validate(EmptyFile).Success? && FitsTable(EmptyFile)
  {
    Admitted(EmptyFile, ImagePrefix);
  }

  lemma NormalFileStorable()
    ensures Validate(NormalFile).Success? && FitsTable(NormalFile)
  {
    Admitted(NormalFile, ImagePrefix);
  }

  lemma ZeroAndThousandStorable()
    ensures Storable(ZeroAndThousand)
  {
    forall k | 0 <= k < 2
      ensures Validate(ZeroAndThousand[k]).Success? && FitsTable(ZeroAndThousand[k])
    {
      if k == 0 {
        EmptyFileStorable();
      } else {
        NormalFileStorable();
      }
    }
  }

  lemma ZeroAndThousandDistinct()
    ensures DistinctLinks(ZeroAndThousand)
  {
    assert EmptyFile.public_link[26] != NormalFile.public_link[26];
    forall i, j | 0 <= i < j < 2
      ensures ZeroAndThousand[i].public_link != ZeroAndThousand[j].public_link
    {
      assert i == 0 && j == 1;
    }
  }

  lemma ZeroAndThousandFresh()
    ensures Storable(ZeroAndThousand) && DistinctLinks(ZeroAndThousand)
    ensures SizeSum(ZeroAndThousand) == 1000
  {
    ZeroAndThousandStorable();
    ZeroAndThousandDistinct();
    SizeSumPair(EmptyFile, NormalFile);
  }

  /** A zero-byte file counts as a file but adds nothing to the size. */
  method ZeroSizeStats(clock: seq<Timestamp>) returns (stats: FileStats)
    requires |clock| == 2
    ensures stats == FileStats(2, 1000)
  {
    ZeroAndThousandFresh();
    stats := StatsAfterFreshUploads(ZeroAndThousand, clock);
  }

  /** Fifty stored 10000-byte files with different links give fifty files and
      500000 bytes. */
  method FiftyFilesStats(inputs: seq<UploadFileInput>, clock: seq<Timestamp>) returns (stats: FileStats)
    requires |inputs| == 50 && |clock| == 50
    requires Storable(inputs) && DistinctLinks(inputs)
    requires forall k | 0 <= k < |inputs| :: inputs[k].file_size == 10000
    ensures stats == FileStats(50, 500000)
  {
    SizeSumUniform(inputs, 10000);
    stats := StatsAfterFreshUploads(inputs, clock);
  }
}
