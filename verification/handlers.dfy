/** The three request handlers. Each is one call into the table, and a
    database error reaches the caller as raised. */
module Handlers {
  import opened Wrappers
  import opened Schema
  import opened Table

  /** The insert values for a request: its six fields, unchanged. */
  function ValuesOf(input: UploadFileInput): NewUploadedFile
  {
    NewUploadedFile(input.filename, input.original_name, input.file_path,
                    input.file_size, input.mime_type, input.public_link)
  }

  /** The six client-supplied fields of a stored record. */
  function InputOf(f: UploadedFile): UploadFileInput
  {
    UploadFileInput(f.filename, f.original_name, f.file_path,
                    f.file_size, f.mime_type, f.public_link)
  }

  /** Every string of the request fits its column as it is. */
  predicate FitsTable(input: UploadFileInput)
  {
    ValuesFit(ValuesOf(input))
  }

  /** Stores the request's fields and returns the full record. On success
      exactly that record is appended; on failure the rows are untouched. A
      string too long for its column is refused with that column's error,
      which is raised to the caller as it is. A request that fits the columns
      fails exactly when its link is taken, and then with the unique-constraint
      error. */
  function UploadFile(s: Store, input: UploadFileInput, now: Timestamp): (res: (Store, Result<UploadedFile, DbError>))
    ensures s.nextId <= res.0.nextId <= s.nextId + 1
    ensures res.1.Success? || res.1.error.UniqueViolation? ==> res.0.nextId == s.nextId + 1
    ensures res.1.Success? ==> res.1 == FormRow(s.nextId, ValuesOf(input), now)
    ensures FormRow(s.nextId, ValuesOf(input), now).Failure? ==> res.1 == FormRow(s.nextId, ValuesOf(input), now)
    ensures res.1.Success? ==> res.0.rows == s.rows + [res.1.value]
    ensures res.1.Success? ==> res.1.value.id == s.nextId && res.1.value.uploaded_at == now
    ensures res.1.Success? && FitsTable(input) ==> InputOf(res.1.value) == input
    ensures res.1.Failure? ==> res.0.rows == s.rows
    ensures res.1 == Failure(UniqueViolation(PublicLink)) <==>
      FormRow(s.nextId, ValuesOf(input), now).Success? &&
      LinkTaken(s.rows, FormRow(s.nextId, ValuesOf(input), now).value.public_link)
    ensures (FormRow(s.nextId, ValuesOf(input), now).Success? &&
             !LinkTaken(s.rows, FormRow(s.nextId, ValuesOf(input), now).value.public_link)) ==> res.1.Success?
    ensures FitsTable(input) ==> (res.1.Success? <==> !LinkTaken(s.rows, input.public_link))
    ensures FitsTable(input) && res.1.Failure? ==> res.1.error == UniqueViolation(PublicLink)
    ensures Valid(s) ==> Valid(res.0)
  {
    Insert(s, ValuesOf(input), now)
  }

  /** A filename with a non-space character beyond column 255 is refused
      with the filename column's "value too long" error, and nothing is
      stored. */
  lemma OverlongFilenameRefused(s: Store, input: UploadFileInput, now: Timestamp)
    requires FilenameWidth < |input.filename| && input.filename[|input.filename| - 1] != ' '
    ensures UploadFile(s, input, now).1 == Failure(ValueTooLong(Filename, FilenameWidth))
    ensures UploadFile(s, input, now).0.rows == s.rows
  {
    assert ToVarchar(input.filename, FilenameWidth).None?;
  }

  /** The timestamp is the clock reading taken during the call, so it lies
      between any reading before the call and any reading after it. */
  lemma UploadedAtWithinCall(s: Store, input: UploadFileInput, before: Timestamp, now: Timestamp, after: Timestamp)
    requires before <= now <= after
    ensures UploadFile(s, input, now).1.Success? ==>
      before <= UploadFile(s, input, now).1.value.uploaded_at <= after
  {
  }

  /** A second upload of a link already stored fails with the unique-constraint
      error, leaving the rows as the first upload left them. */
  lemma DuplicateLinkRejected(s: Store, first: UploadFileInput, second: UploadFileInput, t1: Timestamp, t2: Timestamp)
    requires Valid(s) && FitsTable(first) && FitsTable(second)
    requires second.public_link == first.public_link
    requires UploadFile(s, first, t1).1.Success?
    ensures UploadFile(UploadFile(s, first, t1).0, second, t2).1 == Failure(UniqueViolation(PublicLink))
    ensures UploadFile(UploadFile(s, first, t1).0, second, t2).0.rows == UploadFile(s, first, t1).0.rows
  {
    var s1 := UploadFile(s, first, t1).0;
    assert s1.rows[|s.rows|].public_link == first.public_link;
  }

  /** Two uploads with different fresh links both succeed, get different ids,
      and leave two more rows. */
  lemma TwoUploadsDistinctLinks(s: Store, a: UploadFileInput, b: UploadFileInput, t1: Timestamp, t2: Timestamp)
    requires Valid(s) && FitsTable(a) && FitsTable(b)
    requires a.public_link != b.public_link
    requires !LinkTaken(s.rows, a.public_link) && !LinkTaken(s.rows, b.public_link)
    ensures var (s1, r1) := UploadFile(s, a, t1);
            var (s2, r2) := UploadFile(s1, b, t2);
            && r1.Success? && r2.Success?
            && r1.value.id != r2.value.id
            && |s2.rows| == |s.rows| + 2
  {
    var (s1, r1) := UploadFile(s, a, t1);
    assert !LinkTaken(s1.rows, b.public_link) by {
      assert s1.rows == s.rows + [r1.value];
      assert r1.value.public_link == a.public_link;
    }
  }

  /** Looks a record up by its link: the stored record or null, never an error. */
  function GetFileByLink(s: Store, input: GetFileByLinkInput): (r: Option<UploadedFile>)
    ensures r.Some? ==> r.value in s.rows && r.value.public_link == input.public_link
    ensures r.None? <==> !LinkTaken(s.rows, input.public_link)
  {
    FindByLink(s.rows, input.public_link)
  }

  /** In a valid store the lookup returns the very record holding the link. */
  lemma LookupFindsStoredRecord(s: Store, input: GetFileByLinkInput, k: int)
    requires Valid(s) && 0 <= k < |s.rows|
    requires s.rows[k].public_link == input.public_link
    ensures GetFileByLink(s, input) == Some(s.rows[k])
  {
    FindByLinkUnique(s.rows, input.public_link, k);
  }

  /** A link longer than the column width is never found: no stored link is that long. */
  lemma OverlongLinkNotFound(s: Store, input: GetFileByLinkInput)
    requires Valid(s) && |input.public_link| > PublicLinkWidth
    ensures GetFileByLink(s, input) == None
  {
  }

  /** After a successful upload the new record is found by its link, and every
      other link finds what it found before. */
  lemma UploadThenLookup(s: Store, input: UploadFileInput, now: Timestamp, other: GetFileByLinkInput)
    requires Valid(s) && UploadFile(s, input, now).1.Success?
    ensures var (s1, r) := UploadFile(s, input, now);
            GetFileByLink(s1, GetFileByLinkInput(r.value.public_link)) == Some(r.value)
    ensures var (s1, r) := UploadFile(s, input, now);
            other.public_link != r.value.public_link ==>
              GetFileByLink(s1, other) == GetFileByLink(s, other)
  {
    var (s1, r) := UploadFile(s, input, now);
    assert s1.rows[|s.rows|] == r.value;
    LookupFindsStoredRecord(s1, GetFileByLinkInput(r.value.public_link), |s.rows|);
    if other.public_link != r.value.public_link {
      if LinkTaken(s.rows, other.public_link) {
        var k :| 0 <= k < |s.rows| && s.rows[k].public_link == other.public_link;
        LookupFindsStoredRecord(s, other, k);
        assert s1.rows[k] == s.rows[k];
        LookupFindsStoredRecord(s1, other, k);
      } else {
        assert !LinkTaken(s1.rows, other.public_link) by {
          assert s1.rows == s.rows + [r.value];
        }
      }
    }
  }

  /** Counts the records and sums their sizes; the sum of no records is 0,
      not null. */
  method GetFileStats(s: Store) returns (stats: FileStats)
    ensures stats.total_files == |s.rows|
    ensures stats.total_size == Total(s.rows)
    ensures s.rows == [] ==> stats == FileStats(0, 0)
  {
    var count, sum := Aggregate(s.rows);
    var total_size := match sum
      case Some(t) => t
      case None => 0;
    stats := FileStats(count, total_size);
  }

  /** A successful upload adds one record and its size to the statistics; a
      failed one changes neither. */
  lemma StatsAfterUpload(s: Store, input: UploadFileInput, now: Timestamp)
    ensures var (s1, r) := UploadFile(s, input, now);
            r.Success? ==> |s1.rows| == |s.rows| + 1 && Total(s1.rows) == Total(s.rows) + input.file_size
    ensures var (s1, r) := UploadFile(s, input, now);
            r.Failure? ==> |s1.rows| == |s.rows| && Total(s1.rows) == Total(s.rows)
  {
    var (s1, r) := UploadFile(s, input, now);
    if r.Success? {
      assert s1.rows[..|s1.rows| - 1] == s.rows;
    }
  }
}
