/** The uploaded_files table: its column layout, the invariant its constraints
    keep, and the three primitives the handlers use (insert with a uniqueness
    check, point lookup by link, count-and-sum aggregate). The table is an
    immutable value: a sequence of rows in insertion order plus the next value
    of the id sequence. */
module Table {
  import opened Wrappers
  import opened Schema

  /** Character widths of the varchar columns. */
  const FilenameWidth: nat := 255
  const OriginalNameWidth: nat := 255
  const MimeTypeWidth: nat := 100
  const PublicLinkWidth: nat := 255

  /** The width of each varchar column; the other columns have none. */
  function Width(column: Field): nat
  {
    match column
    case Filename => FilenameWidth
    case OriginalName => OriginalNameWidth
    case MimeType => MimeTypeWidth
    case PublicLink => PublicLinkWidth
    case _ => 0
  }

  /** The first value a serial column hands out. */
  const FirstId: int := 1

  /** The values an insert supplies; id and uploaded_at come from column defaults. */
  datatype NewUploadedFile = NewUploadedFile(
    filename: string,
    original_name: string,
    file_path: string,
    file_size: int,
    mime_type: string,
    public_link: string)

  /** Errors the database raises on insert. */
  datatype DbError =
    | ValueTooLong(column: Field, width: nat)
    | UniqueViolation(column: Field)

  datatype Store = Store(rows: seq<UploadedFile>, nextId: int)

  /** The table as created: no rows, the id sequence at its start. */
  const Empty: Store := Store([], FirstId)

  predicate AllSpaces(s: string)
  {
    forall i | 0 <= i < |s| :: s[i] == ' '
  }

  /** Assigns `s` to a varchar(width) column: a string that fits is stored as
      is, one whose excess characters are all spaces is cut to the width, and
      any other is refused. */
  function ToVarchar(s: string, width: nat): (r: Option<string>)
    ensures r.None? <==> exists i | width <= i < |s| :: s[i] != ' '
    ensures r.Some? ==> |r.value| <= width && r.value <= s
    ensures r.Some? ==> forall i | |r.value| <= i < |s| :: s[i] == ' '
    ensures |s| <= width ==> r == Some(s)
    ensures r.Some? && width < |s| ==> |r.value| == width
  {
    if |s| <= width then Some(s)
    else if AllSpaces(s[width..]) then Some(s[..width])
    else None
  }

  /** Every varchar value supplied for a row is within its column's width. */
  predicate ValuesFit(values: NewUploadedFile)
  {
    && |values.filename| <= FilenameWidth
    && |values.original_name| <= OriginalNameWidth
    && |values.mime_type| <= MimeTypeWidth
    && |values.public_link| <= PublicLinkWidth
  }

  /** The values a stored row carries in the columns an insert supplies. */
  function ValuesOfRow(f: UploadedFile): NewUploadedFile
  {
    NewUploadedFile(f.filename, f.original_name, f.file_path, f.file_size, f.mime_type, f.public_link)
  }

  /** Every varchar value of a row is within its column's width. */
  predicate FitsColumns(f: UploadedFile)
  {
    ValuesFit(ValuesOfRow(f))
  }

  /** The unique index on public_link. */
  predicate LinksUnique(rows: seq<UploadedFile>)
  {
    forall i, j | 0 <= i < j < |rows| :: rows[i].public_link != rows[j].public_link
  }

  /** Serial ids grow with insertion order. */
  predicate IdsAscending(rows: seq<UploadedFile>)
  {
    forall i, j | 0 <= i < j < |rows| :: rows[i].id < rows[j].id
  }

  /** What the table's constraints guarantee of every reachable state. */
  predicate Valid(s: Store)
  {
    && FirstId <= s.nextId
    && LinksUnique(s.rows)
    && IdsAscending(s.rows)
    && forall i | 0 <= i < |s.rows| ::
         FirstId <= s.rows[i].id < s.nextId && FitsColumns(s.rows[i])
  }

  predicate LinkTaken(rows: seq<UploadedFile>, link: string)
  {
    exists i | 0 <= i < |rows| :: rows[i].public_link == link
  }

  /** The value `values` supplies for a varchar column. */
  function Supplied(values: NewUploadedFile, column: Field): string
  {
    match column
    case Filename => values.filename
    case OriginalName => values.original_name
    case MimeType => values.mime_type
    case PublicLink => values.public_link
    case _ => ""
  }

  /** The row the database forms from `values`, each varchar value assigned to
      its column in column order; the first value that does not fit is the
      error. */
  function FormRow(id: int, values: NewUploadedFile, now: Timestamp): (r: Result<UploadedFile, DbError>)
    ensures r.Success? <==>
      && ToVarchar(values.filename, FilenameWidth).Some?
      && ToVarchar(values.original_name, OriginalNameWidth).Some?
      && ToVarchar(values.mime_type, MimeTypeWidth).Some?
      && ToVarchar(values.public_link, PublicLinkWidth).Some?
    ensures r.Failure? ==>
      && r.error.ValueTooLong?
      && r.error.column in {Filename, OriginalName, MimeType, PublicLink}
      && r.error.width == Width(r.error.column)
      && ToVarchar(Supplied(values, r.error.column), r.error.width).None?
    ensures r.Failure? && r.error.column != Filename ==>
      ToVarchar(values.filename, FilenameWidth).Some?
    ensures r.Failure? && r.error.column in {MimeType, PublicLink} ==>
      ToVarchar(values.original_name, OriginalNameWidth).Some?
    ensures r.Failure? && r.error.column == PublicLink ==>
      ToVarchar(values.mime_type, MimeTypeWidth).Some?
    ensures r.Success? ==>
      && FitsColumns(r.value)
      && r.value.id == id && r.value.uploaded_at == now
      && r.value.file_path == values.file_path && r.value.file_size == values.file_size
      && r.value.filename == ToVarchar(values.filename, FilenameWidth).value
      && r.value.original_name == ToVarchar(values.original_name, OriginalNameWidth).value
      && r.value.mime_type == ToVarchar(values.mime_type, MimeTypeWidth).value
      && r.value.public_link == ToVarchar(values.public_link, PublicLinkWidth).value
  {
    var filename := ToVarchar(values.filename, FilenameWidth);
    var original_name := ToVarchar(values.original_name, OriginalNameWidth);
    var mime_type := ToVarchar(values.mime_type, MimeTypeWidth);
    var public_link := ToVarchar(values.public_link, PublicLinkWidth);
    if filename.None? then Failure(ValueTooLong(Filename, FilenameWidth))
    else if original_name.None? then Failure(ValueTooLong(OriginalName, OriginalNameWidth))
    else if mime_type.None? then Failure(ValueTooLong(MimeType, MimeTypeWidth))
    else if public_link.None? then Failure(ValueTooLong(PublicLink, PublicLinkWidth))
    else Success(UploadedFile(id, filename.value, original_name.value, values.file_path,
                              values.file_size, mime_type.value, public_link.value, now))
  }

  /** Inserts one row as a single atomic step. A row is formed first, its
      values assigned to their columns; a value too long for its column is
      refused then. The id default is drawn from the sequence for a formed
      row before the unique index is consulted, and a sequence is not rolled
      back, so a row the unique index refuses still uses up an id. The rows
      themselves change only on success. */
  function Insert(s: Store, values: NewUploadedFile, now: Timestamp): (res: (Store, Result<UploadedFile, DbError>))
    ensures s.nextId <= res.0.nextId <= s.nextId + 1
    ensures res.1.Success? || res.1.error.UniqueViolation? ==> res.0.nextId == s.nextId + 1
    ensures res.1.Success? ==> res.0.rows == s.rows + [res.1.value]
    ensures res.1.Success? ==> res.1 == FormRow(s.nextId, values, now)
    ensures res.1.Failure? ==> res.0.rows == s.rows
    ensures FormRow(s.nextId, values, now).Failure? ==> res.1 == FormRow(s.nextId, values, now)
    ensures res.1 == Failure(UniqueViolation(PublicLink)) <==>
      FormRow(s.nextId, values, now).Success? &&
      LinkTaken(s.rows, FormRow(s.nextId, values, now).value.public_link)
    ensures (FormRow(s.nextId, values, now).Success? &&
             !LinkTaken(s.rows, FormRow(s.nextId, values, now).value.public_link)) ==> res.1.Success?
    ensures Valid(s) ==> Valid(res.0)
  {
    var id := s.nextId;
    match FormRow(id, values, now)
    case Failure(e) => (s, Failure(e))
    case Success(row) =>
      if LinkTaken(s.rows, row.public_link) then
        (s.(nextId := id + 1), Failure(UniqueViolation(PublicLink)))
      else
        (Store(s.rows + [row], id + 1), Success(row))
  }

  /** The first row, in row order, whose link equals `link` exactly. */
  function FindByLink(rows: seq<UploadedFile>, link: string): (r: Option<UploadedFile>)
    ensures r.Some? ==> r.value in rows && r.value.public_link == link
    ensures r.None? <==> !LinkTaken(rows, link)
  {
    if rows == [] then None
    else if rows[0].public_link == link then Some(rows[0])
    else FindByLink(rows[1..], link)
  }

  /** Under the unique index, the lookup answers with the one row that has
      the link. */
  lemma {:induction false} FindByLinkUnique(rows: seq<UploadedFile>, link: string, k: int)
    requires LinksUnique(rows)
    requires 0 <= k < |rows| && rows[k].public_link == link
    ensures FindByLink(rows, link) == Some(rows[k])
  {
    if k != 0 {
      assert rows[0].public_link != link;
      assert LinksUnique(rows[1..]) by {
        forall i, j | 0 <= i < j < |rows[1..]|
          ensures rows[1..][i].public_link != rows[1..][j].public_link
        {
          assert rows[1..][i] == rows[i + 1] && rows[1..][j] == rows[j + 1];
        }
      }
      FindByLinkUnique(rows[1..], link, k - 1);
    }
  }

  /** Sum of file_size over the rows. */
  function Total(rows: seq<UploadedFile>): int
  {
    if rows == [] then 0 else Total(rows[..|rows| - 1]) + rows[|rows| - 1].file_size
  }

  /** The sum splits over any division of the rows into two parts. */
  lemma {:induction false} TotalAppend(a: seq<UploadedFile>, b: seq<UploadedFile>)
    ensures Total(a + b) == Total(a) + Total(b)
  {
    if b == [] {
      assert a + b == a;
    } else {
      var last := |b| - 1;
      assert (a + b)[..|a + b| - 1] == a + b[..last];
      TotalAppend(a, b[..last]);
    }
  }

  lemma TotalSingle(x: UploadedFile)
    ensures Total([x]) == x.file_size
  {
    assert [x][..0] == [];
  }

  /** Taking one row out of a sequence takes its size out of the sum. */
  lemma TotalRemove(b: seq<UploadedFile>, j: int)
    requires 0 <= j < |b|
    ensures Total(b) == Total(b[..j] + b[j + 1..]) + b[j].file_size
  {
    var left, right := b[..j], b[j + 1..];
    var tail := [b[j]] + right;
    assert b == left + tail;
    TotalAppend(left, tail);
    TotalAppend([b[j]], right);
    TotalAppend(left, right);
    TotalSingle(b[j]);
  }

  /** Taking one row out of a sequence takes one copy of it out of the multiset. */
  lemma MultisetRemove(b: seq<UploadedFile>, j: int)
    requires 0 <= j < |b|
    ensures multiset(b) == multiset(b[..j] + b[j + 1..]) + multiset{b[j]}
  {
    assert b == b[..j] + [b[j]] + b[j + 1..];
  }

  /** Taking the last row out of one sequence, and the same row out of a
      permutation of it, leaves two permutations of each other. */
  lemma PermutationRemove(a: seq<UploadedFile>, b: seq<UploadedFile>, j: int)
    requires multiset(a) == multiset(b) && a != []
    requires 0 <= j < |b| && b[j] == a[|a| - 1]
    ensures multiset(a[..|a| - 1]) == multiset(b[..j] + b[j + 1..])
  {
    var n := |a| - 1;
    var rest := b[..j] + b[j + 1..];
    MultisetRemove(a, n);
    MultisetRemove(b, j);
    assert a[..n] + a[n + 1..] == a[..n];
    forall z
      ensures multiset(a[..n])[z] == multiset(rest)[z]
    {
      assert (multiset(a[..n]) + multiset{a[n]})[z] == (multiset(rest) + multiset{a[n]})[z];
    }
  }

  /** The sum depends only on which rows there are, not on their order, so
      an unordered scan gives the same total as one in insertion order. */
  lemma {:induction false} TotalPermutation(a: seq<UploadedFile>, b: seq<UploadedFile>)
    requires multiset(a) == multiset(b)
    ensures Total(a) == Total(b)
    decreases |a|
  {
    if a == [] {
      assert |b| == |multiset(b)| == 0;
    } else {
      var n := |a| - 1;
      assert a[n] in multiset(b);
      var j :| 0 <= j < |b| && b[j] == a[n];
      PermutationRemove(a, b, j);
      TotalPermutation(a[..n], b[..j] + b[j + 1..]);
      TotalRemove(b, j);
    }
  }

  /** SQL SUM over the file_size column: NULL for no rows. */
  function SqlSum(rows: seq<UploadedFile>): Option<int>
  {
    if rows == [] then None else Some(Total(rows))
  }

  /** One scan computing count(id) and sum(file_size). */
  method Aggregate(rows: seq<UploadedFile>) returns (count: int, sum: Option<int>)
    ensures count == |rows|
    ensures sum.None? <==> rows == []
    ensures sum.Some? ==> sum.value == Total(rows)
  {
    count := 0;
    sum := None;
    for i := 0 to |rows|
      invariant count == i
      invariant sum == SqlSum(rows[..i])
    {
      var prefix := rows[..i + 1];
      assert prefix[..i] == rows[..i] && prefix[i] == rows[i];
      assert Total(prefix) == Total(rows[..i]) + rows[i].file_size;
      count := count + 1;
      sum := match sum
        case None => Some(rows[i].file_size)
        case Some(t) => Some(t + rows[i].file_size);
    }
    assert rows[..|rows|] == rows;
  }
}
