# File-metadata store: a Dafny model

The server keeps one table of metadata for uploaded images and videos. Each
record has an id, a storage name, the client's original name, a path to the
bytes, a size, a media type, a public link and an upload time. Clients can
do three things. They can upload a record, which is validated at the RPC
boundary and then inserted. They can look a record up by its public link.
They can ask for statistics: the number of records and the sum of their
sizes.

The model is functional. The table is an immutable value `Table.Store`: the
rows in insertion order, plus the next value of the id sequence. Every
operation is a pure function from a store to a new store and a result. A
thrown error is a `Failure`, and null is `None`. The clock is a parameter
(`now`). The lookup and statistics operations return no store, so they
cannot change it.

Modules, one per source file or component:

- `Wrappers` (wrappers.dfy): `Option` and `Result`.
- `Schema` (schema.dfy): the record shapes and the upload validator. The
  lookup request carries only `public_link`. The statistics result carries
  only `total_files` and `total_size`.
- `Table` (table.dfy): the table layout and the invariant its constraints
  keep (`Table.Valid`). It also has the three store primitives: insert with
  the uniqueness check, lookup by link, and the count-and-sum scan.
- `Handlers` (handlers.dfy): `uploadFile`, `getFileByLink` and `getFileStats`.
- `Router` (router.dfy): validation followed by the upload handler, as the
  RPC procedure wires them. It also covers runs of several uploads.
- `Scenarios` (scenarios.dfy): the repository's test cases, stated over the
  model.

Every record field is a non-null value by construction, since Dafny
datatypes have no null. This matches the not-null columns.

In three places the code does something one might not expect, and the model follows the code:

- The validator has no lower bound on `file_size`. Only `<= 209715200` is
  checked, so a negative size passes (`Schema.NoLowerBound`).
- The validator does not bound string lengths. The 255/255/100/255 limits
  come from the varchar columns and are enforced by the database when the
  row is inserted. A string that is too long is refused with a "value too
  long" error. PostgreSQL's rule for assigning to `varchar(n)` is followed
  (section 8.3 of the PostgreSQL manual, "Character Types"): if every extra
  character is a space, the value is cut to the width instead of refused
  (`Table.ToVarchar`).
- An insert the unique index refuses leaves the rows unchanged but still
  uses up one id. The serial default draws from the sequence while the row
  is built, before the index is consulted, and sequences are not rolled
  back. The model assumes that a string too long for its column is found
  while the statement is planned, before the row is built, and so leaves
  the sequence where it was; see the `Table.Insert` line under "## Left
  out". A request the validator rejects never reaches the database and
  leaves the store exactly as it was.

## Model

| member | source | states |
|---|---|---|
| Schema.StartsWith | server/src/schema.ts:23-24 | the character-by-character prefix test is true exactly when the prefix is an initial slice of the string |
| Schema.Issues | server/src/schema.ts:18-28 | exactly one issue per broken rule and nothing else: the size issue iff size > 209715200, the media-type issue iff the type does not begin with "image/" or "video/", so a valid request gets none; when both are broken the size issue comes first; for a request whose fields all have the right types, no other field is reported |
| Schema.Validate | server/src/schema.ts:18-28 | accepts iff size <= 209715200 and the media type has an allowed prefix; on acceptance returns the request unchanged; on refusal returns the non-empty issue list |
| Schema.RulesIndependent | server/src/schema.ts:18-28 | a request is valid iff it passes the size rule and the media-type rule, each judged alone; changing filename, original_name, file_path or public_link (to any string, "" included) never changes the verdict |
| Schema.SizeBoundary | server/src/schema.ts:22 | 209715200 is accepted; 209715201 is refused with exactly the size issue |
| Schema.NoLowerBound | server/src/schema.ts:22 | any size up to the bound, negative ones included, passes when the media type is allowed |
| Schema.MimeExamples | server/src/schema.ts:23-26 | "video/quicktime", "image/png", "video/mp4" and "image/" pass; "application/pdf", "image", "Image/png" and "" do not |
| Table.ToVarchar | server/src/db/schema.ts:5-10 | a string is refused by a varchar(n) column iff a non-space character lies beyond position n; an accepted value is a prefix of at most n characters, followed in the input only by spaces; a string that fits is stored unchanged |
| Table.FormRow | server/src/db/schema.ts:3-12 | the row is formed iff all four varchar values are accepted; otherwise the error is "value too long" for the first refused varchar column in column order, carrying that column's own width; a formed row fits every column and carries the given id, the clock reading, the path and the size |
| Table.Insert | server/src/db/schema.ts:4-11 | the id sequence advances by at most one, and by exactly one on success and on a unique-constraint refusal; a successful insert returns exactly the row formed from the values, with id = the sequence value and uploaded_at = now, and appends it; a value too long for its column is raised as that column's error; a formed row whose link is free is inserted, and one whose link is already stored gets the unique-constraint error; on failure the rows are unchanged; the invariant (unique links, ascending ids below the sequence, column widths) is preserved |
| Table.FindByLink | server/src/handlers/get_file_by_link.ts:9-18 | returns a stored row with exactly that link, and returns null iff no stored row has that link |
| Table.FindByLinkUnique | server/src/db/schema.ts:10 | with unique links, the lookup returns the row holding the link |
| Table.TotalAppend | server/src/handlers/get_file_stats.ts:11 | the size sum of two row sequences joined is the sum of their sums |
| Table.TotalPermutation | server/src/handlers/get_file_stats.ts:9-14 | any two orderings of the same rows have the same size sum, so the SQL sum does not depend on the order the scan visits rows in |
| Table.Aggregate | server/src/handlers/get_file_stats.ts:9-14 | the scan's count is the number of rows; its SQL sum is null iff there are no rows and otherwise the sum of file_size |
| Handlers.UploadFile | server/src/handlers/upload_file.ts:5-27 | the request's six fields are inserted and the database's answer is returned unchanged: on success the row formed from them, appended to the rows, and when the strings fit their columns its six client fields equal the request; a string too long for its column fails with that column's "value too long" error; a row formed with its strings cut to width (extra characters all spaces) is stored when its link is free and gets the unique-constraint error when it is taken; on failure the rows are unchanged; a fitting request fails iff its link is taken, and then with the unique-constraint error; the store invariant is preserved |
| Handlers.OverlongFilenameRefused | server/src/db/schema.ts:5 | a filename longer than 255 characters whose last character is not a space is refused with the filename column's "value too long" error, and nothing is stored |
| Handlers.UploadedAtWithinCall | server/src/tests/upload_file.test.ts:141-148 | the returned uploaded_at lies between any clock reading before the call and any after it |
| Handlers.DuplicateLinkRejected | server/src/tests/upload_file.test.ts:97-113 | after one successful upload, a second request with the same link fails with the unique-constraint error and the rows stay as the first upload left them |
| Handlers.TwoUploadsDistinctLinks | server/src/tests/upload_file.test.ts:115-131 | two uploads with different fresh links both succeed with different ids and add two rows |
| Handlers.GetFileByLink | server/src/handlers/get_file_by_link.ts:6-30 | a returned record is stored and has exactly the requested link; the result is null, not an error, iff no record has that link |
| Handlers.LookupFindsStoredRecord | server/src/handlers/get_file_by_link.ts:9-25 | in a valid store, looking up a stored record's link returns that very record, all fields unchanged |
| Handlers.OverlongLinkNotFound | server/src/db/schema.ts:10 | a link longer than 255 characters is never found in a valid store |
| Handlers.UploadThenLookup | server/src/handlers/get_file_by_link.ts:9-13 | after a successful upload its link finds the new record, and every other link finds what it found before |
| Handlers.GetFileStats | server/src/handlers/get_file_stats.ts:6-26 | total_files is the number of records and total_size the sum of their sizes; an empty store gives {0, 0} |
| Handlers.StatsAfterUpload | server/src/handlers/get_file_stats.ts:9-20 | a successful upload adds one record and its size to the statistics; a failed one changes neither |
| Router.StoredMimeStillAccepted | server/src/db/schema.ts:9 | cutting an accepted media type to the 100-character column keeps its "image/" or "video/" prefix |
| Router.UploadFileProcedure | server/src/index.ts:32-34 | a request the validator refuses returns its issues and leaves the store identical, id sequence included; an accepted one leaves the store as the upload handler does and fails exactly when the handler fails, with the handler's database error passed on unchanged; a stored record passes the validator; the rows change only by appending the returned record; the store invariant and "every record passes the validator" are preserved |
| Router.UploadAll | server/src/index.ts:32-34 | a run of uploads only appends (the old rows are a prefix of the new), adds at most one row per request, and preserves the store invariant and validator acceptance |
| Router.UploadAllFresh | server/src/handlers/upload_file.ts:8-22 | storable requests with pairwise different fresh links all succeed: one row each, every link becomes findable, and the size sum grows by the requested sizes |
| Router.UploadAllStampsOrdered | server/src/db/schema.ts:11 | with a clock that never runs backwards, records carry upload times in insertion order |
| Scenarios.FirstUpload | server/src/tests/upload_file.test.ts:33-45 | the image request into the empty table is stored as given, with id 1 |
| Scenarios.SecondUpload | server/src/tests/upload_file.test.ts:47-59 | the video request, under a different link, is stored next, as given, with id 2 |
| Scenarios.DuplicateUploadRefused | server/src/tests/upload_file.test.ts:97-113 | a different file under an already stored link is refused with the unique-constraint error and the rows are unchanged |
| Scenarios.UploadScenario | server/src/tests/upload_file.test.ts:115-131 | image then video succeed with ids 1 and 2 and leave two rows; re-using the image link afterwards is refused |
| Scenarios.LargeVideoAccepted | server/src/tests/upload_file.test.ts:80-95 | a 199 MiB "video/quicktime" request is stored |
| Scenarios.LookupScenario | server/src/tests/get_file_by_link.test.ts:66-154 | "CaseSensitive-Link-123" finds the stored record; "casesensitive-link-123", "" and "non-existent-link" give null |
| Scenarios.LookupAmongSeveral | server/src/tests/get_file_by_link.test.ts:76-113 | with two records stored, the second link returns the second record with its fields as uploaded |
| Scenarios.EmptyStats | server/src/tests/get_file_stats.test.ts:11-16 | the empty table gives {0, 0} |
| Scenarios.StatsAfterFreshUploads | server/src/handlers/get_file_stats.ts:9-20 | after storable uploads with different links into the empty table, the statistics are {number of requests, sum of requested sizes} |
| Scenarios.ThreeFilesStats | server/src/tests/get_file_stats.test.ts:37-76 | the test's three records (a JPEG, an MP4 and a PNG of 500000, 5000000 and 2500000 bytes) give {3, 8000000} |
| Scenarios.ZeroSizeStats | server/src/tests/get_file_stats.test.ts:107-134 | the test's two records, of 0 and 1000 bytes, give {2, 1000}: the empty file counts but adds nothing |
| Scenarios.FiftyFilesStats | server/src/tests/get_file_stats.test.ts:78-105 | fifty storable 10000-byte files with different links give {50, 500000} |

## Left out

- Transport: the tRPC router, HTTP server, CORS middleware, health-check endpoint, port selection and superjson. Only the validate-then-upload order of `index.ts` is modelled.
- How tRPC reports errors on the wire. `Router.RpcError` only keeps the issue list or the database error.
- Database connection and persistence failures other than the two constraint errors. They are raised unchanged by every handler, and the model has no such failure to raise.
- Concurrency. Each insert, with its uniqueness check, is one atomic step. Read isolation between concurrent calls is not modelled.
- The `console.error` logging in each handler's catch block. It is a side effect with no contract.
- JavaScript number semantics. Sizes are mathematical integers, so non-integer, NaN and infinite sizes are not modelled. The 32-bit range of the `integer` column and of the `serial` sequence is not modelled either.
- Turning the SQL `sum` text into a number with `parseInt`. It is exact for all realistic totals. The model uses the integer sum.
- Timestamps are abstract ordered integers. Millisecond and microsecond precision, time zones and `z.coerce.date` are not modelled.
- Text encoding. Strings are sequences of characters, and a column's width is counted in characters. PostgreSQL's refusal of the NUL character is not modelled.
- Rows come back in insertion order. SQL gives no order without `ORDER BY`. With unique links, the lookup answer does not depend on the order, and the size sum never does (`Table.TotalPermutation`).
- Requests with a missing, null or non-string field, which the validator refuses with a type issue on that field, cannot be represented: every field of `Schema.UploadFileInput` is present and has its type. Likewise a `file_size` that is not a number.
- The bytes that `file_path` refers to. The code never reads or writes them.
- Table.Insert: on a "value too long" refusal its contract promises only that the id sequence advances by at most one. Whether PostgreSQL draws the id first depends on whether it finds the over-long value while planning the statement, which folds constant casts, or while executing it. The body takes the planning case and leaves the sequence where it was.
- Handlers.UploadFile: the same "at most one" on a "value too long" refusal, for the same reason.
- Handlers.GetFileByLink: its own contract does not say which of several matching rows comes back. In a valid store there is at most one, and `Handlers.LookupFindsStoredRecord` pins it down.
