/** The RPC boundary: a request is parsed against the upload schema before the
    handler sees it, and sequences of such calls. */
module Router {
  import opened Wrappers
  import opened Schema
  import opened Table
  import opened Handlers

  /** How a failed call reaches the client: the validator's issues, or the
      database error the handler raised. */
  datatype RpcError = BadRequest(issues: seq<Issue>) | InternalServerError(cause: DbError)

  /** Every stored record would pass the upload validator. */
  predicate Accepted(s: Store)
  {
    forall i | 0 <= i < |s.rows| ::
      s.rows[i].file_size <= MaxFileSize && IsImageOrVideo(s.rows[i].mime_type)
  }

  /** A media type cut to the column width keeps the prefix that admitted it. */
  lemma StoredMimeStillAccepted(mime: string)
    requires IsImageOrVideo(mime) && ToVarchar(mime, MimeTypeWidth).Some?
    ensures IsImageOrVideo(ToVarchar(mime, MimeTypeWidth).value)
  {
    var stored := ToVarchar(mime, MimeTypeWidth).value;
    assert stored[..6] == mime[..6];
  }

  /** Validates, then uploads. A request the validator refuses never reaches
      the store, which is left exactly as it was, id sequence included; an
      accepted one is passed on, and the handler's record or database error
      is returned. */
  function UploadFileProcedure(s: Store, input: UploadFileInput, now: Timestamp): (res: (Store, Result<UploadedFile, RpcError>))
    ensures Validate(input).Failure? ==> res == (s, Failure(BadRequest(Issues(input))))
    ensures Validate(input).Success? ==> res.0 == UploadFile(s, input, now).0
    ensures Validate(input).Success? ==> (res.1.Failure? <==> UploadFile(s, input, now).1.Failure?)
    ensures Validate(input).Success? && res.1.Failure? ==>
      res.1.error == InternalServerError(UploadFile(s, input, now).1.error)
    ensures res.1.Success? ==> res.0.rows == s.rows + [res.1.value] && res.1.value.id == s.nextId
    ensures res.1.Success? ==>
      res.1.value.file_size <= MaxFileSize && IsImageOrVideo(res.1.value.mime_type)
    ensures res.1.Success? && FitsTable(input) ==> InputOf(res.1.value) == input
    ensures res.1.Failure? ==> res.0.rows == s.rows
    ensures Validate(input).Success? && FitsTable(input) ==>
      (res.1.Success? <==> !LinkTaken(s.rows, input.public_link))
    ensures Valid(s) ==> Valid(res.0)
    ensures Accepted(s) ==> Accepted(res.0)
  {
    match Validate(input)
    case Failure(issues) => (s, Failure(BadRequest(issues)))
    case Success(parsed) =>
      var (s1, r) := UploadFile(s, parsed, now);
      match r
      case Failure(e) => (s1, Failure(InternalServerError(e)))
      case Success(f) =>
        StoredMimeStillAccepted(parsed.mime_type);
        (s1, Success(f))
  }

  /** The store after a run of uploads, the k-th reading the clock as clock[k]. */
  function UploadAll(s: Store, inputs: seq<UploadFileInput>, clock: seq<Timestamp>): (r: Store)
    requires |clock| == |inputs|
    ensures s.rows <= r.rows && |r.rows| <= |s.rows| + |inputs|
    ensures Valid(s) ==> Valid(r)
    ensures Accepted(s) ==> Accepted(r)
    decreases |inputs|
  {
    if inputs == [] then s
    else UploadAll(UploadFileProcedure(s, inputs[0], clock[0]).0, inputs[1..], clock[1..])
  }

  /** Links of the inputs are pairwise different. */
  predicate DistinctLinks(inputs: seq<UploadFileInput>)
  {
    forall i, j | 0 <= i < j < |inputs| :: inputs[i].public_link != inputs[j].public_link
  }

  /** Requests that pass the validator and fit the columns. */
  predicate Storable(inputs: seq<UploadFileInput>)
  {
    forall k | 0 <= k < |inputs| :: Validate(inputs[k]).Success? && FitsTable(inputs[k])
  }

  /** Sum of the requested sizes. */
  function SizeSum(inputs: seq<UploadFileInput>): int
  {
    if inputs == [] then 0 else inputs[0].file_size + SizeSum(inputs[1..])
  }

  /** One storable upload with a fresh link succeeds, appends its record
      and adds its size to the total. */
  lemma FreshStep(s: Store, input: UploadFileInput, now: Timestamp)
    requires Valid(s) && Validate(input).Success? && FitsTable(input)
    requires !LinkTaken(s.rows, input.public_link)
    ensures var (s1, r) := UploadFileProcedure(s, input, now);
            && r.Success? && Valid(s1)
            && s1.rows == s.rows + [r.value]
            && r.value.public_link == input.public_link
            && Total(s1.rows) == Total(s.rows) + input.file_size
  {
    StatsAfterUpload(s, input, now);
  }

  /** Storable uploads with fresh, pairwise different links all succeed: the
      store gains one record per request, every link becomes findable, and the
      size total grows by the requested sizes. */
  lemma {:induction false} UploadAllFresh(s: Store, inputs: seq<UploadFileInput>, clock: seq<Timestamp>)
    requires |clock| == |inputs|
    requires Valid(s) && Storable(inputs) && DistinctLinks(inputs)
    requires forall k | 0 <= k < |inputs| :: !LinkTaken(s.rows, inputs[k].public_link)
    ensures |UploadAll(s, inputs, clock).rows| == |s.rows| + |inputs|
    ensures Total(UploadAll(s, inputs, clock).rows) == Total(s.rows) + SizeSum(inputs)
    ensures forall k | 0 <= k < |inputs| :: LinkTaken(UploadAll(s, inputs, clock).rows, inputs[k].public_link)
    decreases |inputs|
  {
    if inputs != [] {
      FreshStep(s, inputs[0], clock[0]);
      var (s1, r) := UploadFileProcedure(s, inputs[0], clock[0]);
      var rest := inputs[1..];
      forall k | 0 <= k < |rest|
        ensures !LinkTaken(s1.rows, rest[k].public_link)
      {
        assert rest[k] == inputs[k + 1];
      }
      UploadAllFresh(s1, rest, clock[1..]);
      var final := UploadAll(s1, rest, clock[1..]);
      assert final == UploadAll(s, inputs, clock);
      forall k | 0 <= k < |inputs|
        ensures LinkTaken(final.rows, inputs[k].public_link)
      {
        if k == 0 {
          assert final.rows[|s.rows|] == s1.rows[|s.rows|];
        } else {
          assert inputs[k] == rest[k - 1];
        }
      }
    }
  }

  /** Uniform sizes add up to count times size. */
  lemma {:induction false} SizeSumUniform(inputs: seq<UploadFileInput>, size: int)
    requires forall k | 0 <= k < |inputs| :: inputs[k].file_size == size
    ensures SizeSum(inputs) == |inputs| * size
  {
    if inputs != [] {
      SizeSumUniform(inputs[1..], size);
    }
  }

  predicate Nondecreasing(clock: seq<Timestamp>)
  {
    forall i, j | 0 <= i < j < |clock| :: clock[i] <= clock[j]
  }

  /** Records' timestamps follow their row order. */
  predicate StampsOrdered(rows: seq<UploadedFile>)
  {
    forall i, j | 0 <= i < j < |rows| :: rows[i].uploaded_at <= rows[j].uploaded_at
  }

  /** One upload at time `now`, into rows stamped no later than `now`, keeps
      the stamps in row order and none later than `now`. */
  lemma StepStampsOrdered(s: Store, input: UploadFileInput, now: Timestamp)
    requires StampsOrdered(s.rows)
    requires forall i | 0 <= i < |s.rows| :: s.rows[i].uploaded_at <= now
    ensures StampsOrdered(UploadFileProcedure(s, input, now).0.rows)
    ensures forall i | 0 <= i < |UploadFileProcedure(s, input, now).0.rows| ::
      UploadFileProcedure(s, input, now).0.rows[i].uploaded_at <= now
  {
    var (s1, r) := UploadFileProcedure(s, input, now);
    if r.Success? {
      assert s1.rows == s.rows + [r.value];
    }
  }

  /** With a clock that never runs backwards, records stored in a run carry
      timestamps in the order they were stored. */
  lemma {:induction false} UploadAllStampsOrdered(s: Store, inputs: seq<UploadFileInput>, clock: seq<Timestamp>)
    requires |clock| == |inputs|
    requires Nondecreasing(clock) && StampsOrdered(s.rows)
    requires forall i, k | 0 <= i < |s.rows| && 0 <= k < |clock| :: s.rows[i].uploaded_at <= clock[k]
    ensures StampsOrdered(UploadAll(s, inputs, clock).rows)
    decreases |inputs|
  {
    if inputs != [] {
      StepStampsOrdered(s, inputs[0], clock[0]);
      var s1 := UploadFileProcedure(s, inputs[0], clock[0]).0;
      var later := clock[1..];
      forall i, k | 0 <= i < |s1.rows| && 0 <= k < |later|
        ensures s1.rows[i].uploaded_at <= later[k]
      {
        assert later[k] == clock[k + 1];
      }
      UploadAllStampsOrdered(s1, inputs[1..], later);
    }
  }
}
