/** The checks an upload handler makes, the HTTP status each failing check
    answers with, and what it means for a handler to report the first
    failing check of its sequence. */
module Checks {
  import opened Results

  /** One check made by an upload handler, named after the step it guards. */
  datatype Check =
    // request validation, both handlers
    | ParseId | FindToken | ValidateToken | FindRecord | CheckOwner
    | ParseForm | FindFile | ReadFileType
    // content-type validation
    | ImageType | VideoType
    // thumbnail storage on local disk
    | CreateAsset | CopyAsset
    // video processing and object storage
    | CreateTemp | CopyTemp | FastStart | ProbeAspect | OpenProcessed
    | PutObject | SignUrl

  const StatusOK: nat := 200
  const StatusBadRequest: nat := 400
  const StatusUnauthorized: nat := 401
  const StatusNotFound: nat := 404
  const StatusInternalServerError: nat := 500

  /** Bad input is 400, failed authentication and foreign ownership are 401,
      an unknown record is 404, and every local, external-tool or storage
      failure is 500. */
  function StatusOf(c: Check): (code: nat)
    ensures code in {StatusBadRequest, StatusUnauthorized, StatusNotFound, StatusInternalServerError}
    ensures code == StatusUnauthorized <==> c in {FindToken, ValidateToken, CheckOwner}
    ensures code == StatusNotFound <==> c == FindRecord
    ensures code == StatusBadRequest <==> c in {ParseId, ParseForm, FindFile, ReadFileType, ImageType, VideoType}
  {
    match c
    case ParseId | ParseForm | FindFile | ReadFileType | ImageType | VideoType =>
      StatusBadRequest
    case FindToken | ValidateToken | CheckOwner => StatusUnauthorized
    case FindRecord => StatusNotFound
    case CreateAsset | CopyAsset | CreateTemp | CopyTemp | FastStart | ProbeAspect
       | OpenProcessed | PutObject | SignUrl =>
      StatusInternalServerError
  }

  /** The status of a handler run: 200 when no check failed. */
  function StatusOfRun(failed: Option<Check>): (code: nat)
    ensures code == StatusOK <==> failed.None?
  {
    match failed
    case None => StatusOK
    case Some(c) => StatusOf(c)
  }

  /** `failed` is the check a handler must report when it makes the checks
      in the order given by `step` (the position of each check it makes,
      `None` for checks it does not make) and `holds` says which checks
      pass: no check fails when all pass; otherwise the reported check is
      one it makes, it fails, and every check made before it passes. */
  ghost predicate IsFirstFailure(step: Check -> Option<nat>, holds: Check -> bool, failed: Option<Check>)
  {
    match failed
    case None => forall c :: step(c).Some? ==> holds(c)
    case Some(f) =>
      && step(f).Some?
      && !holds(f)
      && forall c :: step(c).Some? && step(c).value < step(f).value ==> holds(c)
  }

  /** The first failure, from its two halves: the reported check is made
      and fails, and every failing check is reported or preceded by the
      reported one. */
  lemma FirstFailureOf(step: Check -> Option<nat>, holds: Check -> bool, failed: Option<Check>)
    requires failed.Some? ==> step(failed.value).Some? && !holds(failed.value)
    requires forall c :: step(c).Some? && !holds(c) ==>
               failed.Some? && step(failed.value).value <= step(c).value
    ensures IsFirstFailure(step, holds, failed)
  {
  }

  /** A check that fails earlier in the sequence hides every later one. */
  lemma EarlierFailureWins(step: Check -> Option<nat>, holds: Check -> bool,
                           failed: Option<Check>, early: Check, late: Check)
    requires IsFirstFailure(step, holds, failed)
    requires step(early).Some? && step(late).Some? && step(early).value < step(late).value
    requires !holds(early)
    ensures failed.Some? && step(failed.value).value <= step(early).value
    ensures failed != Some(late)
  {
  }

  /** When the handler makes each check at a distinct position, the first
      failure is determined by which checks pass. */
  lemma FirstFailureUnique(step: Check -> Option<nat>, holds: Check -> bool,
                           f: Option<Check>, g: Option<Check>)
    requires forall c, d :: step(c).Some? && step(c) == step(d) ==> c == d
    requires IsFirstFailure(step, holds, f) && IsFirstFailure(step, holds, g)
    ensures f == g
  {
  }
}
