/** Export jobs, their status machine, and the two stores an export lives in. */
module ExportJobs {
  import opened Common

  datatype Status = Queued | Generating | Ready | Failed | Expired

  type Bytes = seq<nat>

  /** exports/{owner}/{job}.gpx; one key for each owner and job. */
  datatype Key = Key(owner: Id, job: Id)

  datatype Reason = NoGeometry | BadGeometry | TooManyPoints | GeneratorFailed | GeneratorPanicked | TimedOut
                  | UploadFailed | VerifyFailed | ChecksumMismatch

  datatype ExportJob = ExportJob(
    owner: Id, status: Status, storageKey: Option<Key>, checksum: Option<string>,
    failureReason: Option<Reason>, expiresAt: Option<Time>)

  const LIFETIME: Time := 24 * 60 * 60 * SECOND
  const MAX_POINTS := 500_000

  predicate Terminal(s: Status) {
    s == Ready || s == Failed || s == Expired
  }

  function TransitionTo(from: Status, to: Status): Option<Status> {
    if Terminal(from) then
      if (from == Ready || from == Expired) && to == Expired then Some(Expired) else None
    else match (from, to)
      case (Queued, Generating) => Some(Generating)
      case (Generating, Ready) => Some(Ready)
      case (_, Failed) => Some(Failed)
      case _ => None
  }

  function StartGenerating(job: ExportJob): Option<ExportJob> {
    var s := TransitionTo(job.status, Generating);
    if s.None? then None else Some(job.(status := s.value))
  }

  function Complete(job: ExportJob, key: Key, expected: string, verified: string, expiresAt: Time): Option<ExportJob> {
    var s := TransitionTo(job.status, Ready);
    if expected != verified || s.None? then None
    else Some(job.(status := s.value, storageKey := Some(key), checksum := Some(expected), expiresAt := Some(expiresAt)))
  }

  function Fail(job: ExportJob, reason: Reason): Option<ExportJob> {
    var s := TransitionTo(job.status, Failed);
    if s.None? then None else Some(job.(status := s.value, failureReason := Some(reason)))
  }

  function Expire(job: ExportJob): Option<ExportJob> {
    var s := TransitionTo(job.status, Expired);
    if s.None? then None else Some(job.(status := s.value))
  }

  /** An upload that took effect: what was sent, and what the object store keeps of it. */
  datatype Upload = Uploaded(key: Key, sent: Bytes, kept: Bytes)

  /** The two stores, and all uploads that ever took effect. */
  datatype Store = Store(rows: map<Id, ExportJob>, objects: map<Key, Bytes>, uploads: seq<Upload>)

  // ----- what an attempt meets -----

  datatype Generated = Gpx(bytes: Bytes) | GenError | GenPanic | GenTimeout

  /** The route version an attempt reads; generation may use the activity's title. */
  datatype Route =
    | MissingGeometry
    | UnparsableGeometry
    | Parsed(points: nat, generate: Option<string> -> Generated)

  /** What an attempt works from; `garbled` is what the object store keeps when it does not keep what it is sent. */
  datatype Work = Work(route: Route, title: Option<string>, garbled: Option<Bytes>)

  /** Every place where an attempt talks to the database or to object storage. */
  datatype Site =
    | ExistsCheck | LoadExisting | DownloadExisting | PersistExisting
    | LoadRow | PersistGenerating | LoadGeometry | LoadTitle
    | Upload | DownloadUploaded | Reload | PersistReady
    | LoadToFail | PersistFailed

  /** An operation works, reports an error, or is the last one before the process dies. */
  datatype Fault = Fine | Error(applied: bool) | Crash(applied: bool)

  /** A write takes effect unless it failed or died before. */
  predicate Applied(f: Fault) {
    f.Fine? || f.applied
  }

  datatype Outcome = Done | Refused(reason: Option<Reason>) | Crashed

  /** What generation gives for this route and title, or why it gives nothing. */
  function Generation(route: Route, title: Option<string>): Result<Bytes, Reason> {
    match route
    case MissingGeometry => Err(NoGeometry)
    case UnparsableGeometry => Err(BadGeometry)
    case Parsed(points, generate) =>
      if points > MAX_POINTS then Err(TooManyPoints)
      else match generate(title)
        case Gpx(bytes) => Ok(bytes)
        case GenError => Err(GeneratorFailed)
        case GenPanic => Err(GeneratorPanicked)
        case GenTimeout => Err(TimedOut)
  }

  /** A file comes from a parsed route of at most 500 000 points, with the title or, if that could not be read, without. */
  predicate Gives(route: Route, bytes: Bytes, title: Option<string>) {
    && route.Parsed? && route.points <= 500_000
    && (route.generate(title) == Gpx(bytes) || route.generate(None) == Gpx(bytes))
  }

  /** An upload sends such a file; the object store may keep something else. */
  predicate Sends(work: Work, u: Upload) {
    && Gives(work.route, u.sent, work.title)
    && u.kept == work.garbled.GetOr(u.sent)
  }

  // ----- what an attempt without faults does -----

  function Completed(job: ExportJob, key: Key, checksum: string, now: Time): ExportJob {
    job.(status := Ready, storageKey := Some(key), checksum := Some(checksum), expiresAt := Some(now + LIFETIME))
  }

  function FaultFree(s: Store, id: Id, key: Key, route: Route, title: Option<string>, digest: Bytes -> string,
                     now: Time)
      : (Store, Outcome)
  {
    if id !in s.rows then (s, Refused(None))
    else
      var job := s.rows[id];
      if key in s.objects then
        (if Terminal(job.status) then s
         else s.(rows := s.rows[id := Completed(job, key, digest(s.objects[key]), now)]), Done)
      else if job.status == Ready then (s, Done)
      else if Terminal(job.status) then (s, Refused(None))
      else match Generation(route, title)
        case Err(reason) =>
          (s.(rows := s.rows[id := job.(status := Failed, failureReason := Some(reason))]), Refused(Some(reason)))
        case Ok(bytes) =>
          (Store(s.rows[id := Completed(job, key, digest(bytes), now)], s.objects[key := bytes],
                 s.uploads + [Uploaded(key, bytes, bytes)]), Done)
  }

  /** The row failed for this reason, and nothing was stored. */
  predicate FailedFor(a: Store, b: Store, id: Id, reason: Reason) {
    && id in a.rows && b.rows == a.rows[id := a.rows[id].(status := Failed, failureReason := Some(reason))]
    && b.objects == a.objects && b.uploads == a.uploads
  }

  /** The file was stored and the row is Ready with its key and digest, for 24 hours. */
  predicate ReadyWith(a: Store, b: Store, id: Id, key: Key, bytes: Bytes, checksum: string, now: Time) {
    && id in a.rows
    && b.rows == a.rows[id := a.rows[id].(status := Ready, storageKey := Some(key), checksum := Some(checksum),
                                          expiresAt := Some(now + 86_400_000_000))]
    && b.objects == a.objects[key := bytes] && b.uploads == a.uploads + [Uploaded(key, bytes, bytes)]
  }

  /** How the route alone decides an attempt without faults at an open row without an object. */
  predicate ByRoute(a: Store, b: Store, r: Outcome, id: Id, key: Key, route: Route, title: Option<string>,
                    digest: Bytes -> string, now: Time)
  {
    match route
    case MissingGeometry => r == Refused(Some(NoGeometry)) && FailedFor(a, b, id, NoGeometry)
    case UnparsableGeometry => r == Refused(Some(BadGeometry)) && FailedFor(a, b, id, BadGeometry)
    case Parsed(points, generate) =>
      && (points > 500_000 ==> r == Refused(Some(TooManyPoints)) && FailedFor(a, b, id, TooManyPoints))
      && (points <= 500_000 ==>
            match generate(title)
            case Gpx(bytes) => r == Done && ReadyWith(a, b, id, key, bytes, digest(bytes), now)
            case GenError => r == Refused(Some(GeneratorFailed)) && FailedFor(a, b, id, GeneratorFailed)
            case GenPanic => r == Refused(Some(GeneratorPanicked)) && FailedFor(a, b, id, GeneratorPanicked)
            case GenTimeout => r == Refused(Some(TimedOut)) && FailedFor(a, b, id, TimedOut))
  }

  /** The row is Ready with the digest of the object that was there, for 24 hours; nothing is stored. */
  predicate Adopted(a: Store, b: Store, id: Id, key: Key, digest: Bytes -> string, now: Time) {
    && id in a.rows && key in a.objects
    && b.rows == a.rows[id := a.rows[id].(status := Ready, storageKey := Some(key),
                                          checksum := Some(digest(a.objects[key])),
                                          expiresAt := Some(now + 86_400_000_000))]
    && b.objects == a.objects && b.uploads == a.uploads
  }

  /** What an attempt without faults does, by status, object and route. */
  predicate Handled(a: Store, b: Store, r: Outcome, id: Id, key: Key, route: Route, title: Option<string>,
                    digest: Bytes -> string, now: Time)
  {
    && (id !in a.rows ==> r == Refused(None) && b == a)
    && (id in a.rows ==>
          var status := a.rows[id].status;
          && (status in {Ready, Failed, Expired} ==>
                b == a && r == (if key in a.objects || status == Ready then Done else Refused(None)))
          && (status in {Queued, Generating} && key in a.objects ==> r == Done && Adopted(a, b, id, key, digest, now))
          && (status in {Queued, Generating} && key !in a.objects ==> ByRoute(a, b, r, id, key, route, title, digest, now)))
  }

  /** The route, the status of the row and the object decide an attempt without faults. */
  lemma FaultFreeIsHandled(a: Store, b: Store, r: Outcome, id: Id, key: Key, route: Route, title: Option<string>,
                           digest: Bytes -> string, now: Time)
    ensures (b, r) == FaultFree(a, id, key, route, title, digest, now) <==>
            Handled(a, b, r, id, key, route, title, digest, now)
  {
  }

  // ----- what an attempt leaves that dies right after its upload -----

  predicate DiesAfterUpload(faults: Site -> Fault) {
    faults(Site.Upload) == Crash(true) && forall site: Site | site != Site.Upload :: faults(site).Fine?
  }

  function LeftByUpload(s: Store, id: Id, key: Key, bytes: Bytes, garbled: Option<Bytes>): Store
    requires id in s.rows
  {
    Store(s.rows[id := s.rows[id].(status := Generating)], s.objects[key := garbled.GetOr(bytes)],
          s.uploads + [Uploaded(key, bytes, garbled.GetOr(bytes))])
  }

  // ----- what any attempt may do, whatever fails -----

  /** The row an attempt may leave for a job: terminal rows stay, and Ready is earned. */
  predicate RowEvolves(x: ExportJob, y: ExportJob, key: Key, stored: Option<Bytes>, digest: Bytes -> string) {
    && x.owner == y.owner
    && (Terminal(x.status) ==> y == x)
    && (y.status == Queued ==> y == x)
    && (y.status == Expired ==> y == x)
    && (y.status == Ready && y != x ==>
          stored.Some? && y.storageKey == Some(key) && y.checksum == Some(digest(stored.value)) && y.expiresAt.Some?)
    && (y.status != Ready ==> y.checksum == x.checksum && y.storageKey == x.storageKey)
    && (y.status == Failed && y != x ==> y.failureReason.Some?)
  }

  function Lookup(objects: map<Key, Bytes>, key: Key): Option<Bytes> {
    if key in objects then Some(objects[key]) else None
  }

  /** The one upload of an attempt: for an open row without an object; verified if the row ends Ready. */
  ghost predicate UploadsOnce(a: Store, b: Store, id: Id, key: Key, work: Work, digest: Bytes -> string) {
    && id in a.rows && id in b.rows && !Terminal(a.rows[id].status) && b.rows[id].status != Queued
    && key !in a.objects && b.uploads != []
    && var u := Last(b.uploads);
       && b.uploads == a.uploads + [u] && u.key == key && Sends(work, u) && b.objects == a.objects[key := u.kept]
       && (b.rows[id].status == Ready ==> digest(u.sent) == digest(u.kept))
  }

  ghost predicate Evolves(a: Store, b: Store, id: Id, key: Key, work: Work, digest: Bytes -> string) {
    && a.rows.Keys == b.rows.Keys
    && (forall i | i in a.rows && i != id :: b.rows[i] == a.rows[i])
    && (id in a.rows ==> RowEvolves(a.rows[id], b.rows[id], key, Lookup(b.objects, key), digest))
    && ((b.objects == a.objects && b.uploads == a.uploads) || UploadsOnce(a, b, id, key, work, digest))
  }

  // ----- expiry -----

  /** The object goes first and the row follows; an expiry of an open or failed row ends in an error. */
  ghost predicate Expires(a: Store, b: Store, id: Id, interrupted: bool) {
    if id !in a.rows || a.rows[id].status == Expired then b == a
    else
      var job := a.rows[id];
      && b.uploads == a.uploads
      && b.objects == (if job.storageKey.Some? then a.objects - {job.storageKey.value} else a.objects)
      && b.rows == if job.status == Ready && !interrupted then a.rows[id := job.(status := Expired)] else a.rows
  }
}
