/** The export handler, operation by operation, with a fault possible at each of them. */
module ExportWorker {
  import opened Common
  import opened ExportJobs

  lemma GenerationIsSent(work: Work, key: Key, bytes: Bytes)
    requires Generation(work.route, work.title) == Ok(bytes) || Generation(work.route, None) == Ok(bytes)
    ensures Sends(work, Uploaded(key, bytes, work.garbled.GetOr(bytes)))
  {
  }

  /** A row that was being generated when the upload took effect: as it was, failed, or Ready with its digest. */
  predicate AfterUpload(x: ExportJob, y: ExportJob, key: Key, kept: Bytes, checksum: string, digest: Bytes -> string) {
    || y == x
    || (y.failureReason.Some? && y == x.(status := Failed, failureReason := y.failureReason))
    || (digest(kept) == checksum && y.expiresAt.Some?
        && y == x.(status := Ready, storageKey := Some(key), checksum := Some(checksum), expiresAt := y.expiresAt))
  }

  lemma UploadedEvolves(a: Store, b: Store, id: Id, key: Key, bytes: Bytes, work: Work, digest: Bytes -> string)
    requires id in a.rows && a.rows[id].status == Generating && key !in a.objects
    requires Generation(work.route, work.title) == Ok(bytes) || Generation(work.route, None) == Ok(bytes)
    requires var u := Uploaded(key, bytes, work.garbled.GetOr(bytes));
             b.objects == a.objects[key := u.kept] && b.uploads == a.uploads + [u]
    requires id in b.rows && b.rows == a.rows[id := b.rows[id]]
    requires AfterUpload(a.rows[id], b.rows[id], key, b.objects[key], digest(bytes), digest)
    ensures Evolves(a, b, id, key, work, digest)
  {
    GenerationIsSent(work, key, bytes);
    hide Generation, Sends;
  }

  lemma NotUploadedEvolves(a: Store, b: Store, id: Id, key: Key, work: Work, digest: Bytes -> string)
    requires id in a.rows && a.rows[id].status == Generating && b.objects == a.objects && b.uploads == a.uploads
    requires id in b.rows && b.rows == a.rows[id := b.rows[id]]
    requires var x, y := a.rows[id], b.rows[id];
             y == x || (y.failureReason.Some? && y == x.(status := Failed, failureReason := y.failureReason))
    ensures Evolves(a, b, id, key, work, digest)
  {
  }

  lemma StoreEvolves(a: Store, id: Id, key: Key, work: Work, digest: Bytes -> string)
    ensures Evolves(a, a, id, key, work, digest)
  {
  }

  lemma StartedEvolves(a: Store, b: Store, id: Id, key: Key, work: Work, digest: Bytes -> string)
    requires id in a.rows && a.rows[id].status == Queued
    requires b == a || b == a.(rows := a.rows[id := a.rows[id].(status := Generating)])
    ensures Evolves(a, b, id, key, work, digest)
  {
  }

  lemma AfterStartEvolves(a: Store, m: Store, b: Store, id: Id, key: Key, work: Work, digest: Bytes -> string)
    requires id in a.rows && !Terminal(a.rows[id].status) && m == a.(rows := a.rows[id := a.rows[id].(status := Generating)])
    requires Evolves(m, b, id, key, work, digest)
    ensures Evolves(a, b, id, key, work, digest)
  {
    hide Sends;
  }

  lemma StartIsHandled(a: Store, m: Store, b: Store, r: Outcome, id: Id, key: Key, route: Route, title: Option<string>,
                       digest: Bytes -> string, now: Time)
    requires id in a.rows && !Terminal(a.rows[id].status) && key !in a.objects
    requires m == a.(rows := a.rows[id := a.rows[id].(status := Generating)])
    ensures ByRoute(m, b, r, id, key, route, title, digest, now) ==> Handled(a, b, r, id, key, route, title, digest, now)
  {
  }

  class Worker {
    const digest: Bytes -> string
    var rows: map<Id, ExportJob>
    var objects: map<Key, Bytes>
    ghost var uploads: seq<Upload>

    ghost function View(): Store
      reads this
    {
      Store(rows, objects, uploads)
    }

    constructor (digest: Bytes -> string, rows: map<Id, ExportJob>, objects: map<Key, Bytes>)
      ensures this.digest == digest && View() == Store(rows, objects, [])
    {
      this.digest, this.rows, this.objects, uploads := digest, rows, objects, [];
    }

    /** UPDATE of the whole row; no row, no change. */
    method Persist(id: Id, job: ExportJob, f: Fault)
      modifies this`rows
      ensures rows == if Applied(f) && id in old(rows) then old(rows)[id := job] else old(rows)
    {
      if Applied(f) && id in rows { rows := rows[id := job]; }
    }

    /** Best effort: errors are swallowed, and only a crash is seen by the caller. */
    method MarkFailed(id: Id, reason: Reason, faults: Site -> Fault) returns (r: Outcome)
      requires id in rows
      modifies this`rows
      ensures r.Crashed? || r == Refused(Some(reason))
      ensures rows == old(rows) ||
              (!Terminal(old(rows)[id].status)
               && rows == old(rows)[id := old(rows)[id].(status := Failed, failureReason := Some(reason))])
      ensures faults(LoadToFail).Fine? && faults(PersistFailed).Fine? ==>
                !r.Crashed? && (!Terminal(old(rows)[id].status) ==> rows[id].status == Failed)
    {
      if faults(LoadToFail).Crash? { return Crashed; }
      if faults(LoadToFail).Fine? && !Terminal(rows[id].status) {
        var failed := Fail(rows[id], reason);
        Persist(id, failed.value, faults(PersistFailed));
        if faults(PersistFailed).Crash? { return Crashed; }
      }
      return Refused(Some(reason));
    }

    /** The path taken when the object is already there. */
    method Adopt(id: Id, key: Key, faults: Site -> Fault, now: Time) returns (r: Outcome)
      requires key in objects
      modifies this`rows
      ensures forall work :: Evolves(old(View()), View(), id, key, work, digest)
      ensures id in rows && r.Done? ==> Terminal(rows[id].status)
      ensures (forall site :: faults(site).Fine?) ==>
                r == (if id in rows then Done else Refused(None))
                && rows == if id in old(rows) && !Terminal(old(rows)[id].status)
                           then old(rows)[id := Completed(old(rows)[id], key, digest(objects[key]), now)] else old(rows)
    {
      if faults(LoadExisting).Crash? { return Crashed; }
      if faults(LoadExisting).Error? || id !in rows { return Refused(None); }
      var job := rows[id];
      if job.status != Ready {
        if faults(DownloadExisting).Crash? { return Crashed; }
        if faults(DownloadExisting).Error? { return Refused(None); }
        var checksum := digest(objects[key]);
        var expiresAt := now + LIFETIME;
        if job.status == Queued {
          job := StartGenerating(job).value;
        }
        if job.status == Generating {
          job := Complete(job, key, checksum, checksum, expiresAt).value;
        }
        Persist(id, job, faults(PersistExisting));
        if faults(PersistExisting).Crash? { return Crashed; }
        if faults(PersistExisting).Error? { return Refused(None); }
      }
      return Done;
    }

    /** Reading the object back, and completing the row if it is what was sent. */
    method Confirm(id: Id, key: Key, checksum: string, faults: Site -> Fault, now: Time) returns (r: Outcome)
      requires id in rows && rows[id].status == Generating && key in objects
      modifies this`rows
      ensures id in rows && rows == old(rows)[id := rows[id]]
      ensures AfterUpload(old(rows)[id], rows[id], key, objects[key], checksum, digest)
      ensures r.Done? ==> rows[id].status == Ready
      ensures (forall site :: faults(site).Fine?) && digest(objects[key]) == checksum ==>
                r == Done && rows[id] == Completed(old(rows)[id], key, checksum, now)
    {
      if faults(DownloadUploaded).Crash? { return Crashed; }
      if faults(DownloadUploaded).Error? {
        r := MarkFailed(id, VerifyFailed, faults);
        return;
      }
      var verified := digest(objects[key]);
      if checksum != verified {
        r := MarkFailed(id, ChecksumMismatch, faults);
        return;
      }
      if faults(Reload).Crash? { return Crashed; }
      if faults(Reload).Error? { return Refused(None); }
      var job := rows[id];
      if job.status == Generating {
        job := Complete(job, key, checksum, verified, now + LIFETIME).value;
        Persist(id, job, faults(PersistReady));
        if faults(PersistReady).Crash? { return Crashed; }
        if faults(PersistReady).Error? { return Refused(None); }
      }
      return Done;
    }

    /** Storing the bytes, reading them back, and completing the row as it is by then. */
    method Publish(id: Id, key: Key, bytes: Bytes, work: Work, faults: Site -> Fault, now: Time) returns (r: Outcome)
      requires id in rows && rows[id].status == Generating && key !in objects
      requires Generation(work.route, work.title) == Ok(bytes) || Generation(work.route, None) == Ok(bytes)
      modifies this
      ensures Evolves(old(View()), View(), id, key, work, digest)
      ensures r.Done? ==> rows[id].status == Ready && digest(objects[key]) == digest(bytes)
      ensures (forall site :: faults(site).Fine?) && work.garbled.None? ==>
                r == Done && View() == Store(old(rows)[id := Completed(old(rows)[id], key, digest(bytes), now)],
                                             old(objects)[key := bytes], old(uploads) + [Uploaded(key, bytes, bytes)])
      ensures faults(Site.Upload) == Crash(true) ==>
                r.Crashed? && View() == LeftByUpload(old(View()), id, key, bytes, work.garbled)
    {
      hide Generation, Evolves, Gives;
      var checksum := digest(bytes);
      if Applied(faults(Site.Upload)) {
        objects := objects[key := work.garbled.GetOr(bytes)];
        uploads := uploads + [Uploaded(key, bytes, work.garbled.GetOr(bytes))];
      }
      if faults(Site.Upload).Crash? {
        r := Crashed;
      } else if faults(Site.Upload).Error? {
        r := MarkFailed(id, UploadFailed, faults);
      } else {
        r := Confirm(id, key, checksum, faults, now);
      }
      assert rows == old(rows)[id := rows[id]];
      if key in objects {
        UploadedEvolves(old(View()), View(), id, key, bytes, work, digest);
      } else {
        NotUploadedEvolves(old(View()), View(), id, key, work, digest);
      }
    }

    /** From the geometry to the completed row, for a row that is being generated. */
    method Generate(id: Id, key: Key, work: Work, faults: Site -> Fault, now: Time) returns (r: Outcome)
      requires id in rows && rows[id].status == Generating && key !in objects
      modifies this
      ensures Evolves(old(View()), View(), id, key, work, digest)
      ensures r.Done? ==> rows[id].status == Ready
      ensures (forall site :: faults(site).Fine?) && work.garbled.None? ==>
                ByRoute(old(View()), View(), r, id, key, work.route, work.title, digest, now)
      ensures DiesAfterUpload(faults) && work.route.Parsed? && work.route.points <= 500_000 && work.route.generate(work.title).Gpx? ==>
                var bytes := work.route.generate(work.title).bytes;
                r.Crashed? && View() == LeftByUpload(old(View()), id, key, bytes, work.garbled)
    {
      hide Evolves, Gives;
      var route, title := work.route, work.title;
      StoreEvolves(View(), id, key, work, digest);
      if faults(LoadGeometry).Crash? { return Crashed; }
      if faults(LoadGeometry).Error? || route.MissingGeometry? {
        r := MarkFailed(id, NoGeometry, faults);
        NotUploadedEvolves(old(View()), View(), id, key, work, digest);
        return;
      }
      if route.UnparsableGeometry? {
        r := MarkFailed(id, BadGeometry, faults);
        NotUploadedEvolves(old(View()), View(), id, key, work, digest);
        return;
      }
      if faults(LoadTitle).Crash? { return Crashed; }
      var name := if faults(LoadTitle).Error? then None else title;
      if route.points > MAX_POINTS {
        r := MarkFailed(id, TooManyPoints, faults);
        NotUploadedEvolves(old(View()), View(), id, key, work, digest);
        return;
      }
      match route.generate(name) {
        case Gpx(bytes) =>
          r := Publish(id, key, bytes, work, faults, now);
        case GenError =>
          r := MarkFailed(id, GeneratorFailed, faults);
          NotUploadedEvolves(old(View()), View(), id, key, work, digest);
        case GenPanic =>
          r := MarkFailed(id, GeneratorPanicked, faults);
          NotUploadedEvolves(old(View()), View(), id, key, work, digest);
        case GenTimeout =>
          r := MarkFailed(id, TimedOut, faults);
          NotUploadedEvolves(old(View()), View(), id, key, work, digest);
      }
    }

    /** From the row, which must be open, to the end of the attempt; there is no object yet. */
    method Start(id: Id, key: Key, work: Work, faults: Site -> Fault, now: Time) returns (r: Outcome)
      requires key !in objects
      modifies this
      ensures Evolves(old(View()), View(), id, key, work, digest)
      ensures id in rows && r.Done? ==> rows[id].status == Ready
      ensures (forall site :: faults(site).Fine?) && work.garbled.None? ==>
                Handled(old(View()), View(), r, id, key, work.route, work.title, digest, now)
      ensures DiesAfterUpload(faults) && work.route.Parsed? && work.route.points <= 500_000 && work.route.generate(work.title).Gpx?
              && id in old(rows) && !Terminal(old(rows)[id].status) ==>
                var bytes := work.route.generate(work.title).bytes;
                r.Crashed? && View() == LeftByUpload(old(View()), id, key, bytes, work.garbled)
    {
      hide Evolves, ByRoute;
      StoreEvolves(View(), id, key, work, digest);
      if faults(LoadRow).Crash? { return Crashed; }
      if faults(LoadRow).Error? || id !in rows { return Refused(None); }
      var job := rows[id];
      match job.status {
        case Ready => return Done;
        case Failed => return Refused(None);
        case Expired => return Refused(None);
        case Queued =>
          job := StartGenerating(job).value;
          Persist(id, job, faults(PersistGenerating));
          StartedEvolves(old(View()), View(), id, key, work, digest);
          if faults(PersistGenerating).Crash? { return Crashed; }
          if faults(PersistGenerating).Error? { return Refused(None); }
        case Generating =>
      }
      ghost var started := View();
      r := Generate(id, key, work, faults, now);
      AfterStartEvolves(old(View()), started, View(), id, key, work, digest);
      StartIsHandled(old(View()), started, View(), r, id, key, work.route, work.title, digest, now);
    }

    /** One delivery of the job, from the existence check to the completed row. */
    method Process(id: Id, owner: Id, work: Work, faults: Site -> Fault, now: Time) returns (r: Outcome)
      modifies this
      ensures Evolves(old(View()), View(), id, Key(owner, id), work, digest)
      ensures work.garbled.None? && Key(owner, id) in objects && Key(owner, id) !in old(objects) ==>
                Gives(work.route, objects[Key(owner, id)], work.title)
      ensures id in rows && r.Done? ==> Terminal(rows[id].status)
      ensures (forall site :: faults(site).Fine?) && work.garbled.None? ==>
                Handled(old(View()), View(), r, id, Key(owner, id), work.route, work.title, digest, now)
      ensures DiesAfterUpload(faults) && work.route.Parsed? && work.route.points <= 500_000 && work.route.generate(work.title).Gpx?
              && id in old(rows) && !Terminal(old(rows)[id].status) && Key(owner, id) !in old(objects) ==>
                var bytes := work.route.generate(work.title).bytes;
                r.Crashed? && View() == LeftByUpload(old(View()), id, Key(owner, id), bytes, work.garbled)
    {
      hide Gives, ByRoute;
      var key := Key(owner, id);
      if faults(ExistsCheck).Crash? { return Crashed; }
      if faults(ExistsCheck).Error? { return Refused(None); }
      if key in objects {
        r := Adopt(id, key, faults, now);
      } else {
        hide Handled;
        r := Start(id, key, work, faults, now);
      }
    }

    /** Expiry deletes the object first and stores the row second. */
    method HandleExpire(id: Id, diesBetween: bool) returns (ok: bool)
      modifies this
      ensures Expires(old(View()), View(), id, diesBetween)
      ensures ok <==> id in old(rows) && (old(rows)[id].status == Expired || (old(rows)[id].status == Ready && !diesBetween))
    {
      if id !in rows { return false; }
      if rows[id].status == Expired { return true; }
      if rows[id].storageKey.Some? {
        objects := objects - {rows[id].storageKey.value};
      }
      if diesBetween { return false; }
      var expired := Expire(rows[id]);
      if expired.None? { return false; }
      rows := rows[id := expired.value];
      return true;
    }
  }
}
