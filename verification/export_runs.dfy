/** Exports over any sequence of requests, attempts that may die anywhere, and expiries. */
module ExportRuns {
  import opened Common
  import opened ExportJobs

  datatype Act =
    | Request(id: Id, owner: Id)
    | Attempt(id: Id, owner: Id, work: Work)
    | Expiry(id: Id, interrupted: bool)

  function NewExport(owner: Id): ExportJob {
    ExportJob(owner, Queued, None, None, None, None)
  }

  function Uploads(uploads: seq<Upload>, key: Key): nat
    decreases |uploads|
  {
    if uploads == [] then 0 else Uploads(Front(uploads), key) + if Last(uploads).key == key then 1 else 0
  }

  /** The latest upload under a key. */
  function UploadOf(uploads: seq<Upload>, key: Key): Option<Upload>
    decreases |uploads|
  {
    if uploads == [] then None else if Last(uploads).key == key then Some(Last(uploads)) else UploadOf(Front(uploads), key)
  }

  /** An attempt carries the owner its job was requested with; attempts do not overlap. */
  ghost predicate Next(a: Store, act: Act, b: Store, digest: Bytes -> string) {
    match act
    case Request(id, owner) =>
      id !in a.rows && Key(owner, id) !in a.objects && Uploads(a.uploads, Key(owner, id)) == 0
      && b == a.(rows := a.rows[id := NewExport(owner)])
    case Attempt(id, owner, work) =>
      (id in a.rows ==> a.rows[id].owner == owner) && Evolves(a, b, id, Key(owner, id), work, digest)
    case Expiry(id, interrupted) => Expires(a, b, id, interrupted)
  }

  /** What holds of one export; `broken` tells that an expiry of it died while it was Ready. */
  predicate JobSound(s: Store, id: Id, broken: bool, digest: Bytes -> string)
    requires id in s.rows
  {
    var job := s.rows[id];
    var key := Key(job.owner, id);
    && Uploads(s.uploads, key) <= 1
    && (key in s.objects ==> UploadOf(s.uploads, key).Some? && s.objects[key] == UploadOf(s.uploads, key).value.kept)
    && (!Terminal(job.status) && key !in s.objects ==> Uploads(s.uploads, key) == 0)
    && job.storageKey == (if job.status == Ready || job.status == Expired then Some(key) else None)
    && (job.status == Expired ==> key !in s.objects)
    && (broken ==> job.status == Ready || job.status == Expired)
    && (job.status == Ready ==>
          && job.checksum.Some? && (key in s.objects <==> !broken)
          && (key in s.objects ==> job.checksum.value == digest(s.objects[key])))
  }

  ghost predicate Sound(s: Store, broken: set<Id>, digest: Bytes -> string) {
    broken <= s.rows.Keys && forall id | id in s.rows :: JobSound(s, id, id in broken, digest)
  }

  /** The export whose object an interrupted expiry takes away. */
  function Broken(a: Store, act: Act): set<Id> {
    if act.Expiry? && act.interrupted && act.id in a.rows && a.rows[act.id].status == Ready then {act.id} else {}
  }

  lemma UploadsAppend(uploads: seq<Upload>, u: Upload, key: Key)
    ensures Uploads(uploads + [u], key) == Uploads(uploads, key) + if u.key == key then 1 else 0
    ensures UploadOf(uploads + [u], key) == if u.key == key then Some(u) else UploadOf(uploads, key)
  {
    assert Front(uploads + [u]) == uploads;
  }

  lemma {:induction false} UploadsCount(uploads: seq<Upload>, key: Key)
    ensures UploadOf(uploads, key).Some? <==> Uploads(uploads, key) > 0
    decreases |uploads|
  {
    if uploads != [] { UploadsCount(Front(uploads), key); }
  }

  lemma AttemptKeepsJobSound(a: Store, act: Act, b: Store, broken: set<Id>, digest: Bytes -> string, id: Id)
    requires Sound(a, broken, digest) && act.Attempt? && Next(a, act, b, digest) && id in a.rows
    ensures id in b.rows && JobSound(b, id, id in broken, digest)
  {
    var key := Key(a.rows[id].owner, id);
    assert JobSound(a, id, id in broken, digest);
    if b.uploads != a.uploads {
      UploadsCount(a.uploads, key);
      UploadsAppend(a.uploads, Last(b.uploads), key);
    }
    hide Uploads, UploadOf;
  }

  lemma ExpiryKeepsJobSound(a: Store, act: Act, b: Store, broken: set<Id>, digest: Bytes -> string, id: Id)
    requires Sound(a, broken, digest) && act.Expiry? && Next(a, act, b, digest) && id in a.rows
    ensures id in b.rows && JobSound(b, id, id in broken + Broken(a, act), digest)
  {
    hide Uploads, UploadOf;
    assert JobSound(a, id, id in broken, digest);
    if act.id in a.rows { assert JobSound(a, act.id, act.id in broken, digest); }
  }

  lemma NextKeepsSound(a: Store, act: Act, b: Store, broken: set<Id>, digest: Bytes -> string)
    requires Sound(a, broken, digest) && Next(a, act, b, digest)
    ensures Sound(b, broken + Broken(a, act), digest)
  {
    forall id | id in b.rows ensures JobSound(b, id, id in broken + Broken(a, act), digest) {
      match act
      case Request(_, _) =>
        if id in a.rows { assert JobSound(a, id, id in broken, digest); }
      case Attempt(_, _, _) => AttemptKeepsJobSound(a, act, b, broken, digest, id);
      case Expiry(_, _) => ExpiryKeepsJobSound(a, act, b, broken, digest, id);
    }
  }

  /** stores[i] is the state before acts[i]. */
  ghost predicate IsRun(stores: seq<Store>, acts: seq<Act>, digest: Bytes -> string) {
    |stores| == |acts| + 1 && forall i | 0 <= i < |acts| :: Next(stores[i], acts[i], stores[i + 1], digest)
  }

  const EMPTY := Store(map[], map[], [])

  /** Some expiry of this export, then Ready, died between its two writes. */
  ghost predicate InterruptedAtReady(stores: seq<Store>, acts: seq<Act>, id: Id)
    requires |stores| == |acts| + 1
  {
    exists k :: 0 <= k < |acts| && acts[k] == Expiry(id, true) && id in stores[k].rows && stores[k].rows[id].status == Ready
  }

  function AllBroken(stores: seq<Store>, acts: seq<Act>): set<Id>
    requires |stores| == |acts| + 1
    decreases |acts|
  {
    if acts == [] then {} else AllBroken(Front(stores), Front(acts)) + Broken(stores[|acts| - 1], Last(acts))
  }

  lemma {:induction false} BrokenIsInterrupted(stores: seq<Store>, acts: seq<Act>, id: Id)
    requires |stores| == |acts| + 1
    ensures id in AllBroken(stores, acts) <==> InterruptedAtReady(stores, acts, id)
    decreases |acts|
  {
    if acts != [] {
      var n := |acts| - 1;
      BrokenIsInterrupted(Front(stores), Front(acts), id);
      if id in Broken(stores[n], acts[n]) { assert acts[n] == Expiry(id, true); }
      if InterruptedAtReady(stores, acts, id) && id !in Broken(stores[n], acts[n]) {
        var k :| 0 <= k < |acts| && acts[k] == Expiry(id, true) && id in stores[k].rows && stores[k].rows[id].status == Ready;
        assert Front(acts)[k] == acts[k] && Front(stores)[k] == stores[k];
      }
      if InterruptedAtReady(Front(stores), Front(acts), id) {
        var k :| 0 <= k < n && Front(acts)[k] == Expiry(id, true)
                 && id in Front(stores)[k].rows && Front(stores)[k].rows[id].status == Ready;
        assert acts[k] == Expiry(id, true) && stores[k] == Front(stores)[k];
      }
    }
  }

  lemma FrontIsRun(stores: seq<Store>, acts: seq<Act>, digest: Bytes -> string)
    requires IsRun(stores, acts, digest) && acts != []
    ensures IsRun(Front(stores), Front(acts), digest) && Next(Last(Front(stores)), Last(acts), Last(stores), digest)
  {
    forall i | 0 <= i < |acts| - 1 ensures Next(Front(stores)[i], Front(acts)[i], Front(stores)[i + 1], digest) {
      assert Next(stores[i], acts[i], stores[i + 1], digest);
    }
    assert Next(stores[|acts| - 1], acts[|acts| - 1], stores[|acts|], digest);
  }

  /** In every reachable state every export is sound. */
  lemma {:induction false} RunIsSound(stores: seq<Store>, acts: seq<Act>, digest: Bytes -> string)
    requires IsRun(stores, acts, digest) && stores[0] == EMPTY
    ensures Sound(Last(stores), AllBroken(stores, acts), digest)
    decreases |acts|
  {
    if acts != [] {
      FrontIsRun(stores, acts, digest);
      RunIsSound(Front(stores), Front(acts), digest);
      NextKeepsSound(Last(Front(stores)), Last(acts), Last(stores), AllBroken(Front(stores), Front(acts)), digest);
    }
  }

  /**
   In every run a Ready export has its object if and only if no expiry died while it was Ready.  An object that is
   there has the stored digest, and none was ever written twice.
   */
  lemma ReadyHasItsObject(stores: seq<Store>, acts: seq<Act>, digest: Bytes -> string, id: Id)
    requires IsRun(stores, acts, digest) && stores[0] == EMPTY && id in Last(stores).rows
    ensures var s := Last(stores); var job := s.rows[id]; var key := Key(job.owner, id);
            && Uploads(s.uploads, key) <= 1
            && (job.status == Ready ==>
                  && (key in s.objects <==> !InterruptedAtReady(stores, acts, id))
                  && (key in s.objects ==> job.checksum == Some(digest(s.objects[key]))))
  {
    RunIsSound(stores, acts, digest);
    BrokenIsInterrupted(stores, acts, id);
    assert JobSound(Last(stores), id, id in AllBroken(stores, acts), digest);
  }

  lemma PrefixIsRun(stores: seq<Store>, acts: seq<Act>, digest: Bytes -> string, n: nat)
    requires IsRun(stores, acts, digest) && n <= |acts|
    ensures IsRun(stores[..n + 1], acts[..n], digest) && Last(stores[..n + 1]) == stores[n]
  {
    forall i | 0 <= i < n ensures Next(stores[..n + 1][i], acts[..n][i], stores[..n + 1][i + 1], digest) {
      assert Next(stores[i], acts[i], stores[i + 1], digest);
    }
  }

  lemma MissingObjectStaysMissing(a: Store, act: Act, b: Store, broken: set<Id>, digest: Bytes -> string, id: Id)
    requires Sound(a, broken, digest) && Next(a, act, b, digest) && id in a.rows
    requires var key := Key(a.rows[id].owner, id);
             || (act == Expiry(id, true) && a.rows[id].status == Ready)
             || (a.rows[id].status in {Ready, Expired} && key !in a.objects)
    ensures id in b.rows && b.rows[id].owner == a.rows[id].owner
    ensures b.rows[id].status in {Ready, Expired} && Key(a.rows[id].owner, id) !in b.objects
  {
    hide Uploads, UploadOf;
    assert JobSound(a, id, id in broken, digest);
  }

  /** The object such an expiry takes away stays away for the rest of the run: nothing ever uploads it again. */
  lemma {:induction false} InterruptedExpiryLosesObject(stores: seq<Store>, acts: seq<Act>, digest: Bytes -> string,
                                                        id: Id, k: nat, j: nat)
    requires IsRun(stores, acts, digest) && stores[0] == EMPTY && k < j <= |acts|
    requires acts[k] == Expiry(id, true) && id in stores[k].rows && stores[k].rows[id].status == Ready
    ensures id in stores[j].rows && stores[j].rows[id].owner == stores[k].rows[id].owner
    ensures stores[j].rows[id].status in {Ready, Expired} && Key(stores[k].rows[id].owner, id) !in stores[j].objects
    decreases j
  {
    hide JobSound, Next;
    PrefixIsRun(stores, acts, digest, j - 1);
    RunIsSound(stores[..j], acts[..j - 1], digest);
    var a, broken := stores[j - 1], AllBroken(stores[..j], acts[..j - 1]);
    assert Next(a, acts[j - 1], stores[j], digest);
    if j > k + 1 { InterruptedExpiryLosesObject(stores, acts, digest, id, k, j - 1); }
    hide IsRun, AllBroken;
    MissingObjectStaysMissing(a, acts[j - 1], stores[j], broken, digest, id);
  }

  // ----- what the objects hold -----

  /** The attempt that stored the object of this export. */
  ghost predicate Uploader(stores: seq<Store>, acts: seq<Act>, id: Id, k: int)
    requires |stores| == |acts| + 1
  {
    0 <= k < |acts| && acts[k].Attempt? && acts[k].id == id && |stores[k].uploads| < |stores[k + 1].uploads|
  }

  lemma {:induction false} UploadHasItsAttempt(stores: seq<Store>, acts: seq<Act>, digest: Bytes -> string, id: Id)
    requires IsRun(stores, acts, digest) && stores[0] == EMPTY && id in Last(stores).rows
    requires UploadOf(Last(stores).uploads, Key(Last(stores).rows[id].owner, id)).Some?
    ensures exists k :: Uploader(stores, acts, id, k)
    decreases |acts|
  {
    if acts != [] {
      FrontIsRun(stores, acts, digest);
      var n, a, b, act := |acts| - 1, Last(Front(stores)), Last(stores), Last(acts);
      var key := Key(b.rows[id].owner, id);
      UploadsCount(a.uploads, key);
      if b.uploads != a.uploads && Last(b.uploads).key == key {
        assert act.Attempt? && act.id == id;
        assert Uploader(stores, acts, id, n);
      } else {
        if b.uploads != a.uploads { UploadsAppend(a.uploads, Last(b.uploads), key); }
        UploadHasItsAttempt(Front(stores), Front(acts), digest, id);
        var k :| Uploader(Front(stores), Front(acts), id, k);
        assert Uploader(stores, acts, id, k);
      }
    }
  }

  /** Uploads are never forgotten, nor does a row change its owner. */
  lemma {:induction false} UploadsGrow(stores: seq<Store>, acts: seq<Act>, digest: Bytes -> string, i: nat, j: nat, id: Id)
    requires IsRun(stores, acts, digest) && i <= j <= |acts| && id in stores[i].rows
    ensures stores[i].uploads <= stores[j].uploads
    ensures id in stores[j].rows && stores[j].rows[id].owner == stores[i].rows[id].owner
    decreases j - i
  {
    if i < j {
      UploadsGrow(stores, acts, digest, i, j - 1, id);
      assert Next(stores[j - 1], acts[j - 1], stores[j], digest);
    }
  }

  lemma {:induction false} OnlyUpload(uploads: seq<Upload>, key: Key, m: nat)
    requires Uploads(uploads, key) <= 1 && m < |uploads| && uploads[m].key == key
    ensures UploadOf(uploads, key) == Some(uploads[m])
    decreases |uploads|
  {
    if m < |uploads| - 1 {
      assert Front(uploads)[m] == uploads[m];
      if Last(uploads).key == key { UploadsCount(Front(uploads), key); }
      OnlyUpload(Front(uploads), key, m);
    }
  }

  /**
   In every run an object was stored by an attempt at its export, and is what the generator gave that attempt if and
   only if the object store kept what it was sent.  The checksum of a Ready row follows the object; if it is not that
   of the generated bytes, the attempt that stored them did not make the row Ready: a later one adopted them.
   */
  lemma ObjectIsWhatWasKept(stores: seq<Store>, acts: seq<Act>, digest: Bytes -> string, id: Id)
    requires IsRun(stores, acts, digest) && stores[0] == EMPTY && id in Last(stores).rows
    requires Key(Last(stores).rows[id].owner, id) in Last(stores).objects
    ensures exists k :: Uploader(stores, acts, id, k)
    ensures var s := Last(stores); var job := s.rows[id]; var bytes := s.objects[Key(job.owner, id)];
            forall k | Uploader(stores, acts, id, k) :: UploaderExplains(stores, acts, digest, id, k, job, bytes)
  {
    RunIsSound(stores, acts, digest);
    assert JobSound(Last(stores), id, id in AllBroken(stores, acts), digest);
    UploadHasItsAttempt(stores, acts, digest, id);
    var job := Last(stores).rows[id];
    var bytes := Last(stores).objects[Key(job.owner, id)];
    forall k | Uploader(stores, acts, id, k) ensures UploaderExplains(stores, acts, digest, id, k, job, bytes) {
      UploaderStored(stores, acts, digest, id, k);
    }
  }

  /** How the object, and the checksum of a Ready row, relate to what the attempt at `k` generated and sent. */
  ghost predicate UploaderExplains(stores: seq<Store>, acts: seq<Act>, digest: Bytes -> string, id: Id, k: int,
                                   job: ExportJob, bytes: Bytes)
    requires |stores| == |acts| + 1 && Uploader(stores, acts, id, k)
  {
    var work, sent := acts[k].work, Last(stores[k + 1].uploads).sent;
    && work.route.Parsed? && work.route.points <= 500_000
    && (work.route.generate(work.title) == Gpx(sent) || work.route.generate(None) == Gpx(sent))
    && bytes == work.garbled.GetOr(sent)
    && (bytes == sent <==> work.garbled == None || work.garbled == Some(sent))
    && (job.status == Ready ==>
          && (job.checksum == Some(digest(sent)) <==> digest(bytes) == digest(sent))
          && (digest(bytes) != digest(sent) ==> id in stores[k + 1].rows && stores[k + 1].rows[id].status != Ready))
  }

  lemma UploaderStored(stores: seq<Store>, acts: seq<Act>, digest: Bytes -> string, id: Id, k: int)
    requires IsRun(stores, acts, digest) && stores[0] == EMPTY && id in Last(stores).rows
    requires Key(Last(stores).rows[id].owner, id) in Last(stores).objects && Uploader(stores, acts, id, k)
    requires JobSound(Last(stores), id, id in AllBroken(stores, acts), digest)
    ensures UploaderExplains(stores, acts, digest, id, k, Last(stores).rows[id],
                             Last(stores).objects[Key(Last(stores).rows[id].owner, id)])
  {
    hide Next, Uploads, UploadOf, Generation, JobSound, AllBroken;
    var b, s := stores[k + 1], Last(stores);
    assert Next(stores[k], acts[k], b, digest);
    UploadingAttempt(stores[k], acts[k], b, digest);
    UploadsGrow(stores, acts, digest, k + 1, |acts|, id);
    assert s.uploads[|b.uploads| - 1] == Last(b.uploads);
    OnlyUploadIsKept(s, id, |b.uploads| - 1, id in AllBroken(stores, acts), digest);
  }

  lemma StepUploads(a: Store, act: Act, b: Store, digest: Bytes -> string)
    requires Next(a, act, b, digest)
    ensures a.uploads <= b.uploads && |b.uploads| <= |a.uploads| + 1
    ensures a.uploads != b.uploads ==> act.Attempt? && Last(b.uploads).key == Key(act.owner, act.id) && Sends(act.work, Last(b.uploads))
  {
  }

  /** The upload at `m` was made by the attempt at `k`, from a route it could generate. */
  ghost predicate MadeBy(stores: seq<Store>, acts: seq<Act>, m: int, k: int)
    requires |stores| == |acts| + 1
  {
    && 0 <= k < |acts| && acts[k].Attempt? && |stores[k].uploads| == m < |stores[k + 1].uploads|
    && var u, work := stores[k + 1].uploads[m], acts[k].work;
       && u.key == Key(acts[k].owner, acts[k].id) && u.kept == work.garbled.GetOr(u.sent)
       && work.route.Parsed? && work.route.points <= 500_000
       && (work.route.generate(work.title) == Gpx(u.sent) || work.route.generate(None) == Gpx(u.sent))
  }

  /**
   In every run each upload was made by an attempt, from a parsed route within the limit: it is what the generator
   gave that attempt, under the key of its export.
   */
  lemma {:induction false} UploadsAreGenerated(stores: seq<Store>, acts: seq<Act>, digest: Bytes -> string, m: nat)
    requires IsRun(stores, acts, digest) && stores[0] == EMPTY && m < |Last(stores).uploads|
    ensures exists k :: MadeBy(stores, acts, m, k) && stores[k + 1].uploads[m] == Last(stores).uploads[m]
    decreases |acts|
  {
    FrontIsRun(stores, acts, digest);
    var n, a, b := |acts| - 1, Last(Front(stores)), Last(stores);
    StepUploads(a, Last(acts), b, digest);
    hide Next;
    if m < |a.uploads| {
      UploadsAreGenerated(Front(stores), Front(acts), digest, m);
      var k :| MadeBy(Front(stores), Front(acts), m, k) && Front(stores)[k + 1].uploads[m] == a.uploads[m];
      assert MadeBy(stores, acts, m, k) && stores[k + 1].uploads[m] == a.uploads[m];
    } else {
      assert MadeBy(stores, acts, m, n);
    }
  }

  lemma UploadingAttempt(a: Store, act: Act, b: Store, digest: Bytes -> string)
    requires Next(a, act, b, digest) && act.Attempt? && |a.uploads| < |b.uploads|
    ensures var u := Last(b.uploads);
            && act.id in b.rows && u.key == Key(b.rows[act.id].owner, act.id) && Sends(act.work, u)
            && (b.rows[act.id].status == Ready ==> digest(u.sent) == digest(u.kept))
  {
  }

  lemma OnlyUploadIsKept(s: Store, id: Id, m: nat, broken: bool, digest: Bytes -> string)
    requires id in s.rows && JobSound(s, id, broken, digest) && Key(s.rows[id].owner, id) in s.objects
    requires m < |s.uploads| && s.uploads[m].key == Key(s.rows[id].owner, id)
    ensures s.objects[Key(s.rows[id].owner, id)] == s.uploads[m].kept
    ensures s.rows[id].status == Ready ==> s.rows[id].checksum == Some(digest(s.uploads[m].kept))
  {
    OnlyUpload(s.uploads, Key(s.rows[id].owner, id), m);
  }

  /**
   It does happen: the object store keeps other bytes, the process dies before it has read them back, and the next
   delivery finds an object and completes the row with its digest.
   */
  lemma GarbledUploadIsAdopted(id: Id, owner: Id, work: Work, retry: Work, garbled: Bytes, digest: Bytes -> string, now: Time)
    requires work.route.Parsed? && work.route.points <= 500_000 && work.route.generate(work.title).Gpx?
    requires work.garbled == Some(garbled) && retry.garbled.None?
    ensures var key, sent := Key(owner, id), work.route.generate(work.title).bytes;
            var s1 := EMPTY.(rows := map[id := NewExport(owner)]);
            var s2 := LeftByUpload(s1, id, key, sent, work.garbled);
            var (s3, r) := FaultFree(s2, id, key, retry.route, retry.title, digest, now);
            && IsRun([EMPTY, s1, s2, s3], [Request(id, owner), Attempt(id, owner, work), Attempt(id, owner, retry)], digest)
            && r == Done && s3.rows[id].status == Ready && s3.objects[key] == garbled
            && (s3.rows[id].checksum == Some(digest(sent)) <==> digest(garbled) == digest(sent))
  {
    var key, sent := Key(owner, id), work.route.generate(work.title).bytes;
    var s1 := EMPTY.(rows := map[id := NewExport(owner)]);
    var s2 := LeftByUpload(s1, id, key, sent, work.garbled);
    var s3 := FaultFree(s2, id, key, retry.route, retry.title, digest, now).0;
    assert Next(EMPTY, Request(id, owner), s1, digest);
    assert Next(s1, Attempt(id, owner, work), s2, digest);
    assert Next(s2, Attempt(id, owner, retry), s3, digest);
  }

  predicate TouchesObject(act: Act, id: Id) {
    act.Expiry? && act.id == id
  }

  lemma EndedExportStays(a: Store, act: Act, b: Store, broken: set<Id>, digest: Bytes -> string, id: Id)
    requires Sound(a, broken, digest) && Next(a, act, b, digest) && id in a.rows && !TouchesObject(act, id)
    ensures id in b.rows && b.rows[id].owner == a.rows[id].owner
    ensures Terminal(a.rows[id].status) ==> b.rows[id] == a.rows[id]
    ensures var key := Key(a.rows[id].owner, id); key in a.objects ==> key in b.objects && b.objects[key] == a.objects[key]
  {
    hide Uploads, UploadOf;
    if act.Expiry? && act.id in a.rows { assert JobSound(a, act.id, act.id in broken, digest); }
  }

  /** Rows that reached an end, and objects, are never changed by anything but expiry. */
  lemma {:induction false} EndedExportsStay(stores: seq<Store>, acts: seq<Act>, digest: Bytes -> string, id: Id,
                                            i: nat, j: nat)
    requires IsRun(stores, acts, digest) && stores[0] == EMPTY && i <= j <= |acts|
    requires forall k | i <= k < j :: !TouchesObject(acts[k], id)
    requires id in stores[i].rows
    ensures id in stores[j].rows && stores[j].rows[id].owner == stores[i].rows[id].owner
    ensures stores[i].rows[id].status in {Ready, Failed, Expired} ==> stores[j].rows[id] == stores[i].rows[id]
    ensures var key := Key(stores[i].rows[id].owner, id);
            key in stores[i].objects ==> key in stores[j].objects && stores[j].objects[key] == stores[i].objects[key]
    decreases j - i
  {
    if i < j {
      hide Next, Sound;
      EndedExportsStay(stores, acts, digest, id, i, j - 1);
      PrefixIsRun(stores, acts, digest, j - 1);
      RunIsSound(stores[..j], acts[..j - 1], digest);
      assert Next(stores[j - 1], acts[j - 1], stores[j], digest);
      EndedExportStays(stores[j - 1], acts[j - 1], stores[j], AllBroken(stores[..j], acts[..j - 1]), digest, id);
    }
  }

  /** Wherever an earlier attempt died, one attempt without faults finishes a generatable export. */
  lemma OneGoodAttemptIsEnough(s: Store, id: Id, route: Route, title: Option<string>, digest: Bytes -> string,
                               now: Time)
    requires id in s.rows && s.rows[id].status in {Queued, Generating}
    requires route.Parsed? && route.points <= 500_000 && route.generate(title).Gpx?
    ensures var key := Key(s.rows[id].owner, id);
            var (t, r) := FaultFree(s, id, key, route, title, digest, now);
            && r == Done && t.rows[id].status == Ready && key in t.objects
            && t.rows[id].checksum == Some(digest(t.objects[key])) && t.rows[id].expiresAt == Some(now + 86_400_000_000)
            && t.objects[key] == (if key in s.objects then s.objects[key] else route.generate(title).bytes)
            && Evolves(s, t, id, key, Work(route, title, None), digest)
  {
  }

  /** Without faults an export fails exactly when it was open, had no object, and nothing can be generated. */
  lemma FailsOnlyWithoutBytes(s: Store, id: Id, route: Route, title: Option<string>, digest: Bytes -> string, now: Time)
    requires id in s.rows
    ensures var key := Key(s.rows[id].owner, id);
            var (t, r) := FaultFree(s, id, key, route, title, digest, now);
            t.rows[id].status == Failed <==>
              s.rows[id].status == Failed
              || (s.rows[id].status in {Queued, Generating} && key !in s.objects
                  && !(route.Parsed? && route.points <= 500_000 && route.generate(title).Gpx?))
  {
  }
}
