/** The handlers and the worker task as the sequential code of internal/handler and internal/queue, with the
    failures of their calls as parameters. Each is proved to be a run of its program in `MediaWorld`. */
module Handlers {
  import opened Options
  import opened FolderNames
  import opened ObjectKeys
  import opened MediaWorld

  // ---------------------------------------------------------------------------
  // Runs of one program
  // ---------------------------------------------------------------------------

  datatype Point = Point(w: World, pc: Pc)

  ghost predicate IsPath(path: seq<Point>) {
    && path != []
    && forall i :: 0 <= i < |path| - 1 ==> ProgramStep(path[i].w, path[i].pc, path[i + 1].w, path[i + 1].pc)
  }

  /** The program gets from one point to the other by its own steps. */
  ghost predicate Reaches(w: World, pc: Pc, w': World, pc': Pc) {
    exists path :: IsPath(path) && path[0] == Point(w, pc) && path[|path| - 1] == Point(w', pc')
  }

  lemma Stay(w: World, pc: Pc)
    ensures Reaches(w, pc, w, pc)
  {
    assert IsPath([Point(w, pc)]);
  }

  lemma Then(w: World, pc: Pc, w1: World, pc1: Pc, w2: World, pc2: Pc)
    requires Reaches(w, pc, w1, pc1) && ProgramStep(w1, pc1, w2, pc2)
    ensures Reaches(w, pc, w2, pc2)
  {
    hide ProgramStep;
    var path :| IsPath(path) && path[0] == Point(w, pc) && path[|path| - 1] == Point(w1, pc1);
    var longer := path + [Point(w2, pc2)];
    forall i | 0 <= i < |longer| - 1
      ensures ProgramStep(longer[i].w, longer[i].pc, longer[i + 1].w, longer[i + 1].pc)
    {
      assert i < |path| - 1 ==> longer[i] == path[i] && longer[i + 1] == path[i + 1];
    }
    assert IsPath(longer);
  }

  lemma Chain(w: World, pc: Pc, w1: World, pc1: Pc, w2: World, pc2: Pc)
    requires Reaches(w, pc, w1, pc1) && Reaches(w1, pc1, w2, pc2)
    ensures Reaches(w, pc, w2, pc2)
  {
    hide ProgramStep;
    var a: seq<Point> :| IsPath(a) && a[0] == Point(w, pc) && a[|a| - 1] == Point(w1, pc1);
    var b: seq<Point> :| IsPath(b) && b[0] == Point(w1, pc1) && b[|b| - 1] == Point(w2, pc2);
    var path: seq<Point> := a + b[1..];
    forall i | 0 <= i < |path| - 1
      ensures ProgramStep(path[i].w, path[i].pc, path[i + 1].w, path[i + 1].pc)
    {
      if i < |a| - 1 {
        assert path[i] == a[i] && path[i + 1] == a[i + 1];
      } else {
        var j := i - (|a| - 1);
        assert path[i] == b[j] && path[i + 1] == b[j + 1];
      }
    }
    assert IsPath(path);
    assert path[|path| - 1] == if |b| > 1 then b[|b| - 1] else a[|a| - 1];
  }

  // ---------------------------------------------------------------------------
  // Failures
  // ---------------------------------------------------------------------------

  /** What happens to one variant: the image cannot be processed, the upload fails, or it is stored. */
  datatype Fate = ProcessFails | StoreFails | Stores(blob: Blob)

  /** Which of the calls after the variants fail. */
  datatype Saves = Saves(clearFails: bool, saveFails: bool, thumbnailFails: bool)

  datatype DeleteFaults = DeleteFaults(lookup: bool, variants: bool, row: bool)

  /** `queueUp`: a queue client is configured. */
  datatype UploadFaults = UploadFaults(put: bool, insert: bool, queueUp: bool, enqueue: bool)

  datatype CropFaults = CropFaults(
    check: bool, read: bool, crop: bool, put: bool, find: bool, update: bool, queueUp: bool, enqueue: bool)

  /** The listing of a prefix breaks off after `listed` keys; the removal of the keys in `stuck` fails. */
  datatype Removals = Removals(listed: nat, stuck: set<string>)

  function Survives(bucket: map<string, Blob>, gone: set<string>): map<string, Blob> {
    map k | k in bucket && k !in gone :: bucket[k]
  }

  /** The bucket after the storage half of a delete. */
  function Purged(bucket: map<string, Blob>, target: string, listing: seq<string>, r: Removals): map<string, Blob>
    requires r.listed <= |listing|
  {
    Survives(bucket, (if FolderOf(target) != "" then SetOf(listing[..r.listed]) else {target}) - r.stuck)
  }

  function SetOf(keys: seq<string>): set<string> {
    set i | 0 <= i < |keys| :: keys[i]
  }

  /** Indices of the stored variants, in the order of the defaults. */
  function MadeOf(fates: seq<Fate>): (made: seq<nat>)
    ensures forall i :: 0 <= i < |made| ==> made[i] < |fates|
    ensures forall i, j :: 0 <= i < j < |made| ==> made[i] < made[j]
    ensures forall k: nat :: k in made <==> k < |fates| && fates[k].Stores?
  {
    if fates == [] then []
    else
      var last := |fates| - 1;
      if fates[last].Stores? then MadeOf(fates[..last]) + [last] else MadeOf(fates[..last])
  }

  function PutMade(bucket: map<string, Blob>, folder: string, fates: seq<Fate>): map<string, Blob>
    requires |fates| <= |VARIANTS|
  {
    if fates == [] then bucket
    else
      var last := |fates| - 1;
      var before := PutMade(bucket, folder, fates[..last]);
      if fates[last].Stores? then before[VariantKey(folder, last) := fates[last].blob] else before
  }

  /** The same rows, with the same keys and organisations. */
  ghost predicate SameRows(before: map<string, File>, after: map<string, File>) {
    && before.Keys == after.Keys
    && forall id :: id in before ==> after[id].key == before[id].key && after[id].org == before[id].org
  }

  class MediaService {
    var files: map<string, File>
    var variants: seq<Variant>
    var bucket: map<string, Blob>
    var queue: set<Task>
    ghost var used: map<string, nat>
    ghost var origins: map<string, Origin>
    ghost var issued: set<string>
    const urlBase: string

    ghost function Now(): World
      reads this
    {
      World(files, variants, bucket, queue, used, origins, issued, urlBase)
    }

    // -------------------------------------------------------------------------
    // Storage
    // -------------------------------------------------------------------------

    /** S3Client.DeletePrefix on the keys that the bucket lists; with the folder of a key as the prefix it is a part
        of the delete of that key. */
    method DeletePrefix(prefix: string, listing: seq<string>, r: Removals, ghost key: string) returns (ok: bool)
      requires forall k :: k in listing <==> k in bucket && prefix <= k
      requires r.listed <= |listing|
      modifies this`bucket
      ensures ok <==> r.listed == |listing|
      ensures bucket == Survives(old(bucket), SetOf(listing[..r.listed]) - r.stuck)
      ensures ok && r.stuck == {} ==> forall k :: k in bucket <==> k in old(bucket) && !(prefix <= k)
      ensures FolderOf(key) != "" && prefix == FolderOf(key) + "/" ==>
                Reaches(old(Now()), Purge(key), Now(), Purge(key))
    {
      hide ProgramStep, Reaches, Doomed;
      Stay(Now(), Purge(key));
      ghost var gone: set<string> := {};
      for i := 0 to r.listed
        invariant gone == SetOf(listing[..i]) - r.stuck && bucket == Survives(old(bucket), gone)
        invariant FolderOf(key) != "" && prefix == FolderOf(key) + "/" ==>
                    Reaches(old(Now()), Purge(key), Now(), Purge(key))
        invariant Now() == old(Now()).(bucket := bucket)
      {
        var k := listing[i];
        SetOfSnoc(listing, i);
        if k !in r.stuck {
          ghost var before := Now();
          bucket := bucket - {k};
          gone := gone + {k};
          assert k in listing;
          if FolderOf(key) != "" && prefix == FolderOf(key) + "/" {
            PurgeOne(before, key, k);
            Then(old(Now()), Purge(key), before, Purge(key), Now(), Purge(key));
          }
        }
      }
      ok := r.listed == |listing|;
      WholeListing(listing);
    }

    // -------------------------------------------------------------------------
    // Variants
    // -------------------------------------------------------------------------

    /** ProcessVariants, and with `job.video` processVideoThumbnail: whatever fails, the result lists the stored
        variants in the order of the defaults, and nothing else in the bucket is written. */
    method ProcessVariants(folder: string, fates: seq<Fate>, ghost job: Job) returns (made: seq<nat>)
      requires |fates| == job.Count() && job.folder == folder
      modifies this`bucket
      ensures made == MadeOf(fates) && bucket == PutMade(old(bucket), folder, fates)
      ensures Reaches(old(Now()), Making(job, 0, []), Now(), Making(job, |fates|, made))
    {
      hide ProgramStep, Reaches;
      made := [];
      Stay(Now(), Making(job, 0, []));
      for i := 0 to |fates|
        invariant made == MadeOf(fates[..i]) && bucket == PutMade(old(bucket), folder, fates[..i])
        invariant Now() == old(Now()).(bucket := bucket)
        invariant Reaches(old(Now()), Making(job, 0, []), Now(), Making(job, i, made))
      {
        ghost var before, made' := Now(), made;
        assert fates[..i + 1][..i] == fates[..i];
        if fates[i].Stores? {
          bucket := bucket[VariantKey(folder, i) := fates[i].blob];
          made := made + [i];
        }
        MakingStep(before, Now(), job, i, made', fates[i]);
        Then(old(Now()), Making(job, 0, []), before, Making(job, i, made'), Now(), Making(job, i + 1, made));
      }
      assert fates[..|fates|] == fates;
    }

    /** The rows and the thumbnail URL that follow the variants; see `Persisted`. */
    method Persist(job: Job, made: seq<nat>, saves: Saves)
      requires forall i :: 0 <= i < |made| ==> made[i] < |VARIANTS|
      modifies this`variants, this`files
      ensures Now() == Persisted(old(Now()), job, made, saves)
      ensures Reaches(old(Now()), AfterMaking(job, made), Now(), Done)
    {
      hide ProgramStep, Reaches, VariantRows, Without;
      ghost var w, start := Now(), AfterMaking(job, made);
      Stay(w, start);
      if |made| == 0 || job.media.None? {
        return;
      }
      ghost var w1 := Now();
      if job.replace {
        if !saves.clearFails {
          variants := Without(variants, job.media.value);
        }
        ClearingStep(w1, Now(), job, made);
        Then(w, start, w1, Clearing(job, made), Now(), Saving(job, made));
      }
      ghost var w2 := Now();
      if !saves.saveFails {
        variants := variants + VariantRows(job.media.value, job.folder, made);
      }
      ghost var next := if 0 in made then Thumbnailing(job) else Done;
      SavingStep(w2, Now(), job, made);
      Then(w, start, w2, Saving(job, made), Now(), next);
      ghost var w3 := Now();
      SaveThumbnail(job, made, saves.thumbnailFails);
      if 0 in made {
        ThumbnailStep(w3, Now(), job, saves.thumbnailFails);
        Then(w, start, w3, Thumbnailing(job), Now(), Done);
      }
    }

    /** The search for the thumbnail among the stored variants, and the update of the row with its URL. */
    method SaveThumbnail(job: Job, made: seq<nat>, fails: bool)
      requires job.media.Some? && forall i :: 0 <= i < |made| ==> made[i] < |VARIANTS|
      modifies this`files
      ensures Now() == if 0 !in made || fails then old(Now())
                       else SetThumbnail(old(Now()), job.media.value, job.org, Url(old(Now()), VariantKey(job.folder, 0)))
    {
      for i := 0 to |made|
        invariant Now() == old(Now()) && 0 !in made[..i]
      {
        if VARIANTS[made[i]] == "thumbnail" {
          assert made[i] == 0;
          var id, url := job.media.value, PublicURL(urlBase, VariantKey(job.folder, made[i]));
          if !fails && id in files && (job.org.None? || files[id].org == job.org.value) {
            files := files[id := files[id].(thumbnail := Some(url))];
          }
          return;
        }
      }
      assert made[..|made|] == made;
    }

    // -------------------------------------------------------------------------
    // The worker
    // -------------------------------------------------------------------------

    /** ProcessTask: an error (the task is retried) exactly when the original cannot be read. */
    method ProcessTask(task: Task, readFails: bool, fates: seq<Fate>, saves: Saves) returns (ok: bool)
      requires |fates| == Job(Some(task.media), None, task.folder, false, task.mime.Video?).Count()
      modifies this`bucket, this`variants, this`files
      ensures ok <==> !readFails && task.key in old(bucket)
      ensures !ok ==> Now() == old(Now())
      ensures ok ==> bucket == PutMade(old(bucket), task.folder, fates)
      ensures ok ==>
                var job := Job(Some(task.media), None, task.folder, false, task.mime.Video?);
                Now() == Persisted(old(Now()).(bucket := bucket), job, MadeOf(fates), saves)
      ensures files == if ok && ThumbnailSaved(fates, saves) && task.media in old(files)
                       then old(files)[task.media := old(files[task.media]).(
                                         thumbnail := Some(ThumbnailURL(urlBase, task.folder)))]
                       else old(files)
      ensures Reaches(old(Now()), WorkerRead(task), Now(), Done)
    {
      hide ProgramStep, Reaches;
      var job := Job(Some(task.media), None, task.folder, false, task.mime.Video?);
      ghost var w := Now();
      Stay(w, WorkerRead(task));
      WorkerSteps(w, task);
      if readFails || task.key !in bucket {
        Then(w, WorkerRead(task), w, WorkerRead(task), w, Done);
        return false;
      }
      Then(w, WorkerRead(task), w, WorkerRead(task), w, Making(job, 0, []));
      var made := ProcessVariants(task.folder, fates, job);
      MadeSteps(w, WorkerRead(task), w, Now(), job, made);
      ghost var w1 := Now();
      Persist(job, made, saves);
      MadeFiles(w, job, fates, saves);
      Chain(w, WorkerRead(task), w1, AfterMaking(job, made), Now(), Done);
      return true;
    }

    // -------------------------------------------------------------------------
    // Upload
    // -------------------------------------------------------------------------

    /** The first half of Upload: the original is stored, then its row is inserted. */
    method StoreOriginal(u: UploadRequest, id: string, f: UploadFaults) returns (ok: bool)
      requires id !in issued
      modifies this`bucket, this`files, this`origins, this`issued
      ensures ok <==> !f.put && !f.insert
      ensures Now() == if f.put then old(Now())
                       else if f.insert then PutObject(old(Now()), u.key, u.blob)
                       else Uploaded(old(Now()), u, id)
      ensures if ok then Reaches(old(Now()), PutOriginal(u), Now(), Inserted(u, id))
              else Reaches(old(Now()), PutOriginal(u), Now(), Done)
    {
      hide ProgramStep, Reaches;
      ghost var w, start := Now(), PutOriginal(u);
      Stay(w, start);
      if f.put {
        UploadFailsStep(w, u);
        Then(w, start, w, start, w, Done);
        return false;
      }
      bucket := bucket[u.key := u.blob];
      ghost var w1 := Now();
      PutStep(w, u);
      Then(w, start, w, start, w1, InsertRow(u));
      if f.insert {
        UploadFailsStep(w1, u);
        Then(w, start, w1, InsertRow(u), w1, Done);
        return false;
      }
      files := files[id := File(u.org, u.key, u.blob.mime, u.blob.size, None)];
      origins, issued := origins[FolderOf(u.key) := Origin(id, u.org, u.key)], issued + {id};
      InsertStep(w1, Now(), u, id);
      Then(w, start, w1, InsertRow(u), Now(), Inserted(u, id));
      return true;
    }

    /** The second half of Upload: the variants, now or later. */
    method UploadVariants(u: UploadRequest, id: string, f: UploadFaults, fates: seq<Fate>, saves: Saves)
      returns (later: bool)
      requires |fates| == if u.blob.mime.Video? then 1 else |VARIANTS|
      modifies this`bucket, this`files, this`variants, this`queue
      ensures later <==> u.variants && u.async && f.queueUp && !f.enqueue && (u.blob.mime.Raster? || u.blob.mime.Svg?)
      ensures later ==> Now() == Enqueue(old(Now()), Task(id, u.folder, u.key, u.blob.mime))
      ensures !later ==> Now() == if u.variants && !u.blob.mime.Other? then Made(old(Now()), UploadJob(u, id), fates, saves)
                                  else old(Now())
      ensures old(bucket.Keys) <= bucket.Keys && SameRows(old(files), files)
      ensures Reaches(old(Now()), Inserted(u, id), Now(), Done)
    {
      hide ProgramStep, Reaches;
      ghost var w, start := Now(), Inserted(u, id);
      Stay(w, start);
      if u.variants && (u.blob.mime.Raster? || u.blob.mime.Svg?) {
        if u.async && f.queueUp && !f.enqueue {
          queue := queue + {Task(id, u.folder, u.key, u.blob.mime)};
          EnqueueStep(w, u, id);
          Then(w, start, w, start, Now(), Done);
          return true;
        }
      }
      if u.variants && !u.blob.mime.Other? {
        var job := UploadJob(u, id);
        MakeStep(w, u, id);
        Then(w, start, w, start, w, Making(job, 0, []));
        MakeAndPersist(job, fates, saves, w, start);
      } else {
        NoVariantsStep(w, u, id);
        Then(w, start, w, start, w, Done);
      }
      return false;
    }

    /** The variants and what is saved about them. */
    method MakeAndPersist(job: Job, fates: seq<Fate>, saves: Saves, ghost w: World, ghost start: Pc)
      requires |fates| == job.Count() && Reaches(w, start, Now(), Making(job, 0, []))
      modifies this`bucket, this`files, this`variants
      ensures Now() == Made(old(Now()), job, fates, saves)
      ensures old(bucket.Keys) <= bucket.Keys && SameRows(old(files), files)
      ensures Reaches(w, start, Now(), Done)
    {
      hide ProgramStep, Reaches, Persisted, SameRows, PutMade, MadeOf;
      ghost var w1 := Now();
      var made := ProcessVariants(job.folder, fates, job);
      ghost var w2 := Now();
      MadeSteps(w, start, w1, w2, job, made);
      Persist(job, made, saves);
      Chain(w, start, w2, AfterMaking(job, made), Now(), Done);
      PutMadeKeeps(w1.bucket, job.folder, fates);
      PersistedRows(w2, job, made, saves);
    }

    /** POST /api/v1/media/upload, from the key on. The identifier is a new one; `u` is the upload as the program
        sees it. */
    method Upload(slug: string, filename: string, millis: int, fallback: string, blob: Blob, org: string,
                  generate: bool, async: bool, id: string, f: UploadFaults, fates: seq<Fate>, saves: Saves)
      returns (status: int, u: UploadRequest)
      requires id !in issued && |fates| == if blob.mime.Video? then 1 else |VARIANTS|
      modifies this
      ensures u == UploadRequest(
                     org, FolderOf(u.key), OriginalKey(slug, filename, millis, fallback), blob, generate, async)
      ensures status == 500 <==> f.put || f.insert
      ensures status == 202 <==> !f.put && !f.insert && generate && async && f.queueUp && !f.enqueue &&
                                 (blob.mime.Raster? || blob.mime.Svg?)
      ensures status in {200, 202, 500}
      ensures f.put ==> Now() == old(Now())
      ensures !f.put && f.insert ==> Now() == PutObject(old(Now()), u.key, blob)
      ensures status != 500 ==> Now() == AfterUpload(old(Now()), u, id, fates, saves, status == 202)
      ensures status == 500 ==> files == old(files)
      ensures status != 500 ==>
                files == old(files)[id := File(org, u.key, blob.mime, blob.size,
                                               if status == 200 && generate && !blob.mime.Other? && ThumbnailSaved(fates, saves)
                                               then Some(ThumbnailURL(urlBase, u.folder)) else None)]
      ensures !f.put ==> u.key in bucket && (NoSlash(fallback) ==> bucket[u.key] == blob)
      ensures queue == if status == 202 then old(queue) + {Task(id, u.folder, u.key, blob.mime)} else old(queue)
      ensures Reaches(old(Now()), PutOriginal(u), Now(), Done)
    {
      hide ProgramStep, Reaches, Made, OriginalKey, ThumbnailURL, ThumbnailSaved;
      ghost var w := Now();
      var objectKey := OriginalKey(slug, filename, millis, fallback);
      u := UploadRequest(org, ExtractFolderPath(objectKey), objectKey, blob, generate, async);
      var ok := StoreOriginal(u, id, f);
      if !ok {
        return 500, u;
      }
      ghost var w1 := Now();
      var later := UploadVariants(u, id, f, fates, saves);
      Chain(w, PutOriginal(u), w1, Inserted(u, id), Now(), Done);
      UploadOutcome(w, Now(), u, id, fates, saves, later);
      if NoSlash(fallback) {
        OriginalOutcome(w, u, id, fates, saves, later, slug, filename, millis, fallback);
      }
      return if later then 202 else 200, u;
    }

    // -------------------------------------------------------------------------
    // Crop
    // -------------------------------------------------------------------------

    /** Crop up to the replaced original; 0 stands for going on. */
    method ReplaceOriginal(c: CropRequest, blob: Blob, f: CropFaults) returns (status: int)
      modifies this`bucket
      ensures status in {0, 400, 404, 500}
      ensures status != 0 ==> bucket == old(bucket) && Reaches(old(Now()), CropCheck(c), Now(), Done)
      ensures status == 400 ==> !f.check && SomeRow(old(Now()), c, false)
      ensures !f.check && SomeRow(old(Now()), c, false) && !SomeRow(old(Now()), c, true) ==> status == 400
      ensures status != 400 ==>
                status == if f.read || c.key !in old(bucket) then 404 else if f.crop || f.put then 500 else 0
      ensures status == 0 ==> bucket == old(bucket)[c.key := blob]
      ensures status == 0 ==> Reaches(old(Now()), CropCheck(c), Now(), CropFind(c, blob))
    {
      hide ProgramStep, Reaches;
      ghost var w, start := Now(), CropCheck(c);
      Stay(w, start);
      if !f.check {
        var record := FindByKey(c.key, c.org);
        assert Now() == w;
        if record.Some? && (files[record.value].mime.Svg? || files[record.value].mime.Video?) {
          RejectStep(w, c, record.value);
          Then(w, start, w, start, w, Done);
          return 400;
        }
        assert SomeRow(w, c, true) || !SomeRow(w, c, false);
      }
      CropSteps(w, c, blob);
      Then(w, start, w, start, w, CropRead(c));
      if f.read || c.key !in bucket {
        Then(w, start, w, CropRead(c), w, Done);
        return 404;
      }
      if f.crop {
        Then(w, start, w, CropRead(c), w, Done);
        return 500;
      }
      Then(w, start, w, CropRead(c), w, CropPut(c, blob));
      if f.put {
        Then(w, start, w, CropPut(c, blob), w, Done);
        return 500;
      }
      bucket := bucket[c.key := blob];
      CropPutStep(w, c, blob);
      Then(w, start, w, CropPut(c, blob), Now(), CropFind(c, blob));
      return 0;
    }

    /** The row of the cropped file, if it is found, gets the new size and type. */
    method UpdateCropped(c: CropRequest, blob: Blob, f: CropFaults) returns (record: Option<string>)
      modifies this`files
      ensures record.Some? ==> HasRow(old(Now()), record.value, c.key, c.org)
      ensures record.None? <==> f.find || forall id :: !HasRow(old(Now()), id, c.key, c.org)
      ensures Now() == if record.None? || f.update then old(Now()) else SetContent(old(Now()), record.value, c.org, blob)
      ensures Reaches(old(Now()), CropFind(c, blob), Now(), CropRegenerate(c, blob, record))
    {
      hide ProgramStep, Reaches;
      ghost var w, start := Now(), CropFind(c, blob);
      Stay(w, start);
      record := None;
      if !f.find {
        record := FindByKey(c.key, c.org);
        assert Now() == w;
      }
      CropFindStep(w, c, blob, record);
      if record.Some? {
        Then(w, start, w, start, w, CropUpdate(c, blob, record.value));
        if !f.update {
          files := files[record.value := files[record.value].(mime := blob.mime, size := blob.size)];
        }
        CropUpdateStep(w, Now(), c, blob, record.value);
        Then(w, start, w, CropUpdate(c, blob, record.value), Now(), CropRegenerate(c, blob, record));
      } else {
        Then(w, start, w, start, w, CropRegenerate(c, blob, record));
      }
    }

    /** The variants of the cropped file, now or later. */
    method Regenerate(c: CropRequest, blob: Blob, record: Option<string>, fresh': string, f: CropFaults,
                      fates: seq<Fate>, saves: Saves) returns (later: bool)
      requires fresh' !in issued && |fates| == |VARIANTS|
      modifies this`bucket, this`files, this`variants, this`queue, this`issued
      ensures later <==> c.regenerate && c.async && f.queueUp && !f.enqueue
      ensures later ==> Now() == RegeneratedLater(old(Now()), c, blob, record, fresh')
      ensures !later ==> Now() == if c.regenerate then Made(old(Now()), CropJob(c, record), fates, saves) else old(Now())
      ensures old(bucket.Keys) <= bucket.Keys && SameRows(old(files), files)
      ensures Reaches(old(Now()), CropRegenerate(c, blob, record), Now(), Done)
    {
      hide ProgramStep, Reaches;
      ghost var w, start := Now(), CropRegenerate(c, blob, record);
      Stay(w, start);
      if !c.regenerate {
        NoRegenerateStep(w, c, blob, record);
        Then(w, start, w, start, w, Done);
        return false;
      }
      var folderPath := ExtractFolderPath(c.key);
      if c.async && f.queueUp && !f.enqueue {
        var media := if record.Some? then record.value else fresh';
        if record.None? {
          issued := issued + {fresh'};
        }
        queue := queue + {Task(media, folderPath, c.key, blob.mime)};
        RegenerateLaterStep(w, Now(), c, blob, record, media);
        Then(w, start, w, start, Now(), Done);
        return true;
      }
      var job := CropJob(c, record);
      RegenerateNowStep(w, c, blob, record);
      Then(w, start, w, start, w, Making(job, 0, []));
      MakeAndPersist(job, fates, saves, w, start);
      return false;
    }

    /** POST /api/v1/media/crop with a valid body; `blob` is the cropped image. */
    method Crop(c: CropRequest, blob: Blob, fresh': string, f: CropFaults, fates: seq<Fate>, saves: Saves)
      returns (status: int, record: Option<string>)
      requires fresh' !in issued && |fates| == |VARIANTS|
      modifies this
      ensures status in {200, 202, 400, 404, 500}
      ensures status == 400 ==> !f.check && SomeRow(old(Now()), c, false)
      ensures !f.check && SomeRow(old(Now()), c, false) && !SomeRow(old(Now()), c, true) ==> status == 400
      ensures status == 404 ==> f.read || c.key !in old(bucket)
      ensures status == 500 ==> (f.crop || f.put) && !f.read && c.key in old(bucket)
      ensures status in {400, 404, 500} ==> Now() == old(Now())
      ensures status in {200, 202} ==>
                && !f.read && !f.crop && !f.put && c.key in old(bucket)
                && (status == 202 <==> c.regenerate && c.async && f.queueUp && !f.enqueue)
                && (record.Some? ==> HasRow(old(Now()), record.value, c.key, c.org))
                && (record.None? <==> f.find || forall id :: !HasRow(old(Now()), id, c.key, c.org))
      ensures status in {200, 202} ==>
                Now() == AfterCrop(old(Now()), c, blob, record, fresh', f, fates, saves, status == 202)
      ensures status in {200, 202} ==>
                files == if record.None? then old(files) else old(files)[record.value := CroppedRow(
                  old(files[record.value]), blob, f.update,
                  if status == 200 && c.regenerate && ThumbnailSaved(fates, saves)
                  then Some(ThumbnailURL(urlBase, FolderOf(c.key))) else None)]
      ensures status in {200, 202} && !(status == 200 && c.regenerate) ==> bucket == old(bucket)[c.key := blob]
      ensures queue == if status != 202 then old(queue)
                       else old(queue) + {Task(if record.Some? then record.value else fresh', FolderOf(c.key), c.key,
                                               blob.mime)}
      ensures old(bucket.Keys) <= bucket.Keys && SameRows(old(files), files)
      ensures Reaches(old(Now()), CropCheck(c), Now(), Done)
    {
      hide ProgramStep, Reaches, Made, RegeneratedLater, ExtractFolderPath, ThumbnailURL, ThumbnailSaved, CroppedRow,
        SameRows;
      ghost var w := Now();
      record := None;
      status := ReplaceOriginal(c, blob, f);
      if status != 0 {
        AllSame(files);
        return;
      }
      ghost var w1 := Now();
      record := UpdateCropped(c, blob, f);
      assert forall id :: HasRow(w1, id, c.key, c.org) == HasRow(w, id, c.key, c.org);
      ghost var w2 := Now();
      Chain(w, CropCheck(c), w1, CropFind(c, blob), w2, CropRegenerate(c, blob, record));
      var later := Regenerate(c, blob, record, fresh', f, fates, saves);
      Chain(w, CropCheck(c), w2, CropRegenerate(c, blob, record), Now(), Done);
      status := if later then 202 else 200;
      CropOutcome(w, Now(), c, blob, record, fresh', f, fates, saves, later);
    }

    // -------------------------------------------------------------------------
    // Delete
    // -------------------------------------------------------------------------

    /** GetByObjectKey: some row with the key and the organisation, if there is one. */
    method FindByKey(key: string, org: string) returns (found: Option<string>)
      ensures found.Some? ==> HasRow(Now(), found.value, key, org)
      ensures found.None? ==> forall id :: !HasRow(Now(), id, key, org)
    {
      if id :| id in files && files[id].key == key && files[id].org == org {
        return Some(id);
      }
      return None;
    }

    /** The database half of Delete. `row` is the row that was found; `target` the key whose folder goes. */
    method DropRecords(id: string, key: string, org: string, f: DeleteFaults)
      returns (status: int, row: Option<string>, target: string)
      modifies this`files, this`variants
      ensures status == 400 <==> id == "" && key == ""
      ensures status == 404 <==> id != "" && (f.lookup || id !in old(files) || old(files[id]).org != org)
      ensures status in {200, 400, 404} && (status != 200 ==> Now() == old(Now()))
      ensures row.Some? ==> HasRow(old(Now()), row.value, target, org)
      ensures status == 200 ==> Now() == RowsDropped(old(Now()), row, org, f)
      ensures status == 200 && id != "" ==> row == Some(id)
      ensures status == 200 && id == "" ==>
                target == key && (row.None? <==> f.lookup || forall i :: !HasRow(old(Now()), i, key, org))
      ensures status == 404 ==> Reaches(old(Now()), DeleteById(id, org), Now(), Done)
      ensures status == 200 && !f.row && !(id == "" && f.lookup) ==>
                Reaches(old(Now()), if id != "" then DeleteById(id, org) else DeleteByKey(key, org), Now(), Purge(target))
    {
      hide ProgramStep, Reaches;
      ghost var w, start := Now(), if id != "" then DeleteById(id, org) else DeleteByKey(key, org);
      row, target := None, "";
      Stay(w, start);
      if id != "" {
        if f.lookup || id !in files || files[id].org != org {
          NotFoundStep(w, id, org);
          Then(w, start, w, start, w, Done);
          return 404, None, "";
        }
        row, target := Some(id), files[id].key;
        FoundStep(w, id, org);
      } else if key != "" {
        target := key;
        if f.lookup {
          return 200, None, target;
        }
        row := FindByKey(key, org);
        assert Now() == w;
        LookupStep(w, key, org, row);
      } else {
        return 400, None, "";
      }

      if row.None? {
        Then(w, start, w, start, w, Purge(target));
        return 200, row, target;
      }
      Then(w, start, w, start, w, DropVariants(row.value, org, target));
      if !f.variants {
        variants := Without(variants, row.value);
      }
      ghost var w1 := Now();
      DropVariantsStep(w, w1, row.value, org, target);
      Then(w, start, w, DropVariants(row.value, org, target), w1, DropRow(row.value, org, target));
      if !f.row {
        files := files - {row.value};
        DropRowStep(w1, Now(), row.value, org, target);
        Then(w, start, w1, DropRow(row.value, org, target), Now(), Purge(target));
      }
      return 200, row, target;
    }

    /** The storage half of Delete. */
    method RemoveObjects(target: string, listing: seq<string>, r: Removals)
      requires forall k :: k in listing <==> k in bucket && FolderOf(target) + "/" <= k
      requires r.listed <= |listing|
      modifies this`bucket
      ensures r.listed == |listing| && r.stuck == {} ==>
                bucket == map k | k in old(bucket) && !Doomed(target, k) :: old(bucket)[k]
      ensures bucket == Purged(old(bucket), target, listing, r)
      ensures Reaches(old(Now()), Purge(target), Now(), Done)
    {
      hide ProgramStep, Reaches;
      ghost var w := Now();
      Stay(w, Purge(target));
      var folderPath := ExtractFolderPath(target);
      if folderPath != "" {
        var _ := DeletePrefix(folderPath + "/", listing, r, target);
      } else if target !in r.stuck {
        bucket := bucket - {target};
        PurgeSingle(w, target);
        Then(w, Purge(target), w, Purge(target), Now(), Purge(target));
      }
      PurgeDone(Now(), target);
      Then(w, Purge(target), Now(), Purge(target), Now(), Done);
    }

    /** DELETE /api/v1/media: rows first, then the objects. With live statements it is a run of its program. */
    method Delete(id: string, key: string, org: string, f: DeleteFaults, listing: seq<string>, r: Removals)
      returns (status: int, row: Option<string>, target: string)
      requires var t := if id != "" && id in files then files[id].key else key;
               forall k :: k in listing <==> k in bucket && FolderOf(t) + "/" <= k
      requires r.listed <= |listing|
      modifies this`files, this`variants, this`bucket
      ensures status == 400 <==> id == "" && key == ""
      ensures status == 404 <==> id != "" && (f.lookup || id !in old(files) || old(files[id]).org != org)
      ensures status in {200, 400, 404} && (status != 200 ==> Now() == old(Now()))
      ensures row.Some? ==> HasRow(old(Now()), row.value, target, org)
      ensures status == 200 && id != "" ==> row == Some(id)
      ensures status == 200 && id == "" ==>
                target == key && (row.None? <==> f.lookup || forall i :: !HasRow(old(Now()), i, key, org))
      ensures status == 200 ==>
                Now() == RowsDropped(old(Now()), row, org, f).(bucket := Purged(old(bucket), target, listing, r))
      ensures status == 200 ==>
                && files == (if row.Some? && !f.row then old(files) - {row.value} else old(files))
                && (forall v :: v in variants <==>
                      v in old(variants) && !(row.Some? && !f.variants && v.media == row.value))
                && (forall k :: k in bucket <==>
                      k in old(bucket) &&
                      (k in r.stuck || if FolderOf(target) != "" then k !in listing[..r.listed] else k != target))
                && (forall k :: k in bucket ==> bucket[k] == old(bucket)[k])
      ensures status == 200 && r.listed == |listing| && r.stuck == {} ==>
                Now() == Deleted(old(Now()), target, row, org, f)
      ensures status != 400 && !f.row && !(id == "" && f.lookup) ==>
                Reaches(old(Now()), if id != "" then DeleteById(id, org) else DeleteByKey(key, org), Now(), Done)
    {
      hide ProgramStep, Reaches;
      ghost var w := Now();
      status, row, target := DropRecords(id, key, org, f);
      if status != 200 {
        return;
      }
      ghost var w1 := Now();
      RemoveObjects(target, listing, r);
      if !f.row && !(id == "" && f.lookup) {
        Chain(w, if id != "" then DeleteById(id, org) else DeleteByKey(key, org), w1, Purge(target), Now(), Done);
      }
    }
  }

  // ---------------------------------------------------------------------------
  // The single steps
  // ---------------------------------------------------------------------------

  function Persisted(w: World, job: Job, made: seq<nat>, saves: Saves): World
    requires forall i :: 0 <= i < |made| ==> made[i] < |VARIANTS|
  {
    if made == [] || job.media.None? then w
    else
      var id := job.media.value;
      var w1 := if job.replace && !saves.clearFails then DeleteVariants(w, id) else w;
      var w2 := if saves.saveFails then w1 else InsertVariants(w1, VariantRows(id, job.folder, made));
      if 0 in made && !saves.thumbnailFails
      then SetThumbnail(w2, id, job.org, Url(w2, VariantKey(job.folder, 0))) else w2
  }

  /** The world after the variants of a job are made and saved. */
  function Made(w: World, job: Job, fates: seq<Fate>, saves: Saves): World
    requires |fates| <= |VARIANTS|
  {
    Persisted(w.(bucket := PutMade(w.bucket, job.folder, fates)), job, MadeOf(fates), saves)
  }

  /** The world when an upload has stored its object and its row. */
  function Uploaded(w: World, u: UploadRequest, id: string): World {
    InsertFile(PutObject(w, u.key, u.blob), id, File(u.org, u.key, u.blob.mime, u.blob.size, None))
  }

  function UploadJob(u: UploadRequest, id: string): Job {
    Job(Some(id), Some(u.org), u.folder, false, u.blob.mime.Video?)
  }

  /** Some row of the cropped object is, or is not, one of an SVG or a video. */
  ghost predicate SomeRow(w: World, c: CropRequest, croppable: bool) {
    exists id :: HasRow(w, id, c.key, c.org) && (w.files[id].mime.Svg? || w.files[id].mime.Video? <==> !croppable)
  }

  /** The world when a crop has replaced the object and updated the row that it found. */
  function Cropped(w: World, c: CropRequest, blob: Blob, record: Option<string>, f: CropFaults): World {
    var w1 := PutObject(w, c.key, blob);
    if record.None? || f.update then w1 else SetContent(w1, record.value, c.org, blob)
  }

  /** The world after a successful upload. */
  function AfterUpload(w: World, u: UploadRequest, id: string, fates: seq<Fate>, saves: Saves, later: bool): World
    requires |fates| <= |VARIANTS|
  {
    var w1 := Uploaded(w, u, id);
    if later then Enqueue(w1, Task(id, u.folder, u.key, u.blob.mime))
    else if u.variants && !u.blob.mime.Other? then Made(w1, UploadJob(u, id), fates, saves)
    else w1
  }

  lemma UploadOutcome(w: World, w': World, u: UploadRequest, id: string, fates: seq<Fate>, saves: Saves, later: bool)
    requires |fates| <= |VARIANTS| && w' == AfterUpload(w, u, id, fates, saves, later)
    ensures w'.files ==
            w.files[id := File(u.org, u.key, u.blob.mime, u.blob.size,
                               if !later && u.variants && !u.blob.mime.Other? && ThumbnailSaved(fates, saves)
                               then Some(ThumbnailURL(w.urlBase, u.folder)) else None)]
    ensures w'.queue == if later then w.queue + {Task(id, u.folder, u.key, u.blob.mime)} else w.queue
    ensures u.key in w'.bucket
  {
    var w1 := Uploaded(w, u, id);
    MadeFiles(w1, UploadJob(u, id), fates, saves);
    MadeBucket(w1, UploadJob(u, id), fates, saves);
    PutMadeKeeps(w1.bucket, u.folder, fates);
    hide Made, ThumbnailURL, ThumbnailSaved, PutMade;
  }

  /** The original is what was uploaded: no variant overwrites it. */
  lemma OriginalOutcome(w: World, u: UploadRequest, id: string, fates: seq<Fate>, saves: Saves, later: bool,
                        slug: string, filename: string, millis: int, fallback: string)
    requires |fates| <= |VARIANTS| && NoSlash(fallback)
    requires u.key == OriginalKey(slug, filename, millis, fallback) && u.folder == FolderOf(u.key)
    ensures var after := AfterUpload(w, u, id, fates, saves, later).bucket; u.key in after && after[u.key] == u.blob
  {
    OriginalKeyParses(slug, filename, millis, fallback);
    var leaf := "original." + Extension(filename, fallback);
    hide OriginalKey, Extension, Made, PutMade, FolderName, TimestampedName, ExtractFolderPath;
    var w1 := Uploaded(w, u, id);
    MadeBucket(w1, UploadJob(u, id), fates, saves);
    VariantsFrame(w1.bucket, u.folder, fates, u.key, leaf);
  }

  /** The row of a cropped file: new type and size unless the update fails, and the new thumbnail if there is one. */
  function CroppedRow(row: File, blob: Blob, updateFails: bool, thumbnail: Option<string>): File {
    File(row.org, row.key, if updateFails then row.mime else blob.mime, if updateFails then row.size else blob.size,
         if thumbnail.Some? then thumbnail else row.thumbnail)
  }

  lemma CroppedFiles(w: World, c: CropRequest, blob: Blob, record: Option<string>, f: CropFaults)
    requires record.Some? ==> HasRow(w, record.value, c.key, c.org)
    ensures Cropped(w, c, blob, record, f).files ==
            if record.None? then w.files
            else w.files[record.value := CroppedRow(w.files[record.value], blob, f.update, None)]
    ensures Cropped(w, c, blob, record, f).bucket == w.bucket[c.key := blob]
    ensures Cropped(w, c, blob, record, f).queue == w.queue && Cropped(w, c, blob, record, f).urlBase == w.urlBase
  {
  }

  /** The world after a successful crop. */
  function AfterCrop(w: World, c: CropRequest, blob: Blob, record: Option<string>, fresh': string, f: CropFaults,
                     fates: seq<Fate>, saves: Saves, later: bool): World
    requires |fates| <= |VARIANTS|
  {
    var w1 := Cropped(w, c, blob, record, f);
    if later then RegeneratedLater(w1, c, blob, record, fresh')
    else if c.regenerate then Made(w1, CropJob(c, record), fates, saves)
    else w1
  }

  lemma AllSame(files: map<string, File>)
    ensures SameRows(files, files)
  {
  }

  lemma CropOutcome(w: World, w': World, c: CropRequest, blob: Blob, record: Option<string>, fresh': string,
                    f: CropFaults, fates: seq<Fate>, saves: Saves, later: bool)
    requires |fates| <= |VARIANTS| && (record.Some? ==> HasRow(w, record.value, c.key, c.org))
    requires w' == AfterCrop(w, c, blob, record, fresh', f, fates, saves, later)
    ensures w'.files ==
            if record.None? then w.files else w.files[record.value := CroppedRow(
              w.files[record.value], blob, f.update,
              if !later && c.regenerate && ThumbnailSaved(fates, saves)
              then Some(ThumbnailURL(w.urlBase, FolderOf(c.key))) else None)]
    ensures SameRows(w.files, w'.files)
    ensures later || !c.regenerate ==> w'.bucket == w.bucket[c.key := blob]
    ensures w'.queue == if !later then w.queue
                        else w.queue + {Task(if record.Some? then record.value else fresh', FolderOf(c.key), c.key,
                                             blob.mime)}
  {
    var w1 := Cropped(w, c, blob, record, f);
    CroppedFiles(w, c, blob, record, f);
    QueuedLater(w1, c, blob, record, fresh');
    MadeFiles(w1, CropJob(c, record), fates, saves);
    hide Cropped, RegeneratedLater, Made, ThumbnailURL, ThumbnailSaved, SameRows, CroppedRow;
    forall thumbnail {
      OneRowChanged(w.files, record, blob, f.update, thumbnail);
    }
    CroppedTwice(w.files, record, blob, f.update, Some(ThumbnailURL(w.urlBase, FolderOf(c.key))));
  }

  lemma CroppedTwice(files: map<string, File>, record: Option<string>, blob: Blob, updateFails: bool, url: Option<string>)
    requires record.Some? ==> record.value in files
    ensures record.Some? && url.Some? ==>
              CroppedRow(files[record.value], blob, updateFails, None).(thumbnail := url) ==
              CroppedRow(files[record.value], blob, updateFails, url)
    ensures record.Some? ==> CroppedRow(files[record.value], blob, updateFails, None).org == files[record.value].org
  {
  }

  lemma OneRowChanged(files: map<string, File>, record: Option<string>, blob: Blob, updateFails: bool,
                      thumbnail: Option<string>)
    requires record.Some? ==> record.value in files
    ensures SameRows(files, if record.None? then files
                            else files[record.value := CroppedRow(files[record.value], blob, updateFails, thumbnail)])
  {
  }

  lemma QueuedLater(w: World, c: CropRequest, blob: Blob, record: Option<string>, fresh': string)
    ensures var w' := RegeneratedLater(w, c, blob, record, fresh');
            && w'.files == w.files && w'.bucket == w.bucket
            && w'.queue == w.queue + {Task(if record.Some? then record.value else fresh', FolderOf(c.key), c.key, blob.mime)}
  {
  }

  function CropJob(c: CropRequest, record: Option<string>): Job {
    Job(record, Some(c.org), FolderOf(c.key), true, false)
  }

  /** A crop that found no row names its task after a new identifier. */
  function RegeneratedLater(w: World, c: CropRequest, blob: Blob, record: Option<string>, fresh': string): World {
    if record.Some? then Enqueue(w, Task(record.value, FolderOf(c.key), c.key, blob.mime))
    else Enqueue(w.(issued := w.issued + {fresh'}), Task(fresh', FolderOf(c.key), c.key, blob.mime))
  }

  lemma PersistedRows(w: World, job: Job, made: seq<nat>, saves: Saves)
    requires forall i :: 0 <= i < |made| ==> made[i] < |VARIANTS|
    ensures SameRows(w.files, Persisted(w, job, made, saves).files)
    ensures Persisted(w, job, made, saves).bucket == w.bucket
  {
    hide VariantRows, Without, PublicURL;
  }

  function RowsDropped(w: World, row: Option<string>, org: string, f: DeleteFaults): World {
    var w1 := if row.Some? && !f.variants then DeleteVariants(w, row.value) else w;
    if row.Some? && !f.row then DeleteFile(w1, row.value, org) else w1
  }

  /** The world after a delete in which every removal succeeds. */
  function Deleted(w: World, target: string, row: Option<string>, org: string, f: DeleteFaults): World {
    RowsDropped(w, row, org, f).(bucket := map k | k in w.bucket && !Doomed(target, k) :: w.bucket[k])
  }

  lemma MakingStep(w: World, w': World, job: Job, next: nat, made: seq<nat>, fate: Fate)
    requires next < job.Count()
    requires w' == if fate.Stores? then PutObject(w, VariantKey(job.folder, next), fate.blob) else w
    ensures ProgramStep(w, Making(job, next, made), w',
                        Making(job, next + 1, if fate.Stores? then made + [next] else made))
  {
  }

  lemma ClearingStep(w: World, w': World, job: Job, made: seq<nat>)
    requires job.media.Some? && (w' == w || w' == DeleteVariants(w, job.media.value))
    ensures ProgramStep(w, Clearing(job, made), w', Saving(job, made))
  {
  }

  lemma SavingStep(w: World, w': World, job: Job, made: seq<nat>)
    requires job.media.Some? && forall i :: 0 <= i < |made| ==> made[i] < |VARIANTS|
    requires w' == w || w' == InsertVariants(w, VariantRows(job.media.value, job.folder, made))
    ensures ProgramStep(w, Saving(job, made), w', if 0 in made then Thumbnailing(job) else Done)
  {
  }

  lemma ThumbnailStep(w: World, w': World, job: Job, fails: bool)
    requires job.media.Some?
    requires w' == if fails then w else SetThumbnail(w, job.media.value, job.org, Url(w, VariantKey(job.folder, 0)))
    ensures ProgramStep(w, Thumbnailing(job), w', Done)
  {
  }

  lemma WorkerSteps(w: World, task: Task)
    ensures ProgramStep(w, WorkerRead(task), w, Done)
    ensures task.key in w.bucket ==>
              ProgramStep(w, WorkerRead(task), w,
                          Making(Job(Some(task.media), None, task.folder, false, task.mime.Video?), 0, []))
  {
  }

  /** From the start of the variants to what follows them. */
  lemma MadeSteps(w: World, pc: Pc, w1: World, w2: World, job: Job, made: seq<nat>)
    requires Reaches(w, pc, w1, Making(job, 0, [])) && Reaches(w1, Making(job, 0, []), w2, Making(job, job.Count(), made))
    ensures Reaches(w, pc, w2, AfterMaking(job, made))
  {
    Chain(w, pc, w1, Making(job, 0, []), w2, Making(job, job.Count(), made));
    Then(w, pc, w2, Making(job, job.Count(), made), w2, AfterMaking(job, made));
  }

  lemma UploadFailsStep(w: World, u: UploadRequest)
    ensures ProgramStep(w, PutOriginal(u), w, Done) && ProgramStep(w, InsertRow(u), w, Done)
  {
  }

  lemma PutStep(w: World, u: UploadRequest)
    ensures ProgramStep(w, PutOriginal(u), PutObject(w, u.key, u.blob), InsertRow(u))
  {
  }

  lemma InsertStep(w: World, w': World, u: UploadRequest, id: string)
    requires id !in w.issued
    requires w' == InsertFile(w, id, File(u.org, u.key, u.blob.mime, u.blob.size, None))
    ensures ProgramStep(w, InsertRow(u), w', Inserted(u, id))
  {
  }

  lemma EnqueueStep(w: World, u: UploadRequest, id: string)
    requires u.variants && u.async && !u.blob.mime.Other? && !u.blob.mime.Video?
    ensures ProgramStep(w, Inserted(u, id), Enqueue(w, Task(id, u.folder, u.key, u.blob.mime)), Done)
  {
  }

  lemma MakeStep(w: World, u: UploadRequest, id: string)
    requires u.variants && !u.blob.mime.Other?
    ensures ProgramStep(w, Inserted(u, id), w,
                        Making(Job(Some(id), Some(u.org), u.folder, false, u.blob.mime.Video?), 0, []))
  {
  }

  lemma NoVariantsStep(w: World, u: UploadRequest, id: string)
    requires !u.variants || u.blob.mime.Other?
    ensures ProgramStep(w, Inserted(u, id), w, Done)
  {
  }

  lemma RejectStep(w: World, c: CropRequest, id: string)
    requires HasRow(w, id, c.key, c.org) && (w.files[id].mime.Svg? || w.files[id].mime.Video?)
    ensures ProgramStep(w, CropCheck(c), w, Done)
  {
  }

  lemma CropSteps(w: World, c: CropRequest, blob: Blob)
    ensures ProgramStep(w, CropCheck(c), w, CropRead(c)) && ProgramStep(w, CropRead(c), w, Done)
    ensures c.key in w.bucket ==> ProgramStep(w, CropRead(c), w, CropPut(c, blob))
    ensures ProgramStep(w, CropPut(c, blob), w, Done)
  {
  }

  lemma CropPutStep(w: World, c: CropRequest, blob: Blob)
    ensures ProgramStep(w, CropPut(c, blob), PutObject(w, c.key, blob), CropFind(c, blob))
  {
  }

  lemma CropFindStep(w: World, c: CropRequest, blob: Blob, record: Option<string>)
    requires record.Some? ==> HasRow(w, record.value, c.key, c.org)
    ensures ProgramStep(w, CropFind(c, blob), w,
                        if record.Some? then CropUpdate(c, blob, record.value) else CropRegenerate(c, blob, None))
  {
  }

  lemma CropUpdateStep(w: World, w': World, c: CropRequest, blob: Blob, id: string)
    requires w' == w || w' == SetContent(w, id, c.org, blob)
    ensures ProgramStep(w, CropUpdate(c, blob, id), w', CropRegenerate(c, blob, Some(id)))
  {
  }

  lemma NoRegenerateStep(w: World, c: CropRequest, blob: Blob, record: Option<string>)
    requires !c.regenerate
    ensures ProgramStep(w, CropRegenerate(c, blob, record), w, Done)
  {
  }

  lemma RegenerateLaterStep(w: World, w': World, c: CropRequest, blob: Blob, record: Option<string>, media: string)
    requires c.regenerate && c.async && (if record.Some? then media == record.value else media !in w.issued)
    requires w' == Enqueue(if record.Some? then w else w.(issued := w.issued + {media}),
                           Task(media, FolderOf(c.key), c.key, blob.mime))
    ensures ProgramStep(w, CropRegenerate(c, blob, record), w', Done)
  {
  }

  lemma RegenerateNowStep(w: World, c: CropRequest, blob: Blob, record: Option<string>)
    requires c.regenerate
    ensures ProgramStep(w, CropRegenerate(c, blob, record), w,
                        Making(Job(record, Some(c.org), FolderOf(c.key), true, false), 0, []))
  {
  }

  lemma NotFoundStep(w: World, id: string, org: string)
    ensures ProgramStep(w, DeleteById(id, org), w, Done)
  {
  }

  lemma FoundStep(w: World, id: string, org: string)
    requires id in w.files && w.files[id].org == org
    ensures ProgramStep(w, DeleteById(id, org), w, DropVariants(id, org, w.files[id].key))
  {
  }

  lemma LookupStep(w: World, key: string, org: string, row: Option<string>)
    requires if row.Some? then HasRow(w, row.value, key, org) else forall id :: !HasRow(w, id, key, org)
    ensures ProgramStep(w, DeleteByKey(key, org), w,
                        if row.Some? then DropVariants(row.value, org, key) else Purge(key))
  {
  }

  lemma DropVariantsStep(w: World, w': World, id: string, org: string, key: string)
    requires w' == w || w' == DeleteVariants(w, id)
    ensures ProgramStep(w, DropVariants(id, org, key), w', DropRow(id, org, key))
  {
  }

  lemma DropRowStep(w: World, w': World, id: string, org: string, key: string)
    requires w' == DeleteFile(w, id, org)
    ensures ProgramStep(w, DropRow(id, org, key), w', Purge(key))
  {
  }

  lemma PurgeSingle(w: World, key: string)
    requires FolderOf(key) == ""
    ensures ProgramStep(w, Purge(key), RemoveObject(w, key), Purge(key))
  {
    assert Doomed(key, key);
  }

  lemma PurgeDone(w: World, key: string)
    ensures ProgramStep(w, Purge(key), w, Done)
  {
  }

  lemma PurgeOne(w: World, key: string, victim: string)
    requires FolderOf(key) != "" && FolderOf(key) + "/" <= victim
    ensures ProgramStep(w, Purge(key), RemoveObject(w, victim), Purge(key))
  {
    assert Doomed(key, victim);
  }

  lemma WholeListing(listing: seq<string>)
    ensures listing[..|listing|] == listing && forall k :: k in SetOf(listing) <==> k in listing
  {
    forall k | k in listing ensures k in SetOf(listing) {
      var i :| 0 <= i < |listing| && listing[i] == k;
    }
  }

  lemma SetOfSnoc(keys: seq<string>, i: nat)
    requires i < |keys|
    ensures SetOf(keys[..i + 1]) == SetOf(keys[..i]) + {keys[i]}
  {
    var a, b := keys[..i + 1], keys[..i];
    assert a == b + [keys[i]];
    forall x | x in SetOf(b) ensures x in SetOf(a) {
      var j :| 0 <= j < |b| && b[j] == x;
      assert a[j] == x;
    }
    assert a[i] == keys[i];
  }

  // ---------------------------------------------------------------------------
  // What the variants leave alone
  // ---------------------------------------------------------------------------

  lemma {:induction false} PutMadeKeeps(bucket: map<string, Blob>, folder: string, fates: seq<Fate>)
    requires |fates| <= |VARIANTS|
    ensures bucket.Keys <= PutMade(bucket, folder, fates).Keys
  {
    if fates != [] {
      PutMadeKeeps(bucket, folder, fates[..|fates| - 1]);
    }
  }

  lemma {:induction false} PutMadeExactly(bucket: map<string, Blob>, folder: string, fates: seq<Fate>, key: string)
    requires |fates| <= |VARIANTS|
    ensures (forall i: nat :: i < |fates| && fates[i].Stores? ==> key != VariantKey(folder, i)) ==>
              (key in PutMade(bucket, folder, fates) <==> key in bucket) &&
              (key in bucket ==> PutMade(bucket, folder, fates)[key] == bucket[key])
    ensures (exists i: nat :: i < |fates| && fates[i].Stores? && key == VariantKey(folder, i)) ==>
              key in PutMade(bucket, folder, fates)
  {
    if fates != [] {
      var last := |fates| - 1;
      var init := fates[..last];
      PutMadeExactly(bucket, folder, init, key);
      forall i: nat | i < last ensures init[i] == fates[i] {}
    }
  }

  lemma SameLeaf(folder: string, a: string, b: string)
    ensures folder + "/" + a == folder + "/" + b ==> a == b
  {
    assert (folder + "/" + a)[|folder| + 1..] == a && (folder + "/" + b)[|folder| + 1..] == b;
  }

  /** Whatever fails, the making of variants writes neither an object of another folder nor an original. */
  lemma VariantsFrame(bucket: map<string, Blob>, folder: string, fates: seq<Fate>, key: string, leaf: string)
    requires |fates| <= |VARIANTS|
    requires FolderOf(key) != folder || (key == folder + "/" + leaf && "original." <= leaf)
    ensures key in PutMade(bucket, folder, fates) <==> key in bucket
    ensures key in bucket ==> PutMade(bucket, folder, fates)[key] == bucket[key]
  {
    forall i: nat | i < |fates| ensures key != VariantKey(folder, i) {
      VariantLeaf(folder, i);
      FolderOfLeaf(folder, VARIANTS[i] + ".webp");
      SameLeaf(folder, leaf, VARIANTS[i] + ".webp");
    }
    PutMadeExactly(bucket, folder, fates, key);
  }

  /** The stored variants have pairwise different keys. */
  lemma VariantKeysDiffer(folder: string, i: nat, j: nat)
    requires i < |VARIANTS| && j < |VARIANTS| && VariantKey(folder, i) == VariantKey(folder, j)
    ensures i == j
  {
    VariantLeaf(folder, i);
    VariantLeaf(folder, j);
    SameLeaf(folder, VARIANTS[i] + ".webp", VARIANTS[j] + ".webp");
    var a, b := VARIANTS[i], VARIANTS[j];
    assert (a + ".webp")[..|a + ".webp"| - 5] == a && (b + ".webp")[..|b + ".webp"| - 5] == b;
  }

  // ---------------------------------------------------------------------------
  // What the making of variants leaves behind
  // ---------------------------------------------------------------------------

  function ThumbnailURL(urlBase: string, folder: string): string {
    urlBase + "/" + folder + "/thumbnail.webp"
  }

  /** A thumbnail was stored, and the update of the row went through. */
  predicate ThumbnailSaved(fates: seq<Fate>, saves: Saves) {
    fates != [] && fates[0].Stores? && !saves.thumbnailFails
  }

  /** Whatever fails otherwise, a row that is there gets the URL of the thumbnail exactly if one was stored and its
      update went through; nothing else about the rows changes. */
  lemma MadeFiles(w: World, job: Job, fates: seq<Fate>, saves: Saves)
    requires |fates| <= |VARIANTS|
    ensures Made(w, job, fates, saves).files ==
            if ThumbnailSaved(fates, saves) && job.media.Some? && job.media.value in w.files &&
               (job.org.None? || w.files[job.media.value].org == job.org.value)
            then w.files[job.media.value :=
                           w.files[job.media.value].(thumbnail := Some(ThumbnailURL(w.urlBase, job.folder)))]
            else w.files
    ensures var w' := Made(w, job, fates, saves);
            && w'.queue == w.queue && w'.urlBase == w.urlBase && w'.used == w.used && w'.origins == w.origins
            && w'.issued == w.issued
  {
    VariantKeysAre(job.folder);
    assert w.urlBase + "/" + (job.folder + "/thumbnail.webp") == ThumbnailURL(w.urlBase, job.folder);
    hide VariantRows, VariantKey, Without, MadeOf;
    assert forall k: nat :: k in MadeOf(fates) <==> k < |fates| && fates[k].Stores?;
    assert MadeOf(fates) == [] ==> 0 !in MadeOf(fates);
  }

  function VariantPath(folder: string, i: nat): string
    requires i < |VARIANTS|
  {
    folder + "/" + VARIANTS[i] + ".webp"
  }

  lemma VariantKeyIs(folder: string, i: nat)
    requires i < |VARIANTS|
    ensures VariantKey(folder, i) == VariantPath(folder, i)
  {
    VariantLeaf(folder, i);
    assert folder + "/" + (VARIANTS[i] + ".webp") == folder + "/" + VARIANTS[i] + ".webp";
  }

  lemma MadeBucket(w: World, job: Job, fates: seq<Fate>, saves: Saves)
    requires |fates| <= |VARIANTS|
    ensures Made(w, job, fates, saves).bucket == PutMade(w.bucket, job.folder, fates)
  {
    hide PutMade, MadeOf;
    PersistedRows(w.(bucket := PutMade(w.bucket, job.folder, fates)), job, MadeOf(fates), saves);
  }

  /** The objects of the stored variants are there with their contents, and no other object is touched. */
  lemma MadeObjects(w: World, job: Job, fates: seq<Fate>, saves: Saves)
    requires |fates| <= |VARIANTS|
    ensures var after := Made(w, job, fates, saves).bucket;
            && (forall i: nat :: i < |fates| && fates[i].Stores? ==>
                  VariantPath(job.folder, i) in after && after[VariantPath(job.folder, i)] == fates[i].blob)
            && (forall k :: (forall i: nat :: i < |fates| && fates[i].Stores? ==> k != VariantPath(job.folder, i)) ==>
                  (k in after <==> k in w.bucket) && (k in w.bucket ==> after[k] == w.bucket[k]))
  {
    var after := Made(w, job, fates, saves).bucket;
    MadeBucket(w, job, fates, saves);
    hide Made, PutMade, VariantKey, VariantPath;
    forall i: nat | i < |fates| ensures VariantKey(job.folder, i) == VariantPath(job.folder, i) {
      VariantKeyIs(job.folder, i);
    }
    forall i: nat | i < |fates| && fates[i].Stores?
      ensures VariantPath(job.folder, i) in after && after[VariantPath(job.folder, i)] == fates[i].blob
    {
      PutMadeStores(w.bucket, job.folder, fates, i);
    }
    forall k | forall i: nat :: i < |fates| && fates[i].Stores? ==> k != VariantPath(job.folder, i)
      ensures (k in after <==> k in w.bucket) && (k in w.bucket ==> after[k] == w.bucket[k])
    {
      PutMadeExactly(w.bucket, job.folder, fates, k);
    }
  }

  lemma {:induction false} PutMadeStores(bucket: map<string, Blob>, folder: string, fates: seq<Fate>, i: nat)
    requires i < |fates| <= |VARIANTS| && fates[i].Stores?
    ensures VariantKey(folder, i) in PutMade(bucket, folder, fates)
    ensures PutMade(bucket, folder, fates)[VariantKey(folder, i)] == fates[i].blob
  {
    var last := |fates| - 1;
    if i < last {
      PutMadeStores(bucket, folder, fates[..last], i);
      if VariantKey(folder, i) == VariantKey(folder, last) {
        VariantKeysDiffer(folder, i, last);
      }
    }
  }

  /** The row of the i-th variant of a media row. */
  function RowOf(media: string, folder: string, i: nat): Variant
    requires i < |VARIANTS|
  {
    Variant(media, VARIANTS[i], VariantPath(folder, i))
  }

  ghost predicate IsRowOfStored(v: Variant, media: string, folder: string, fates: seq<Fate>)
    requires |fates| <= |VARIANTS|
  {
    exists i: nat :: i < |fates| && fates[i].Stores? && v == RowOf(media, folder, i)
  }

  /** The variant rows afterwards: those from before, but for the ones of a row whose variants are replaced, and one
      for each stored variant; unless nothing was stored, or there is no row to save anything about. */
  lemma MadeVariants(w: World, job: Job, fates: seq<Fate>, saves: Saves, v: Variant)
    requires |fates| <= |VARIANTS|
    ensures (forall i :: 0 <= i < |fates| ==> !fates[i].Stores?) || job.media.None? ==>
              Made(w, job, fates, saves).variants == w.variants
    ensures (exists i :: 0 <= i < |fates| && fates[i].Stores?) && job.media.Some? ==>
              var id := job.media.value;
              (v in Made(w, job, fates, saves).variants <==>
               (v in w.variants && !(job.replace && !saves.clearFails && v.media == id)) ||
               (!saves.saveFails && IsRowOfStored(v, id, job.folder, fates)))
  {
    StoredSome(fates);
    if job.media.Some? && MadeOf(fates) != [] {
      RowsAreOfStored(job.media.value, job.folder, fates, v);
      hide PutMade, Without, MadeOf, IsRowOfStored, VariantRows;
      SavedVariantRows(w.(bucket := PutMade(w.bucket, job.folder, fates)), job, MadeOf(fates), saves);
    }
  }

  lemma StoredSome(fates: seq<Fate>)
    ensures MadeOf(fates) == [] <==> forall i :: 0 <= i < |fates| ==> !fates[i].Stores?
  {
    if MadeOf(fates) != [] {
      assert MadeOf(fates)[0] in MadeOf(fates);
    }
    if i :| 0 <= i < |fates| && fates[i].Stores? {
      assert i in MadeOf(fates);
    }
  }

  lemma SavedVariantRows(w: World, job: Job, made: seq<nat>, saves: Saves)
    requires (forall i :: 0 <= i < |made| ==> made[i] < |VARIANTS|) && made != [] && job.media.Some?
    ensures Persisted(w, job, made, saves).variants ==
            (if job.replace && !saves.clearFails then Without(w.variants, job.media.value) else w.variants)
            + (if saves.saveFails then [] else VariantRows(job.media.value, job.folder, made))
  {
    hide VariantRows, Without, VariantKey;
  }

  lemma RowsAreOfStored(media: string, folder: string, fates: seq<Fate>, v: Variant)
    requires |fates| <= |VARIANTS|
    ensures v in VariantRows(media, folder, MadeOf(fates)) <==> IsRowOfStored(v, media, folder, fates)
  {
    var made := MadeOf(fates);
    var rows := VariantRows(media, folder, made);
    hide MadeOf;
    forall i: nat | i < |fates|
      ensures Variant(media, VARIANTS[i], VariantKey(folder, i)) == RowOf(media, folder, i)
    {
      VariantKeyIs(folder, i);
    }
    if v in rows {
      var j :| 0 <= j < |rows| && rows[j] == v;
      assert made[j] in made && v == RowOf(media, folder, made[j]);
    }
    if IsRowOfStored(v, media, folder, fates) {
      var i: nat :| i < |fates| && fates[i].Stores? && v == RowOf(media, folder, i);
      assert i in made;
      var j :| 0 <= j < |made| && made[j] == i;
      assert rows[j] == v;
    }
  }

  /** Dropping the variant rows of one file keeps the rows of the others, each as often as before. */
  lemma {:induction false} WithoutCounts(variants: seq<Variant>, media: string, v: Variant)
    ensures multiset(Without(variants, media))[v] == if v.media == media then 0 else multiset(variants)[v]
  {
    if variants != [] {
      WithoutCounts(variants[1..], media, v);
      assert variants == [variants[0]] + variants[1..];
    }
  }
}

/** Every handler keeps what every run of the system keeps. */
module HandlerSafety {
  import opened Options
  import opened ObjectKeys
  import opened MediaWorld
  import opened Lifecycle
  import opened Handlers
  import FolderNames

  lemma {:induction false} PathKeeps(path: seq<Point>, id: nat, n: nat)
    requires IsPath(path) && n < |path| && Core(path[0].w) && PcInv(path[0].w, id, path[0].pc)
    ensures Core(path[n].w) && PcInv(path[n].w, id, path[n].pc)
  {
    hide ProgramStep, Core, PcInv, Rely;
    if n > 0 {
      PathKeeps(path, id, n - 1);
      StepKeeps(path[n - 1].w, id, path[n - 1].pc, path[n].w, path[n].pc);
    }
  }

  /** From a good world, a program that was admitted leaves a good and safe world wherever it stops. */
  lemma ProgramIsSafe(w: World, id: nat, pc: Pc, w': World, pc': Pc)
    requires Core(w) && Admitted(w, pc) && Reaches(Chosen(w, pc, id), pc, w', pc')
    ensures Core(w') && Safe(w')
  {
    hide ProgramStep;
    ChosenKeeps(w, id, pc);
    var path: seq<Point> :| IsPath(path) && path[0] == Point(Chosen(w, pc, id), pc) && path[|path| - 1] == Point(w', pc');
    PathKeeps(path, id, |path| - 1);
  }

  /** An upload under a slug free of slashes, into a folder that was not chosen before, is admitted. */
  lemma UploadIsAdmitted(w: World, slug: string, filename: string, millis: int, fallback: string, u: UploadRequest)
    requires NoSlash(slug) && NoSlash(fallback)
    requires u.key == OriginalKey(slug, filename, millis, fallback) && u.folder == FolderOf(u.key)
    requires u.folder !in w.used
    ensures Admitted(w, PutOriginal(u))
  {
    OriginalKeyParses(slug, filename, millis, fallback);
    NormalNoSlash(filename, millis);
    GoodFolderOf(slug, FolderNames.TimestampedName(FolderNames.FolderName(filename), millis));
  }
}

/** When a delete keeps the lifecycle property. */
module DeleteLaw {
  import opened Options
  import opened ObjectKeys
  import opened MediaWorld
  import opened Lifecycle
  import opened Handlers

  /** Removing the folder of one key of a folder removes all of that folder. */
  lemma DoomedTogether(target: string, folder: string, leaf: string, other: string)
    requires NoSlash(leaf) && NoSlash(other) && FolderOf(target) != "" && folder != ""
    requires FolderOf(target) + "/" <= folder + "/" + leaf
    ensures FolderOf(target) + "/" <= folder + "/" + other
  {
    var p, k := FolderOf(target) + "/", folder + "/" + leaf;
    assert k[|p| - 1] == '/';
    assert forall m :: |folder| < m < |k| ==> k[m] == leaf[m - |folder| - 1];
    assert p <= folder + "/";
  }

  lemma SafeRowStays(w: World, target: string, id: string, key: string)
    requires Core(w) && id in w.files && FolderOf(key) == FolderOf(w.files[id].key)
    requires !Doomed(target, w.files[id].key)
    ensures !Doomed(target, key)
  {
    assert GoodFile(w, id) && GoodOrigin(w, FolderOf(w.files[id].key));
    var folder := FolderOf(w.files[id].key);
    assert GoodFolder(folder) && !GoodFolder("");
    var leaf := KeyShape(w.files[id].key);
    var other := KeyShape(key);
    if Doomed(target, key) {
      if FolderOf(target) != "" {
        DoomedTogether(target, folder, other, leaf);
      }
    }
  }

  /** A delete whose removals succeed leaves a good world safe if and only if every row stored under the
      target's folder is the row that the lookup found and its deletion succeeds. The test on the lookup is the
      guard that the code lacks: a delete by the key of a variant, or by another organisation's key, finds no
      row and still removes the folder. */
  lemma DeleteIsSafeIff(w: World, target: string, row: Option<string>, org: string, f: DeleteFaults)
    requires Core(w) && (row.Some? ==> HasRow(w, row.value, target, org))
    ensures Safe(Deleted(w, target, row, org, f)) <==>
            forall id :: id in w.files && Doomed(target, w.files[id].key) ==> row == Some(id) && !f.row
  {
    var w' := Deleted(w, target, row, org, f);
    if forall id :: id in w.files && Doomed(target, w.files[id].key) ==> row == Some(id) && !f.row {
      forall id | id in w'.files ensures SafeFile(w', w'.files[id]) {
        assert SafeFile(w, w.files[id]) && GoodFile(w, id);
        var thumbnail := VariantKey(FolderOf(w.files[id].key), 0);
        VariantFolder(FolderOf(w.files[id].key), 0);
        SafeRowStays(w, target, id, thumbnail);
      }
      forall v | v in w'.variants ensures SafeVariant(w', v) {
        assert SafeVariant(w, v);
        if v.media in w'.files {
          SafeRowStays(w, target, v.media, v.key);
        }
      }
    } else {
      var id :| id in w.files && Doomed(target, w.files[id].key) && !(row == Some(id) && !f.row);
      assert id in w'.files && w'.files[id] == w.files[id];
      assert !SafeFile(w', w'.files[id]);
    }
  }

  /** A delete that finds its row, and whose statements succeed, is always safe. */
  lemma FoundDeleteIsSafe(w: World, target: string, row: string, org: string, f: DeleteFaults)
    requires Core(w) && HasRow(w, row, target, org) && !f.row
    ensures Safe(Deleted(w, target, Some(row), org, f))
  {
    forall id | id in w.files && Doomed(target, w.files[id].key) ensures id == row {
      assert GoodFile(w, id) && GoodFile(w, row);
      assert GoodOrigin(w, FolderOf(w.files[id].key)) && GoodOrigin(w, FolderOf(target));
      DoomedIsOwn(w, target, w.files[id].key);
    }
    DeleteIsSafeIff(w, target, Some(row), org, f);
  }

  /** A delete by the key of a variant takes the live row's original with it: such a key names no row, unless
      some upload chose it for an original. */
  lemma DeleteByVariantKeyIsUnsafe(w: World, id: string, i: nat, org: string, f: DeleteFaults)
    requires Core(w) && id in w.files && i < |VARIANTS|
    requires var key := VariantKey(FolderOf(w.files[id].key), i); forall other :: !HasRow(w, other, key, org)
    ensures var key := VariantKey(FolderOf(w.files[id].key), i); !Safe(Deleted(w, key, None, org, f))
  {
    var folder := FolderOf(w.files[id].key);
    VariantFolder(folder, i);
    OwnFolderIsDoomed(w, id, VariantKey(folder, i));
    DeleteIsSafeIff(w, VariantKey(folder, i), None, org, f);
  }

  /** A delete by the key of another organisation's file finds no row and takes the live row's original. */
  lemma DeleteByForeignKeyIsUnsafe(w: World, id: string, org: string, f: DeleteFaults)
    requires Core(w) && id in w.files && org != w.files[id].org
    ensures forall other :: !HasRow(w, other, w.files[id].key, org)
    ensures !Safe(Deleted(w, w.files[id].key, None, org, f))
  {
    forall other ensures !HasRow(w, other, w.files[id].key, org) {
      assert GoodFile(w, id) && GoodFile(w, other);
    }
    OwnFolderIsDoomed(w, id, w.files[id].key);
    DeleteIsSafeIff(w, w.files[id].key, None, org, f);
  }

  lemma OwnFolderIsDoomed(w: World, id: string, target: string)
    requires Core(w) && id in w.files && FolderOf(target) == FolderOf(w.files[id].key)
    ensures Doomed(target, w.files[id].key)
  {
    assert GoodFile(w, id) && GoodOrigin(w, FolderOf(w.files[id].key));
    assert GoodFolder(FolderOf(w.files[id].key)) && !GoodFolder("");
    var leaf := KeyShape(w.files[id].key);
  }

  // ---------------------------------------------------------------------------
  // A delete undoes an upload
  // ---------------------------------------------------------------------------

  lemma {:induction false} WithoutOwn(variants: seq<Variant>, media: string)
    requires forall v :: v in variants ==> v.media == media
    ensures Without(variants, media) == []
  {
    if variants != [] {
      WithoutOwn(variants[1..], media);
    }
  }

  lemma {:induction false} WithoutNew(before: seq<Variant>, rows: seq<Variant>, media: string)
    requires forall v :: v in before ==> v.media != media
    requires forall v :: v in rows ==> v.media == media
    ensures Without(before + rows, media) == before
  {
    if before == [] {
      WithoutOwn(rows, media);
      assert before + rows == rows;
    } else {
      assert (before + rows)[1..] == before[1..] + rows;
      WithoutNew(before[1..], rows, media);
    }
  }

  /** What a job saves about a row: at most its thumbnail, and its variants come last. */
  lemma SavedRow(w: World, job: Job, made: seq<nat>, saves: Saves, id: string)
    requires (forall i :: 0 <= i < |made| ==> made[i] < |VARIANTS|) && job.media == Some(id) && id in w.files
    ensures var w' := Persisted(w, job, made, saves);
            && w'.bucket == w.bucket && w'.files - {id} == w.files - {id}
            && id in w'.files && w'.files[id].org == w.files[id].org
  {
    hide VariantRows, Without;
  }

  lemma SavedVariants(w: World, job: Job, made: seq<nat>, saves: Saves, id: string)
    requires (forall i :: 0 <= i < |made| ==> made[i] < |VARIANTS|) && job.media == Some(id) && !job.replace
    requires forall v :: v in w.variants ==> v.media != id
    ensures Without(Persisted(w, job, made, saves).variants, id) == w.variants
  {
    hide Without;
    var rows := VariantRows(id, job.folder, made);
    forall v | v in rows ensures v.media == id {
      var i :| 0 <= i < |rows| && rows[i] == v;
    }
    WithoutNew(w.variants, rows, id);
    WithoutNew(w.variants, [], id);
    assert w.variants + [] == w.variants;
  }

  /** Whatever fails while the variants are made and saved, a delete of the new row in which nothing fails
      brings back the rows, the variant rows and the objects from before the upload. */
  lemma DeleteUndoesUpload(w: World, u: UploadRequest, id: string, fates: seq<Fate>, saves: Saves)
    requires |fates| <= |VARIANTS| && FolderOf(u.key) == u.folder && u.folder != ""
    requires id !in w.files && forall v :: v in w.variants ==> v.media != id
    requires forall k :: k in w.bucket ==> !(u.folder + "/" <= k)
    ensures var w1 := Made(Uploaded(w, u, id), UploadJob(u, id), fates, saves);
            var w2 := Deleted(w1, u.key, Some(id), u.org, DeleteFaults(false, false, false));
            w2.files == w.files && w2.variants == w.variants && w2.bucket == w.bucket
  {
    hide Persisted;
    var stored := Uploaded(w, u, id);
    var made := stored.(bucket := PutMade(stored.bucket, u.folder, fates));
    SavedRow(made, UploadJob(u, id), MadeOf(fates), saves, id);
    SavedVariants(made, UploadJob(u, id), MadeOf(fates), saves, id);
    var w1 := Made(stored, UploadJob(u, id), fates, saves);
    assert w1.bucket == made.bucket;
    assert stored.files - {id} == w.files;
    var leaf := KeyShape(u.key);
    var bucket := map k | k in w1.bucket && !Doomed(u.key, k) :: w1.bucket[k];
    forall k ensures k in bucket <==> k in w.bucket
             ensures k in w.bucket ==> k in bucket && bucket[k] == w.bucket[k] {
      PutMadeExactly(stored.bucket, u.folder, fates, k);
      forall i: nat | i < |fates| ensures u.folder + "/" <= VariantKey(u.folder, i) {
        VariantLeaf(u.folder, i);
      }
    }
    assert bucket == w.bucket;
  }
}
