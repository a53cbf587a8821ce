/** The state that the handlers and the worker share, and the programs they run on it.

    The state is the database (media_files, media_variants), the bucket and the task queue. Each handler of
    internal/handler and the task of internal/queue/worker.go is a program of atomic database, bucket and queue
    calls; `ProgramStep` says what one call of a program may do. Every call is free to fail but two: the lookup
    of a delete by key and the deletion of its row, whose failures a delete ignores (see module `DeleteLaw`).
    A program that crashes just stops. There is one bucket: the one the rows name. */
module MediaWorld {
  import opened Options
  import opened ObjectKeys

  datatype Mime = Raster | Svg | Video | Other

  datatype Blob = Blob(size: nat, mime: Mime)

  /** A media_files row, as far as the lifecycle reads or writes it. */
  datatype File = File(org: string, key: string, mime: Mime, size: nat, thumbnail: Option<string>)

  datatype Variant = Variant(media: string, name: string, key: string)

  datatype Task = Task(media: string, folder: string, key: string, mime: Mime)

  /** The row that was created for an upload folder; kept after the row is gone. */
  datatype Origin = Origin(id: string, org: string, key: string)

  /** `used`, `origins` and `issued` are history: which program chose a folder, which row was created in it,
      and which identifiers have been drawn. `urlBase` is the configured start of every public URL. */
  datatype World = World(
    files: map<string, File>, variants: seq<Variant>, bucket: map<string, Blob>, queue: set<Task>,
    used: map<string, nat>, origins: map<string, Origin>, issued: set<string>, urlBase: string)

  // ---------------------------------------------------------------------------
  // Database, bucket and queue calls
  // ---------------------------------------------------------------------------

  function FolderOf(key: string): string {
    ExtractFolderPath(key)
  }

  function Url(w: World, key: string): string {
    PublicURL(w.urlBase, key)
  }

  function PutObject(w: World, key: string, blob: Blob): World {
    w.(bucket := w.bucket[key := blob])
  }

  function RemoveObject(w: World, key: string): World {
    w.(bucket := w.bucket - {key})
  }

  /** INSERT INTO media_files, for the upload that chose the folder of the key. */
  function InsertFile(w: World, id: string, file: File): World {
    w.(files := w.files[id := file],
       origins := w.origins[FolderOf(file.key) := Origin(id, file.org, file.key)],
       issued := w.issued + {id})
  }

  /** DELETE FROM media_files WHERE id AND organization_id */
  function DeleteFile(w: World, id: string, org: string): World {
    if id in w.files && w.files[id].org == org then w.(files := w.files - {id}) else w
  }

  /** UPDATE media_files ... WHERE id [AND organization_id] */
  function UpdateFile(w: World, id: string, org: Option<string>, change: File -> File): World {
    if id in w.files && (org.None? || w.files[id].org == org.value)
    then w.(files := w.files[id := change(w.files[id])])
    else w
  }

  function SetThumbnail(w: World, id: string, org: Option<string>, url: string): World {
    UpdateFile(w, id, org, (f: File) => f.(thumbnail := Some(url)))
  }

  function SetContent(w: World, id: string, org: string, blob: Blob): World {
    UpdateFile(w, id, Some(org), (f: File) => f.(mime := blob.mime, size := blob.size))
  }

  function InsertVariants(w: World, rows: seq<Variant>): World {
    w.(variants := w.variants + rows)
  }

  function Without(variants: seq<Variant>, media: string): (r: seq<Variant>)
    ensures forall v :: v in r <==> v in variants && v.media != media
  {
    if variants == [] then []
    else (if variants[0].media == media then [] else [variants[0]]) + Without(variants[1..], media)
  }

  function DeleteVariants(w: World, media: string): World {
    w.(variants := Without(w.variants, media))
  }

  function Enqueue(w: World, task: Task): World {
    w.(queue := w.queue + {task})
  }

  predicate HasRow(w: World, id: string, key: string, org: string) {
    id in w.files && w.files[id].key == key && w.files[id].org == org
  }

  /** What a delete removes from the bucket: all of the key's folder, or the key alone if it has none. */
  predicate Doomed(key: string, victim: string) {
    if FolderOf(key) != "" then FolderOf(key) + "/" <= victim else victim == key
  }

  // ---------------------------------------------------------------------------
  // Programs
  // ---------------------------------------------------------------------------

  datatype UploadRequest = UploadRequest(
    org: string, folder: string, key: string, blob: Blob, variants: bool, async: bool)

  datatype CropRequest = CropRequest(org: string, key: string, regenerate: bool, async: bool)

  /** The making of variants, shared by upload, crop and worker: for which row, under which organisation if the
      thumbnail update is scoped, in which folder, whether old variant rows are replaced, and for a video. */
  datatype Job = Job(media: Option<string>, org: Option<string>, folder: string, replace: bool, video: bool) {
    function Count(): nat {
      if video then 1 else |VARIANTS|
    }
  }

  datatype Pc =
    | PutOriginal(u: UploadRequest)
    | InsertRow(u: UploadRequest)
    | Inserted(u: UploadRequest, id: string)
    | CropCheck(c: CropRequest)
    | CropRead(c: CropRequest)
    | CropPut(c: CropRequest, blob: Blob)
    | CropFind(c: CropRequest, blob: Blob)
    | CropUpdate(c: CropRequest, blob: Blob, id: string)
    | CropRegenerate(c: CropRequest, blob: Blob, record: Option<string>)
    | WorkerRead(task: Task)
    | Making(job: Job, next: nat, made: seq<nat>)
    | Clearing(job: Job, made: seq<nat>)
    | Saving(job: Job, made: seq<nat>)
    | Thumbnailing(job: Job)
    | DeleteById(id: string, org: string)
    | DeleteByKey(key: string, org: string)
    | DropVariants(id: string, org: string, key: string)
    | DropRow(id: string, org: string, key: string)
    | Purge(key: string)
    | Done

  function VariantRows(media: string, folder: string, made: seq<nat>): (rows: seq<Variant>)
    requires forall i :: 0 <= i < |made| ==> made[i] < |VARIANTS|
    ensures |rows| == |made|
  {
    seq(|made|, i requires 0 <= i < |made| => Variant(media, VARIANTS[made[i]], VariantKey(folder, made[i])))
  }

  /** Where a program goes when its variants are made: without any, or without a row, there is nothing to save. */
  function AfterMaking(job: Job, made: seq<nat>): Pc {
    if made == [] || job.media.None? then Done
    else if job.replace then Clearing(job, made)
    else Saving(job, made)
  }

  /** One atomic call of a program, or one of its decisions. */
  ghost predicate ProgramStep(w: World, pc: Pc, w': World, pc': Pc) {
    match pc
    case PutOriginal(u) =>
      || (w' == w && pc' == Done)
      || (w' == PutObject(w, u.key, u.blob) && pc' == InsertRow(u))
    case InsertRow(u) =>
      || (w' == w && pc' == Done)
      || (pc'.Inserted? && pc'.u == u && pc'.id !in w.issued &&
          w' == InsertFile(w, pc'.id, File(u.org, u.key, u.blob.mime, u.blob.size, None)))
    case Inserted(u, id) =>
      var job := Job(Some(id), Some(u.org), u.folder, false, u.blob.mime.Video?);
      if u.variants && !u.blob.mime.Other? then
        || (w' == w && pc' == Making(job, 0, []))
        || (u.async && !u.blob.mime.Video? &&
            w' == Enqueue(w, Task(id, u.folder, u.key, u.blob.mime)) && pc' == Done)
      else w' == w && pc' == Done
    case CropCheck(c) =>
      w' == w &&
      (|| pc' == CropRead(c)
       || (pc' == Done &&
           exists id :: HasRow(w, id, c.key, c.org) && (w.files[id].mime.Svg? || w.files[id].mime.Video?)))
    case CropRead(c) =>
      w' == w && (pc' == Done || (c.key in w.bucket && pc'.CropPut? && pc'.c == c))
    case CropPut(c, blob) =>
      || (w' == w && pc' == Done)
      || (w' == PutObject(w, c.key, blob) && pc' == CropFind(c, blob))
    case CropFind(c, blob) =>
      w' == w &&
      (|| pc' == CropRegenerate(c, blob, None)
       || (pc'.CropUpdate? && HasRow(w, pc'.id, c.key, c.org) && pc' == CropUpdate(c, blob, pc'.id)))
    case CropUpdate(c, blob, id) =>
      (w' == w || w' == SetContent(w, id, c.org, blob)) && pc' == CropRegenerate(c, blob, Some(id))
    case CropRegenerate(c, blob, record) =>
      var folder := FolderOf(c.key);
      if !c.regenerate then w' == w && pc' == Done
      else
        || (w' == w && pc' == Making(Job(record, Some(c.org), folder, true, false), 0, []))
        || (c.async && pc' == Done && record.Some? &&
            w' == Enqueue(w, Task(record.value, folder, c.key, blob.mime)))
        || (c.async && pc' == Done && record.None? &&
            exists id :: id !in w.issued &&
              w' == Enqueue(w.(issued := w.issued + {id}), Task(id, folder, c.key, blob.mime)))
    case WorkerRead(task) =>
      w' == w &&
      (|| pc' == Done
       || (task.key in w.bucket &&
           pc' == Making(Job(Some(task.media), None, task.folder, false, task.mime.Video?), 0, [])))
    case Making(job, next, made) =>
      if next < job.Count() then
        || (w' == w && pc' == Making(job, next + 1, made))
        || (VariantKey(job.folder, next) in w'.bucket &&
            w' == PutObject(w, VariantKey(job.folder, next), w'.bucket[VariantKey(job.folder, next)]) &&
            pc' == Making(job, next + 1, made + [next]))
      else w' == w && pc' == AfterMaking(job, made)
    case Clearing(job, made) =>
      (w' == w || (job.media.Some? && w' == DeleteVariants(w, job.media.value))) && pc' == Saving(job, made)
    case Saving(job, made) =>
      && (w' == w ||
          (job.media.Some? && (forall i :: 0 <= i < |made| ==> made[i] < |VARIANTS|) &&
           w' == InsertVariants(w, VariantRows(job.media.value, job.folder, made))))
      && pc' == if 0 in made then Thumbnailing(job) else Done
    case Thumbnailing(job) =>
      && (w' == w ||
          (job.media.Some? && w' == SetThumbnail(w, job.media.value, job.org, Url(w, VariantKey(job.folder, 0)))))
      && pc' == Done
    case DeleteById(id, org) =>
      w' == w &&
      (|| pc' == Done
       || (id in w.files && w.files[id].org == org && pc' == DropVariants(id, org, w.files[id].key)))
    case DeleteByKey(key, org) =>
      w' == w &&
      (|| (pc'.DropVariants? && HasRow(w, pc'.id, key, org) && pc' == DropVariants(pc'.id, org, key))
       || ((forall id :: !HasRow(w, id, key, org)) && pc' == Purge(key)))
    case DropVariants(id, org, key) =>
      (w' == w || w' == DeleteVariants(w, id)) && pc' == DropRow(id, org, key)
    case DropRow(id, org, key) =>
      w' == DeleteFile(w, id, org) && pc' == Purge(key)
    case Purge(key) =>
      || (w' == w && pc' == Done)
      || (pc' == pc && exists victim :: Doomed(key, victim) && w' == RemoveObject(w, victim))
    case Done => false
  }
}
