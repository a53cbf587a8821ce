/** Uploads, crops, workers and deletes, interleaved in any way and stopped at any point. */
module Lifecycle {
  import opened Options
  import opened ObjectKeys
  import opened MediaWorld

  /** Any number of running programs on one world. */
  datatype System = System(world: World, programs: map<nat, Pc>)

  datatype Event = Begin(id: nat, pc: Pc) | Crash(id: nat) | Step(id: nat)

  // ---------------------------------------------------------------------------
  // Runs
  // ---------------------------------------------------------------------------

  ghost predicate Init(s: System) {
    && s.world.files == map[] && s.world.variants == [] && s.world.queue == {}
    && s.world.used == map[] && s.world.origins == map[] && s.programs == map[]
  }

  /** A request arrives, or a worker takes a task. An upload has a folder of the shape slug/name of its own; a
      delete by key names the key of a row that the caller's organisation has or had. */
  ghost predicate Admitted(w: World, pc: Pc) {
    match pc
    case PutOriginal(u) =>
      && GoodFolder(u.folder) && FolderOf(u.key) == u.folder && u.folder !in w.used
    case CropCheck(_) => true
    case WorkerRead(task) => task in w.queue
    case DeleteById(_, _) => true
    case DeleteByKey(key, org) =>
      && FolderOf(key) in w.origins
      && w.origins[FolderOf(key)].key == key && w.origins[FolderOf(key)].org == org
    case _ => false
  }

  function Chosen(w: World, pc: Pc, id: nat): World {
    if pc.PutOriginal? then w.(used := w.used[pc.u.folder := id]) else w
  }

  ghost predicate Next(s: System, event: Event, s': System) {
    match event
    case Begin(id, pc) =>
      && id !in s.programs && Admitted(s.world, pc)
      && s' == System(Chosen(s.world, pc, id), s.programs[id := pc])
    case Crash(id) =>
      && id in s.programs && s' == System(s.world, s.programs - {id})
    case Step(id) =>
      && id in s.programs && id in s'.programs
      && s'.programs == s.programs[id := s'.programs[id]]
      && ProgramStep(s.world, s.programs[id], s'.world, s'.programs[id])
  }

  ghost predicate Run(states: seq<System>, events: seq<Event>) {
    && |states| == |events| + 1 && Init(states[0])
    && forall i :: 0 <= i < |events| ==> Next(states[i], events[i], states[i + 1])
  }

  // ---------------------------------------------------------------------------
  // The property
  // ---------------------------------------------------------------------------

  ghost predicate SafeFile(w: World, f: File) {
    && f.key in w.bucket
    && (f.thumbnail.Some? ==>
          VariantKey(FolderOf(f.key), 0) in w.bucket &&
          f.thumbnail.value == Url(w, VariantKey(FolderOf(f.key), 0)))
  }

  ghost predicate SafeVariant(w: World, v: Variant) {
    v.media in w.files ==> v.key in w.bucket && FolderOf(v.key) == FolderOf(w.files[v.media].key)
  }

  /** Every row has its original in the bucket; the thumbnail URL of a row is that of a stored thumbnail in the
      row's folder; every variant row of a row names a stored object in that folder. */
  ghost predicate Safe(w: World) {
    && (forall id :: id in w.files ==> SafeFile(w, w.files[id]))
    && (forall v :: v in w.variants ==> SafeVariant(w, v))
  }

  // ---------------------------------------------------------------------------
  // The invariant
  // ---------------------------------------------------------------------------

  /** If a row with this id was ever created, it was created in this folder. */
  ghost predicate OwnedAs(w: World, media: string, folder: string) {
    media in w.issued && forall g :: g in w.origins && w.origins[g].id == media ==> g == folder
  }

  ghost predicate Dead(w: World, folder: string) {
    folder in w.origins && w.origins[folder].id !in w.files
  }

  ghost predicate GoodFile(w: World, id: string) {
    id in w.files ==>
      var f := w.files[id];
      FolderOf(f.key) in w.origins && w.origins[FolderOf(f.key)] == Origin(id, f.org, f.key)
  }

  ghost predicate GoodOrigin(w: World, folder: string) {
    folder in w.origins ==>
      && folder in w.used && FolderOf(w.origins[folder].key) == folder && w.origins[folder].id in w.issued
  }

  ghost predicate Core(w: World) {
    && Safe(w)
    && (forall g :: g in w.used ==> GoodFolder(g))
    && (forall id :: id in w.files ==> GoodFile(w, id))
    && (forall g :: g in w.origins ==> GoodOrigin(w, g))
    && (forall g, h :: g in w.origins && h in w.origins && w.origins[g].id == w.origins[h].id ==> g == h)
    && (forall task :: task in w.queue ==> OwnedAs(w, task.media, task.folder))
    && (forall v :: v in w.variants ==> v.media in w.issued)
  }

  /** The variants made so far for a row that is still there are stored. */
  ghost predicate Stored(w: World, job: Job, made: seq<nat>) {
    && (forall i :: 0 <= i < |made| ==> made[i] < |VARIANTS|)
    && (job.media.Some? ==>
          && OwnedAs(w, job.media.value, job.folder)
          && (job.media.value in w.files ==>
                forall i :: 0 <= i < |made| ==> VariantKey(job.folder, made[i]) in w.bucket))
  }

  /** What holds while program `id` is at `pc`. */
  ghost predicate PcInv(w: World, id: nat, pc: Pc) {
    match pc
    case PutOriginal(u) =>
      u.folder in w.used && w.used[u.folder] == id && u.folder !in w.origins && FolderOf(u.key) == u.folder
    case InsertRow(u) =>
      && u.folder in w.used && w.used[u.folder] == id && u.folder !in w.origins && FolderOf(u.key) == u.folder
      && u.key in w.bucket
    case Inserted(u, row) => OwnedAs(w, row, u.folder)
    case CropUpdate(c, _, row) => OwnedAs(w, row, FolderOf(c.key))
    case CropRegenerate(c, _, record) => record.Some? ==> OwnedAs(w, record.value, FolderOf(c.key))
    case WorkerRead(task) => OwnedAs(w, task.media, task.folder)
    case Making(job, _, made) => Stored(w, job, made)
    case Clearing(job, made) => Stored(w, job, made)
    case Saving(job, made) => Stored(w, job, made)
    case Thumbnailing(job) => Stored(w, job, [0])
    case DropVariants(row, org, key) =>
      FolderOf(key) in w.origins && w.origins[FolderOf(key)] == Origin(row, org, key)
    case DropRow(row, org, key) =>
      FolderOf(key) in w.origins && w.origins[FolderOf(key)] == Origin(row, org, key)
    case DeleteByKey(key, org) =>
      && FolderOf(key) in w.origins
      && w.origins[FolderOf(key)].key == key && w.origins[FolderOf(key)].org == org
    case Purge(key) => Dead(w, FolderOf(key))
    case _ => true
  }

  ghost predicate Inv(s: System) {
    Core(s.world) && forall id :: id in s.programs ==> PcInv(s.world, id, s.programs[id])
  }

  // ---------------------------------------------------------------------------
  // What one program may do to the world under the others
  // ---------------------------------------------------------------------------

  /** Program `id` may add history, remove rows, and remove objects of dead folders; a row or origin that it
      adds has a new identifier and a folder that the program itself chose. */
  ghost predicate Rely(w: World, id: nat, w': World) {
    && (forall g :: g in w.used ==> g in w'.used && w'.used[g] == w.used[g])
    && w.issued <= w'.issued && w'.urlBase == w.urlBase
    && (forall g :: g in w.origins ==> g in w'.origins && w'.origins[g] == w.origins[g])
    && (forall g :: g in w'.origins && g !in w.origins ==>
          g in w.used && w.used[g] == id && w'.origins[g].id !in w.issued)
    && (forall row :: row in w'.files ==>
          if row in w.files then w'.files[row].key == w.files[row].key && w'.files[row].org == w.files[row].org
          else row !in w.issued)
    && (forall k :: k in w.bucket && k !in w'.bucket && FolderOf(k) in w.used ==> Dead(w, FolderOf(k)))
  }

  lemma RelyOwned(w: World, id: nat, w': World, media: string, folder: string)
    requires Rely(w, id, w') && OwnedAs(w, media, folder)
    ensures OwnedAs(w', media, folder)
    ensures media in w'.files ==> media in w.files
  {
  }

  /** A live row's folder keeps its objects. */
  lemma RelyKeeps(w: World, id: nat, w': World, media: string, folder: string, k: string)
    requires Core(w) && Rely(w, id, w') && OwnedAs(w, media, folder) && media in w'.files
    requires k in w.bucket && FolderOf(k) == folder
    ensures k in w'.bucket && media in w.files
  {
    RelyOwned(w, id, w', media, folder);
    assert GoodFile(w, media);
    var g := FolderOf(w.files[media].key);
    assert g == folder && GoodOrigin(w, g);
  }

  lemma VariantFolder(folder: string, i: nat)
    requires i < |VARIANTS|
    ensures FolderOf(VariantKey(folder, i)) == folder
  {
    VariantLeaf(folder, i);
    FolderOfLeaf(folder, VARIANTS[i] + ".webp");
  }

  lemma RelyStored(w: World, id: nat, w': World, job: Job, made: seq<nat>)
    requires Core(w) && Rely(w, id, w') && Stored(w, job, made)
    ensures Stored(w', job, made)
  {
    if job.media.Some? {
      RelyOwned(w, id, w', job.media.value, job.folder);
      if job.media.value in w'.files {
        forall i | 0 <= i < |made| ensures VariantKey(job.folder, made[i]) in w'.bucket {
          VariantFolder(job.folder, made[i]);
          RelyKeeps(w, id, w', job.media.value, job.folder, VariantKey(job.folder, made[i]));
        }
      }
    }
  }

  lemma RelyDead(w: World, id: nat, w': World, folder: string)
    requires Core(w) && Rely(w, id, w') && Dead(w, folder)
    ensures Dead(w', folder)
  {
    assert GoodOrigin(w, folder);
  }

  /** What holds for the other programs keeps holding. */
  lemma RelyPc(w: World, id: nat, w': World, other: nat, pc: Pc)
    requires Core(w) && Rely(w, id, w') && other != id && PcInv(w, other, pc)
    ensures PcInv(w', other, pc)
  {
    match pc
    case PutOriginal(u) =>
    case InsertRow(u) =>
    case Inserted(u, row) => RelyOwned(w, id, w', row, u.folder);
    case CropUpdate(c, _, row) => RelyOwned(w, id, w', row, FolderOf(c.key));
    case CropRegenerate(c, _, record) =>
      if record.Some? {
        RelyOwned(w, id, w', record.value, FolderOf(c.key));
      }
    case WorkerRead(task) => RelyOwned(w, id, w', task.media, task.folder);
    case Making(job, _, made) => RelyStored(w, id, w', job, made);
    case Clearing(job, made) => RelyStored(w, id, w', job, made);
    case Saving(job, made) => RelyStored(w, id, w', job, made);
    case Thumbnailing(job) => RelyStored(w, id, w', job, [0]);
    case Purge(key) => RelyDead(w, id, w', FolderOf(key));
    case _ =>
  }

  // ---------------------------------------------------------------------------
  // Every call keeps the invariant
  // ---------------------------------------------------------------------------

  lemma PutKeeps(w: World, id: nat, key: string, blob: Blob)
    requires Core(w)
    ensures Core(PutObject(w, key, blob)) && Rely(w, id, PutObject(w, key, blob))
  {
    var w' := PutObject(w, key, blob);
    forall row | row in w.files ensures SafeFile(w', w.files[row]) && GoodFile(w', row) {
      assert SafeFile(w, w.files[row]) && GoodFile(w, row);
    }
    forall v | v in w.variants ensures SafeVariant(w', v) {
      assert SafeVariant(w, v);
    }
    forall g | g in w.origins ensures GoodOrigin(w', g) {
      assert GoodOrigin(w, g);
    }
  }

  lemma InsertRely(w: World, id: nat, u: UploadRequest, row: string)
    requires Core(w) && PcInv(w, id, InsertRow(u)) && row !in w.issued
    ensures var w' := InsertFile(w, row, File(u.org, u.key, u.blob.mime, u.blob.size, None));
            Rely(w, id, w') && OwnedAs(w', row, u.folder)
  {
    forall r | r in w.files ensures r in w.issued {
      assert GoodFile(w, r) && GoodOrigin(w, FolderOf(w.files[r].key));
    }
    forall g | g in w.origins ensures w.origins[g].id != row {
      assert GoodOrigin(w, g);
    }
  }

  lemma InsertKeeps(w: World, id: nat, u: UploadRequest, row: string)
    requires Core(w) && PcInv(w, id, InsertRow(u)) && row !in w.issued
    ensures Core(InsertFile(w, row, File(u.org, u.key, u.blob.mime, u.blob.size, None)))
  {
    var w' := InsertFile(w, row, File(u.org, u.key, u.blob.mime, u.blob.size, None));
    forall r | r in w'.files ensures SafeFile(w', w'.files[r]) && GoodFile(w', r) {
      if r != row {
        assert SafeFile(w, w.files[r]) && GoodFile(w, r);
        assert FolderOf(w.files[r].key) != u.folder;
      }
    }
    forall v | v in w.variants ensures SafeVariant(w', v) {
      assert SafeVariant(w, v) && v.media != row;
    }
    forall g | g in w'.origins ensures GoodOrigin(w', g) && (g != u.folder ==> w'.origins[g].id != row) {
      if g != u.folder {
        assert GoodOrigin(w, g);
      }
    }
    forall task | task in w.queue ensures OwnedAs(w', task.media, task.folder) {
      assert OwnedAs(w, task.media, task.folder);
    }
  }

  lemma EnqueueKeeps(w: World, id: nat, task: Task)
    requires Core(w) && OwnedAs(w, task.media, task.folder)
    ensures Core(Enqueue(w, task)) && Rely(w, id, Enqueue(w, task))
  {
    var w' := Enqueue(w, task);
    forall row | row in w.files ensures SafeFile(w', w.files[row]) && GoodFile(w', row) {
      assert SafeFile(w, w.files[row]) && GoodFile(w, row);
    }
    forall v | v in w.variants ensures SafeVariant(w', v) {
      assert SafeVariant(w, v);
    }
    forall g | g in w.origins ensures GoodOrigin(w', g) {
      assert GoodOrigin(w, g);
    }
    forall t | t in w'.queue ensures OwnedAs(w', t.media, t.folder) {
      assert OwnedAs(w, t.media, t.folder);
    }
  }

  /** A crop without a row draws an identifier that no row will ever have. */
  lemma IssueKeeps(w: World, id: nat, fresh': string, folder: string)
    requires Core(w) && fresh' !in w.issued
    ensures var w' := w.(issued := w.issued + {fresh'});
            Core(w') && Rely(w, id, w') && OwnedAs(w', fresh', folder)
  {
    var w' := w.(issued := w.issued + {fresh'});
    forall row | row in w.files ensures SafeFile(w', w.files[row]) && GoodFile(w', row) {
      assert SafeFile(w, w.files[row]) && GoodFile(w, row);
    }
    forall v | v in w.variants ensures SafeVariant(w', v) {
      assert SafeVariant(w, v);
    }
    forall g | g in w.origins ensures GoodOrigin(w', g) {
      assert GoodOrigin(w, g);
    }
    forall t | t in w'.queue ensures OwnedAs(w', t.media, t.folder) {
      assert OwnedAs(w, t.media, t.folder);
    }
  }

  lemma RelyTrans(w: World, id: nat, w1: World, w2: World)
    requires Core(w) && Rely(w, id, w1) && Rely(w1, id, w2) && w1.bucket == w.bucket && w1.origins == w.origins
    requires w1.files == w.files && w1.used == w.used
    ensures Rely(w, id, w2)
  {
    forall k | k in w.bucket && k !in w2.bucket && FolderOf(k) in w.used ensures Dead(w, FolderOf(k)) {
      assert Dead(w1, FolderOf(k));
    }
  }

  /** Row changes that keep key and organisation, and set at most a safe thumbnail. */
  lemma UpdateKeeps(w: World, id: nat, row: string, org: Option<string>, change: File -> File)
    requires Core(w)
    requires forall f: File :: change(f).key == f.key && change(f).org == f.org
    requires row in w.files ==> SafeFile(w, change(w.files[row]))
    ensures Core(UpdateFile(w, row, org, change)) && Rely(w, id, UpdateFile(w, row, org, change))
  {
    var w' := UpdateFile(w, row, org, change);
    forall r | r in w'.files ensures SafeFile(w', w'.files[r]) && GoodFile(w', r) {
      assert SafeFile(w, w.files[r]) && GoodFile(w, r);
    }
    forall v | v in w.variants ensures SafeVariant(w', v) {
      assert SafeVariant(w, v);
    }
    forall g | g in w.origins ensures GoodOrigin(w', g) {
      assert GoodOrigin(w, g);
    }
    forall t | t in w'.queue ensures OwnedAs(w', t.media, t.folder) {
      assert OwnedAs(w, t.media, t.folder);
    }
  }

  lemma ThumbnailKeeps(w: World, id: nat, job: Job)
    requires Core(w) && Stored(w, job, [0]) && job.media.Some?
    ensures var w' := SetThumbnail(w, job.media.value, job.org, Url(w, VariantKey(job.folder, 0)));
            Core(w') && Rely(w, id, w')
  {
    var row := job.media.value;
    if row in w.files {
      assert GoodFile(w, row) && SafeFile(w, w.files[row]);
      assert FolderOf(w.files[row].key) == job.folder;
      assert VariantKey(job.folder, [0][0]) in w.bucket;
    }
    UpdateKeeps(w, id, row, job.org, (f: File) => f.(thumbnail := Some(Url(w, VariantKey(job.folder, 0)))));
  }

  lemma ContentKeeps(w: World, id: nat, row: string, org: string, blob: Blob)
    requires Core(w)
    ensures Core(SetContent(w, row, org, blob)) && Rely(w, id, SetContent(w, row, org, blob))
  {
    if row in w.files {
      assert SafeFile(w, w.files[row]);
    }
    UpdateKeeps(w, id, row, Some(org), (f: File) => f.(mime := blob.mime, size := blob.size));
  }

  lemma VariantsKeep(w: World, id: nat, variants: seq<Variant>)
    requires Core(w)
    requires forall v :: v in variants ==> SafeVariant(w, v) && v.media in w.issued
    ensures Core(w.(variants := variants)) && Rely(w, id, w.(variants := variants))
  {
    var w' := w.(variants := variants);
    forall row | row in w.files ensures SafeFile(w', w.files[row]) && GoodFile(w', row) {
      assert SafeFile(w, w.files[row]) && GoodFile(w, row);
    }
    forall v | v in variants ensures SafeVariant(w', v) {
      assert SafeVariant(w, v);
    }
    forall g | g in w.origins ensures GoodOrigin(w', g) {
      assert GoodOrigin(w, g);
    }
    forall t | t in w'.queue ensures OwnedAs(w', t.media, t.folder) {
      assert OwnedAs(w, t.media, t.folder);
    }
  }

  lemma SaveKeeps(w: World, id: nat, job: Job, made: seq<nat>)
    requires Core(w) && Stored(w, job, made) && job.media.Some?
    ensures var w' := InsertVariants(w, VariantRows(job.media.value, job.folder, made)); Core(w') && Rely(w, id, w')
  {
    var row, rows := job.media.value, VariantRows(job.media.value, job.folder, made);
    forall v | v in w.variants + rows ensures SafeVariant(w, v) && v.media in w.issued {
      if v in rows {
        var i :| 0 <= i < |rows| && rows[i] == v;
        VariantFolder(job.folder, made[i]);
        if row in w.files {
          assert GoodFile(w, row);
        }
      }
    }
    VariantsKeep(w, id, w.variants + rows);
  }

  lemma DeleteRowKeeps(w: World, id: nat, row: string, org: string, key: string)
    requires Core(w) && PcInv(w, id, DropRow(row, org, key))
    ensures var w' := DeleteFile(w, row, org); Core(w') && Rely(w, id, w') && Dead(w', FolderOf(key))
  {
    var w' := DeleteFile(w, row, org);
    if row in w.files {
      assert GoodFile(w, row);
      assert w.files[row].org == org;
    }
    forall r | r in w'.files ensures SafeFile(w', w'.files[r]) && GoodFile(w', r) {
      assert SafeFile(w, w.files[r]) && GoodFile(w, r);
    }
    forall v | v in w.variants ensures SafeVariant(w', v) {
      assert SafeVariant(w, v);
    }
    forall g | g in w.origins ensures GoodOrigin(w', g) {
      assert GoodOrigin(w, g);
    }
    forall t | t in w'.queue ensures OwnedAs(w', t.media, t.folder) {
      assert OwnedAs(w, t.media, t.folder);
    }
  }

  lemma ClearKeeps(w: World, id: nat, media: string)
    requires Core(w)
    ensures Core(DeleteVariants(w, media)) && Rely(w, id, DeleteVariants(w, media))
  {
    VariantsKeep(w, id, Without(w.variants, media));
  }

  /** A removal under a dead folder takes nothing of any other folder that was ever chosen. */
  lemma DoomedIsOwn(w: World, key: string, victim: string)
    requires Core(w) && FolderOf(key) in w.used && Doomed(key, victim) && FolderOf(victim) in w.used
    ensures FolderOf(victim) == FolderOf(key)
  {
    assert GoodFolder(FolderOf(key)) && GoodFolder(FolderOf(victim));
    assert !GoodFolder("");
    var leaf := KeyShape(victim);
    PrefixIsolation(FolderOf(key), FolderOf(victim), leaf);
  }

  lemma RemoveRely(w: World, id: nat, key: string, victim: string)
    requires Core(w) && Dead(w, FolderOf(key)) && Doomed(key, victim)
    ensures Rely(w, id, RemoveObject(w, victim))
  {
    assert GoodOrigin(w, FolderOf(key));
    if FolderOf(victim) in w.used {
      DoomedIsOwn(w, key, victim);
    }
  }

  lemma RemoveKeeps(w: World, id: nat, key: string, victim: string)
    requires Core(w) && Dead(w, FolderOf(key)) && Doomed(key, victim)
    ensures Core(RemoveObject(w, victim))
  {
    var w' := RemoveObject(w, victim);
    assert GoodOrigin(w, FolderOf(key));
    if FolderOf(victim) in w.used {
      DoomedIsOwn(w, key, victim);
    }
    forall row | row in w.files ensures SafeFile(w', w.files[row]) && GoodFile(w', row) {
      assert SafeFile(w, w.files[row]) && GoodFile(w, row);
      var g := FolderOf(w.files[row].key);
      assert GoodOrigin(w, g);
      VariantFolder(g, 0);
    }
    forall v | v in w.variants ensures SafeVariant(w', v) {
      assert SafeVariant(w, v);
      if v.media in w.files {
        assert GoodFile(w, v.media) && GoodOrigin(w, FolderOf(w.files[v.media].key));
      }
    }
    forall g | g in w.origins ensures GoodOrigin(w', g) {
      assert GoodOrigin(w, g);
    }
    forall t | t in w'.queue ensures OwnedAs(w', t.media, t.folder) {
      assert OwnedAs(w, t.media, t.folder);
    }
  }

  // ---------------------------------------------------------------------------
  // Every step of a program keeps the invariant
  // ---------------------------------------------------------------------------

  ghost predicate Keeps(w: World, id: nat, w': World, pc': Pc) {
    Core(w') && Rely(w, id, w') && PcInv(w', id, pc')
  }

  lemma UploadStepKeeps(w: World, id: nat, pc: Pc, w': World, pc': Pc)
    requires Core(w) && PcInv(w, id, pc) && ProgramStep(w, pc, w', pc')
    requires pc.PutOriginal? || pc.InsertRow? || pc.Inserted?
    ensures Keeps(w, id, w', pc')
  {
    match pc
    case PutOriginal(u) =>
      PutKeeps(w, id, u.key, u.blob);
    case InsertRow(u) =>
      if pc' != Done {
        InsertKeeps(w, id, u, pc'.id);
        InsertRely(w, id, u, pc'.id);
      }
    case Inserted(u, row) =>
      EnqueueKeeps(w, id, Task(row, u.folder, u.key, u.blob.mime));
  }

  lemma CropStepKeeps(w: World, id: nat, pc: Pc, w': World, pc': Pc)
    requires Core(w) && PcInv(w, id, pc) && ProgramStep(w, pc, w', pc')
    requires pc.CropCheck? || pc.CropRead? || pc.CropPut? || pc.CropFind? || pc.CropUpdate? || pc.CropRegenerate?
    ensures Keeps(w, id, w', pc')
  {
    match pc
    case CropCheck(c) =>
    case CropRead(c) =>
    case CropPut(c, blob) =>
      PutKeeps(w, id, c.key, blob);
    case CropFind(c, blob) =>
      if pc'.CropUpdate? {
        assert GoodFile(w, pc'.id) && GoodOrigin(w, FolderOf(c.key));
      }
    case CropUpdate(c, blob, row) =>
      ContentKeeps(w, id, row, c.org, blob);
      if w' == SetContent(w, row, c.org, blob) {
        RelyOwned(w, id, w', row, FolderOf(c.key));
      }
    case CropRegenerate(c, blob, record) =>
      CropRegenerateKeeps(w, id, c, blob, record, w', pc');
  }

  lemma CropRegenerateKeeps(w: World, id: nat, c: CropRequest, blob: Blob, record: Option<string>, w': World, pc': Pc)
    requires Core(w) && PcInv(w, id, CropRegenerate(c, blob, record))
    requires ProgramStep(w, CropRegenerate(c, blob, record), w', pc')
    ensures Keeps(w, id, w', pc')
  {
    var folder := FolderOf(c.key);
    if pc' == Done && w' != w {
      if record.Some? {
        EnqueueKeeps(w, id, Task(record.value, folder, c.key, blob.mime));
      } else {
        var row :| row !in w.issued &&
                   w' == Enqueue(w.(issued := w.issued + {row}), Task(row, folder, c.key, blob.mime));
        var w1 := w.(issued := w.issued + {row});
        IssueKeeps(w, id, row, folder);
        EnqueueKeeps(w1, id, Task(row, folder, c.key, blob.mime));
        RelyTrans(w, id, w1, w');
      }
    }
  }

  lemma MakingStepKeeps(w: World, id: nat, job: Job, next: nat, made: seq<nat>, w': World, pc': Pc)
    requires Core(w) && PcInv(w, id, Making(job, next, made)) && ProgramStep(w, Making(job, next, made), w', pc')
    ensures Keeps(w, id, w', pc')
  {
    if next < job.Count() && w' != w {
      var key := VariantKey(job.folder, next);
      PutKeeps(w, id, key, w'.bucket[key]);
      RelyStored(w, id, w', job, made);
      if pc' == Making(job, next + 1, made) {
      } else {
        var made' := made + [next];
        forall i | 0 <= i < |made'|
          ensures made'[i] < |VARIANTS| &&
                  (job.media.Some? && job.media.value in w'.files ==> VariantKey(job.folder, made'[i]) in w'.bucket)
        {
          assert i < |made| ==> made'[i] == made[i];
        }
      }
    } else if next < job.Count() && pc' != Making(job, next + 1, made) {
      var key, made' := VariantKey(job.folder, next), made + [next];
      forall i | 0 <= i < |made'|
        ensures made'[i] < |VARIANTS| &&
                (job.media.Some? && job.media.value in w'.files ==> VariantKey(job.folder, made'[i]) in w'.bucket)
      {
        assert i < |made| ==> made'[i] == made[i];
      }
    }
  }

  lemma SavingStepKeeps(w: World, id: nat, pc: Pc, w': World, pc': Pc)
    requires Core(w) && PcInv(w, id, pc) && ProgramStep(w, pc, w', pc')
    requires pc.Clearing? || pc.Saving? || pc.Thumbnailing?
    ensures Keeps(w, id, w', pc')
  {
    hide Core;
    match pc
    case Clearing(job, made) =>
      if w' != w {
        ClearKeeps(w, id, job.media.value);
        RelyStored(w, id, w', job, made);
      }
    case Saving(job, made) =>
      if w' != w {
        SaveKeeps(w, id, job, made);
        RelyStored(w, id, w', job, made);
      }
      if 0 in made {
        var i :| 0 <= i < |made| && made[i] == 0;
        assert job.media.Some? && job.media.value in w'.files ==> VariantKey(job.folder, made[i]) in w'.bucket;
      }
    case Thumbnailing(job) =>
      if w' != w {
        ThumbnailKeeps(w, id, job);
      }
  }

  lemma LookupStepKeeps(w: World, id: nat, pc: Pc, w': World, pc': Pc)
    requires Core(w) && PcInv(w, id, pc) && ProgramStep(w, pc, w', pc')
    requires pc.DeleteById? || pc.DeleteByKey?
    ensures Keeps(w, id, w', pc')
  {
    if pc'.DropVariants? {
      assert GoodFile(w, pc'.id);
    } else if pc.DeleteByKey? {
      var row := w.origins[FolderOf(pc.key)].id;
      assert GoodFile(w, row) && !HasRow(w, row, pc.key, pc.org);
    }
  }

  lemma PurgeStepKeeps(w: World, id: nat, key: string, w': World, pc': Pc)
    requires Core(w) && PcInv(w, id, Purge(key)) && ProgramStep(w, Purge(key), w', pc')
    ensures Keeps(w, id, w', pc')
  {
    hide Core;
    if pc' == Purge(key) {
      var victim :| Doomed(key, victim) && w' == RemoveObject(w, victim);
      RemoveKeeps(w, id, key, victim);
      RemoveRely(w, id, key, victim);
      RelyDead(w, id, w', FolderOf(key));
    }
  }

  lemma DropStepKeeps(w: World, id: nat, pc: Pc, w': World, pc': Pc)
    requires Core(w) && PcInv(w, id, pc) && ProgramStep(w, pc, w', pc')
    requires pc.DropVariants? || pc.DropRow?
    ensures Keeps(w, id, w', pc')
  {
    hide Core;
    match pc
    case DropVariants(row, org, key) =>
      if w' != w {
        ClearKeeps(w, id, row);
      }
    case DropRow(row, org, key) =>
      DeleteRowKeeps(w, id, row, org, key);
  }

  lemma DeleteStepKeeps(w: World, id: nat, pc: Pc, w': World, pc': Pc)
    requires Core(w) && PcInv(w, id, pc) && ProgramStep(w, pc, w', pc')
    requires pc.DeleteById? || pc.DeleteByKey? || pc.DropVariants? || pc.DropRow? || pc.Purge?
    ensures Keeps(w, id, w', pc')
  {
    hide *;
    match pc
    case DeleteById(_, _) => LookupStepKeeps(w, id, pc, w', pc');
    case DeleteByKey(_, _) => LookupStepKeeps(w, id, pc, w', pc');
    case Purge(key) => PurgeStepKeeps(w, id, key, w', pc');
    case _ => DropStepKeeps(w, id, pc, w', pc');
  }

  lemma NoStepAfterDone(w: World, w': World, pc': Pc)
    ensures !ProgramStep(w, Done, w', pc')
  {
  }

  lemma WorkerStepKeeps(w: World, id: nat, task: Task, w': World, pc': Pc)
    requires Core(w) && PcInv(w, id, WorkerRead(task)) && ProgramStep(w, WorkerRead(task), w', pc')
    ensures Keeps(w, id, w', pc')
  {
  }

  lemma StepKeeps(w: World, id: nat, pc: Pc, w': World, pc': Pc)
    requires Core(w) && PcInv(w, id, pc) && ProgramStep(w, pc, w', pc')
    ensures Keeps(w, id, w', pc')
  {
    hide *;
    match pc
    case PutOriginal(_) => UploadStepKeeps(w, id, pc, w', pc');
    case InsertRow(_) => UploadStepKeeps(w, id, pc, w', pc');
    case Inserted(_, _) => UploadStepKeeps(w, id, pc, w', pc');
    case WorkerRead(task) => WorkerStepKeeps(w, id, task, w', pc');
    case Making(job, next, made) => MakingStepKeeps(w, id, job, next, made, w', pc');
    case Clearing(_, _) => SavingStepKeeps(w, id, pc, w', pc');
    case Saving(_, _) => SavingStepKeeps(w, id, pc, w', pc');
    case Thumbnailing(_) => SavingStepKeeps(w, id, pc, w', pc');
    case DeleteById(_, _) => DeleteStepKeeps(w, id, pc, w', pc');
    case DeleteByKey(_, _) => DeleteStepKeeps(w, id, pc, w', pc');
    case DropVariants(_, _, _) => DeleteStepKeeps(w, id, pc, w', pc');
    case DropRow(_, _, _) => DeleteStepKeeps(w, id, pc, w', pc');
    case Purge(_) => DeleteStepKeeps(w, id, pc, w', pc');
    case Done => NoStepAfterDone(w, w', pc');
    case _ => CropStepKeeps(w, id, pc, w', pc');
  }

  lemma ChosenKeeps(w: World, id: nat, pc: Pc)
    requires Core(w) && Admitted(w, pc)
    ensures Keeps(w, id, Chosen(w, pc, id), pc)
  {
    var w' := Chosen(w, pc, id);
    forall row | row in w.files ensures SafeFile(w', w.files[row]) && GoodFile(w', row) {
      assert SafeFile(w, w.files[row]) && GoodFile(w, row);
    }
    forall v | v in w.variants ensures SafeVariant(w', v) {
      assert SafeVariant(w, v);
    }
    forall g | g in w.origins ensures GoodOrigin(w', g) {
      assert GoodOrigin(w, g);
    }
    forall t | t in w'.queue ensures OwnedAs(w', t.media, t.folder) {
      assert OwnedAs(w, t.media, t.folder);
    }
    if pc.PutOriginal? {
      assert GoodOrigin(w, pc.u.folder);
    }
  }

  lemma BeginKeeps(s: System, id: nat, pc: Pc)
    requires Inv(s) && id !in s.programs && Admitted(s.world, pc)
    ensures Inv(System(Chosen(s.world, pc, id), s.programs[id := pc]))
  {
    hide Core, Rely, PcInv;
    var w' := Chosen(s.world, pc, id);
    ChosenKeeps(s.world, id, pc);
    forall other | other in s.programs ensures PcInv(w', other, s.programs[other]) {
      RelyPc(s.world, id, w', other, s.programs[other]);
    }
  }

  lemma NextKeeps(s: System, event: Event, s': System)
    requires Inv(s) && Next(s, event, s')
    ensures Inv(s')
  {
    match event
    case Begin(id, pc) => BeginKeeps(s, id, pc);
    case Crash(_) =>
    case Step(id) =>
      StepKeeps(s.world, id, s.programs[id], s'.world, s'.programs[id]);
      forall other | other in s'.programs ensures PcInv(s'.world, other, s'.programs[other]) {
        if other != id {
          RelyPc(s.world, id, s'.world, other, s.programs[other]);
        }
      }
  }

  // ---------------------------------------------------------------------------
  // Main result
  // ---------------------------------------------------------------------------

  /** In every run of uploads, crops, workers and deletes, with crashes at any point: each row has its original
      in the bucket, a thumbnail URL is that of a stored thumbnail of the row's own folder, and the variant rows
      of a row name stored objects of that folder. */
  lemma {:induction false} EveryRunIsSafe(states: seq<System>, events: seq<Event>, n: nat)
    requires Run(states, events) && n <= |events|
    ensures Inv(states[n]) && Safe(states[n].world)
  {
    if n > 0 {
      EveryRunIsSafe(states, events, n - 1);
      NextKeeps(states[n - 1], events[n - 1], states[n]);
    }
  }
}
