/** What the deployment transaction guarantees over whole runs. */
module KnxCrashSafety {
  import opened Common
  import opened KnxTransaction

  /** No edits from outside; failures and crashes may still happen anywhere. */
  predicate Quiet(env: seq<Happening>) {
    forall i :: 0 <= i < |env| ==> env[i].Fine? || env[i].Fails? || env[i].Crashes?
  }

  lemma {:induction false} QuietTurn(d: Disk, env: seq<Happening>)
    requires Quiet(env)
    ensures Turn(d, env).disk == d && Quiet(Turn(d, env).env)
    ensures env == [] ==> Turn(d, env).outcome.Done? && Turn(d, env).env == []
  {
  }

  /** No matter what happens at its start, an operation never touches the journal or the manifest in the turn. */
  lemma {:induction false} TurnKeepsBooks(d: Disk, env: seq<Happening>)
    ensures Turn(d, env).disk.journal == d.journal && Turn(d, env).disk.manifest == d.manifest
    decreases |env|
  {
    if env != [] {
      match env[0]
      case Edited(p, image) => TurnKeepsBooks(Put(d, p, image), env[1..]);
      case Reassigned(e, value) => TurnKeepsBooks(Reassign(d, e, value), env[1..]);
      case _ =>
    }
  }

  // ------------------------------------------------- the recoverable states

  ghost predicate DistinctPaths(files: seq<FileImage>) {
    forall i, j :: 0 <= i < j < |files| ==> files[i].path != files[j].path
  }

  predicate Named(files: seq<FileImage>, p: Path) {
    exists i :: 0 <= i < |files| && files[i].path == p
  }

  /** `d` differs from `base` only in journaled files, each at its before or its after image. */
  ghost predicate FilesBetween(base: Disk, d: Disk, files: seq<FileImage>) {
    && DistinctPaths(files)
    && (forall i :: 0 <= i < |files| ==>
          && files[i].before == Read(base, files[i].path)
          && Read(d, files[i].path) in {files[i].before, Some(files[i].after)})
    && (forall p :: !Named(files, p) ==> Read(d, p) == Read(base, p))
  }

  ghost predicate Touched(records: seq<Record>, e: string, identity: string) {
    exists r :: r in records && r.entityId == e && r.identity == identity
  }

  predicate Switchable(value: Option<string>) { value == None || value == INTEGRATION }

  predicate Toggles(records: seq<Record>) {
    forall i :: 0 <= i < |records| ==>
      Switchable(records[i].before) && Switchable(records[i].after) && records[i].before != records[i].after
  }

  /** Every record found the value `base` has. */
  ghost predicate Faithful(base: Registry, records: seq<Record>) {
    forall r :: r in records && Matches(base, r) ==> base[r.entityId].disabledBy == r.before
  }

  ghost predicate EntryBetween(base: Registry, now: Registry, records: seq<Record>, e: string)
    requires e in base && e in now
  {
    && base[e].identity == now[e].identity
    && (now[e] == base[e] || (Touched(records, e, base[e].identity) && Switchable(now[e].disabledBy)))
  }

  /** `now` differs from `base` only in entries the records name, and only between the two recorded values. */
  ghost predicate RegistryBetween(base: Registry, now: Registry, records: seq<Record>) {
    && Toggles(records)
    && Faithful(base, records)
    && base.Keys == now.Keys
    && forall e :: e in base.Keys ==> EntryBetween(base, now, records, e)
  }

  /** Everything a rollback needs to reach `base` again. */
  ghost predicate Recoverable(base: Disk, d: Disk, j: Journal) {
    FilesBetween(base, d, j.files) && RegistryBetween(base.registry, d.registry, j.registry)
  }

  // ------------------------------------------------------------ restoring files

  lemma SameFiles(a: Disk, b: Disk)
    requires forall p :: Read(a, p) == Read(b, p)
    ensures a.files == b.files
  {
    forall p ensures p in a.files <==> p in b.files { assert Read(a, p) == Read(b, p); }
    forall p | p in a.files ensures a.files[p] == b.files[p] { assert Read(a, p) == Read(b, p); }
  }

  /** Putting the last file back leaves a shorter list still to restore. */
  lemma RestoreOne(base: Disk, d: Disk, files: seq<FileImage>)
    requires FilesBetween(base, d, files) && files != []
    ensures var item := files[|files| - 1];
      && FilesBetween(base, Put(d, item.path, item.before), files)
      && FilesBetween(base, Put(d, item.path, item.before), files[..|files| - 1])
      && (Read(d, item.path) == item.before ==> FilesBetween(base, d, files[..|files| - 1]))
  {
    var n := |files| - 1;
    var item := files[n];
    var put := Put(d, item.path, item.before);
    assert forall p :: p != item.path ==> Read(put, p) == Read(d, p);
    assert Read(put, item.path) == item.before;
    forall p | !Named(files[..n], p)
      ensures Read(put, p) == Read(base, p)
      ensures Read(d, item.path) == item.before ==> Read(d, p) == Read(base, p)
    {
      assert p != item.path ==> !Named(files, p) by {
        assert forall i :: 0 <= i < n ==> files[..n][i] == files[i];
      }
    }
    forall i | 0 <= i < n
      ensures files[..n][i].before == Read(base, files[..n][i].path)
      ensures Read(put, files[..n][i].path) in {files[..n][i].before, Some(files[..n][i].after)}
      ensures Read(d, files[..n][i].path) in {files[..n][i].before, Some(files[..n][i].after)}
    {
      assert files[..n][i] == files[i];
    }
    forall i | 0 <= i < |files|
      ensures Read(put, files[i].path) in {files[i].before, Some(files[i].after)}
    {
    }
    assert forall p :: !Named(files, p) ==> p != item.path;
  }

  /** Either image of a journaled file may stand there. */
  lemma PutStaysBetween(base: Disk, d: Disk, files: seq<FileImage>, item: FileImage, image: Option<Bytes>)
    requires FilesBetween(base, d, files) && item in files && image in {item.before, Some(item.after)}
    ensures FilesBetween(base, Put(d, item.path, image), files)
    ensures Put(d, item.path, image) == d.(files := Put(d, item.path, image).files)
  {
    var put := Put(d, item.path, image);
    assert forall p :: p != item.path ==> Read(put, p) == Read(d, p);
    assert forall p :: !Named(files, p) ==> p != item.path;
  }

  /** A shorter list that is consistent with base is consistent inside the longer one. */
  lemma {:induction false} RestoreRun(
    base: Disk, d: Disk, files: seq<FileImage>, todo: seq<FileImage>, env: seq<Happening>)
    requires Quiet(env) && todo <= files
    requires FilesBetween(base, d, files) && FilesBetween(base, d, todo)
    ensures var r := RunRestore(d, todo, env);
      && Quiet(r.env)
      && FilesBetween(base, r.disk, files)
      && r.disk == d.(files := r.disk.files)
      && (r.outcome.Done? || d.files == base.files ==> r.disk.files == base.files)
      && (env == [] ==> r.outcome.Done? && r.env == [])
    decreases |todo|
  {
    hide Turn;
    hide Put;
    QuietTurn(d, env);
    var t := Turn(d, env);
    if todo == [] {
      SameFiles(d, base);
    } else if t.outcome.Done? {
      var n := |todo| - 1;
      var item := todo[n];
      assert item == files[n];
      RestoreOne(base, d, todo);
      if Read(d, item.path) == item.before {
        RestoreRun(base, d, files, todo[..n], t.env);
      } else {
        var put := Put(d, item.path, item.before);
        PutStaysBetween(base, d, files, item, item.before);
        QuietTurn(d, t.env);
        if Turn(d, t.env).outcome.Done? { RestoreRun(base, put, files, todo[..n], Turn(d, t.env).env); }
      }
    }
  }

  // --------------------------------------------------------- the registry

  /** A recorded change, either way, stays between. */
  lemma ChangeStaysBetween(base: Disk, d: Disk, records: seq<Record>, r: Record, reverse: bool, live: set<string>)
    requires RegistryBetween(base.registry, d.registry, records) && r in records
    ensures var d' := RegistryChange(d, r, reverse, live).0;
      d' == d.(registry := d'.registry) && RegistryBetween(base.registry, d'.registry, records)
  {
    var d' := RegistryChange(d, r, reverse, live).0;
    forall e | e in base.registry.Keys ensures EntryBetween(base.registry, d'.registry, records, e) {
      assert EntryBetween(base.registry, d.registry, records, e);
      assert e == r.entityId && base.registry[e].identity == r.identity ==>
        Touched(records, e, base.registry[e].identity);
    }
  }

  /** Reversing a record that tells the truth about `base` can only bring an entry back. */
  lemma ReverseStaysBetween(base: Disk, d: Disk, records: seq<Record>, r: Record)
    requires RegistryBetween(base.registry, d.registry, records) && Toggles([r]) && Faithful(base.registry, [r])
    ensures var d' := RegistryChange(d, r, true, {}).0;
      && d' == d.(registry := d'.registry)
      && RegistryBetween(base.registry, d'.registry, records)
      && (d.registry == base.registry ==> d'.registry == base.registry)
      && (forall e :: e in d'.registry ==>
           d'.registry[e] == d.registry[e] || d'.registry[e] == base.registry[e])
      && (Matches(base.registry, r) && Switchable(d.registry[r.entityId].disabledBy) ==>
           d'.registry[r.entityId] == base.registry[r.entityId])
  {
    var d' := RegistryChange(d, r, true, {}).0;
    assert r in [r] && [r][0] == r;
    forall e | e in base.registry.Keys ensures EntryBetween(base.registry, d'.registry, records, e) {
      assert EntryBetween(base.registry, d.registry, records, e);
    }
    if r.entityId in d.registry { assert EntryBetween(base.registry, d.registry, records, r.entityId); }
  }

  /** Reversing the last record leaves a shorter list to reverse. */
  lemma UnregisterOne(base: Disk, d: Disk, records: seq<Record>)
    requires RegistryBetween(base.registry, d.registry, records) && records != []
    ensures var n := |records| - 1;
      RegistryBetween(base.registry, RegistryChange(d, records[n], true, {}).0.registry, records[..n])
  {
    var n := |records| - 1;
    var r := records[n];
    assert Faithful(base.registry, [r]) && Toggles([r]) by { assert r in records; }
    var d' := RegistryChange(d, r, true, {}).0;
    ReverseStaysBetween(base, d, records, r);
    forall e | e in base.registry.Keys ensures EntryBetween(base.registry, d'.registry, records[..n], e) {
      var id := base.registry[e].identity;
      assert EntryBetween(base.registry, d.registry, records, e);
      if d.registry[e] != base.registry[e] && !(e == r.entityId && id == r.identity) {
        var q :| q in records && q.entityId == e && q.identity == id;
        assert q in records[..n];
      }
      if d.registry[e] == base.registry[e] {
        assert d'.registry[e] == base.registry[e];
      } else {
        FaithfulSwitchable(base.registry, records, e);
      }
    }
  }

  lemma FaithfulSwitchable(base: Registry, records: seq<Record>, e: string)
    requires Toggles(records) && Faithful(base, records) && e in base && Touched(records, e, base[e].identity)
    ensures Switchable(base[e].disabledBy)
  {
    var r :| r in records && r.entityId == e && r.identity == base[e].identity;
    var i :| 0 <= i < |records| && records[i] == r;
    assert Matches(base, r);
  }

  /** Reversing in-memory records `todo` never hurts what the durable records `records` describe. */
  lemma {:induction false} UnregisterRun(
    base: Disk, d: Disk, records: seq<Record>, todo: seq<Record>, env: seq<Happening>)
    requires Quiet(env) && Toggles(todo) && Faithful(base.registry, todo)
    requires RegistryBetween(base.registry, d.registry, records)
    ensures var r := RunUnregister(d, todo, env);
      && Quiet(r.env)
      && RegistryBetween(base.registry, r.disk.registry, records)
      && r.disk == d.(registry := r.disk.registry)
      && (d.registry == base.registry ==> r.disk.registry == base.registry)
      && (r.outcome.Done? && RegistryBetween(base.registry, d.registry, todo) ==> r.disk.registry == base.registry)
      && (env == [] ==> r.outcome.Done? && r.env == [])
    decreases |todo|
  {
    QuietTurn(d, env);
    var t := Turn(d, env);
    if todo == [] {
      assert RegistryBetween(base.registry, d.registry, todo) ==> d.registry == base.registry by {
        if RegistryBetween(base.registry, d.registry, todo) {
          assert forall e :: e in base.registry.Keys ==> EntryBetween(base.registry, d.registry, todo, e);
        }
      }
    } else if t.outcome.Done? {
      var n := |todo| - 1;
      assert todo[n] in todo && Faithful(base.registry, [todo[n]]) && Toggles([todo[n]]);
      ReverseStaysBetween(base, d, records, todo[n]);
      if RegistryBetween(base.registry, d.registry, todo) {
        UnregisterOne(base, d, todo);
      }
      UnregisterRun(base, RegistryChange(d, todo[n], true, {}).0, records, todo[..n], t.env);
    }
  }

  // ------------------------------------------------------------- one rollback

  /** `d` is `base` with `previous` as its manifest and no pending transaction. */
  ghost predicate RestoredTo(base: Disk, previous: Option<Manifest>, d: Disk) {
    d == Disk(base.files, previous, None, base.registry)
  }

  /**
    A rollback by the journal in memory, while the durable journal may still lack its last
    records: it either reaches `base` or leaves everything recoverable.
   */
  lemma RollbackRun(base: Disk, d: Disk, j: Journal, durable: seq<Record>, env: seq<Happening>)
    requires Quiet(env) && Recoverable(base, d, j) && RegistryBetween(base.registry, d.registry, durable)
    ensures var r := RunRollback(d, j, env);
      && Quiet(r.env)
      && (r.outcome.Done? ==> RestoredTo(base, j.previous, r.disk))
      && (!r.outcome.Done? ==>
           && Recoverable(base, r.disk, j)
           && RegistryBetween(base.registry, r.disk.registry, durable)
           && r.disk.journal == d.journal
           && r.disk.manifest in {d.manifest, j.previous})
      && (d.files == base.files && d.registry == base.registry ==>
           r.disk.files == base.files && r.disk.registry == base.registry)
      && (env == [] ==> r.outcome.Done? && r.env == [])
  {
    hide Turn;
    hide RunUnregister;
    hide RunRestore;
    RestoreRun(base, d, j.files, j.files, env);
    var restored := RunRestore(d, j.files, env);
    if restored.outcome.Done? {
      QuietTurn(restored.disk, restored.env);
      var t := Turn(restored.disk, restored.env);
      if t.outcome.Done? {
        var swapped := t.disk.(manifest := j.previous);
        assert forall p :: Read(swapped, p) == Read(restored.disk, p);
        UnregisterRun(base, swapped, j.registry, j.registry, t.env);
        UnregisterRun(base, swapped, durable, j.registry, t.env);
        var reversed := RunUnregister(swapped, j.registry, t.env);
        assert forall p :: Read(reversed.disk, p) == Read(restored.disk, p);
        if reversed.outcome.Done? {
          QuietTurn(reversed.disk, reversed.env);
          var reload := Turn(reversed.disk, reversed.env);
          QuietTurn(reload.disk, reload.env);
        }
      }
    }
  }

  // ----------------------------------------------------------- one deployment

  /** Nothing pending, and the active deployment is readable. */
  predicate Stable(digest: Bytes -> Hash, d: Disk) {
    d.journal.None? && ReadPrevious(digest, d).Success?
  }

  /** The source builds the changes as a dictionary, so its paths are distinct. */
  ghost predicate ValidRequest(req: Request) {
    forall i, j :: 0 <= i < j < |Changes(req)| ==> Changes(req)[i].0 != Changes(req)[j].0
  }

  /** No rollback can have been needed yet, or the durable journal describes one that works. */
  ghost predicate Pending(base: Disk, previous: Option<Manifest>, d: Disk) {
    match d.journal
    case None =>
      d.files == base.files && d.registry == base.registry && d.manifest in {base.manifest, previous}
    case Some(j) => j.previous == previous && Recoverable(base, d, j)
  }

  /** Every file is at its after image and the manifest vouches for the generated one. */
  ghost predicate CommittedFrom(digest: Bytes -> Hash, base: Disk, req: Request, d: Disk) {
    && d.journal.None?
    && Read(d, GENERATED) == Some(req.generated)
    && (forall i :: 0 <= i < |req.activation| ==> Read(d, req.activation[i].0) == Some(req.activation[i].1))
    && (forall p :: p != GENERATED && (forall i :: 0 <= i < |req.activation| ==> req.activation[i].0 != p) ==>
          Read(d, p) == Read(base, p))
    && d.manifest.Some? && d.manifest.value.managedDigest == Some(digest(req.generated))
    && d.manifest.value.revision == req.revision
    && Stable(digest, d)
  }

  lemma {:induction false} RestorationsFaithful(retired: seq<Record>, wanted: set<string>, registry: Registry)
    ensures var records := Restorations(retired, wanted, registry);
      && Toggles(records) && Faithful(registry, records)
      && forall r :: r in records ==> r.identity in wanted && r.after == None
  {
    if retired != [] { RestorationsFaithful(retired[1..], wanted, registry); }
  }

  /** Retirements tell the truth about `base`, although they were computed after the restorations. */
  lemma {:induction false} RetirementsFaithful(
    replaced: seq<(string, string)>, wanted: set<string>, base: Registry, now: Registry, records: seq<Record>)
    requires RegistryBetween(base, now, records) && forall r :: r in records ==> r.identity in wanted
    ensures var more := Retirements(replaced, wanted, now);
      Toggles(more) && Faithful(base, more)
  {
    if replaced != [] {
      RetirementsFaithful(replaced[1..], wanted, base, now, records);
      var record := Record(replaced[0].0, replaced[0].1, None, INTEGRATION);
      if record.identity !in wanted && Matches(now, record) && now[record.entityId].disabledBy == None {
        assert EntryBetween(base, now, records, record.entityId);
      }
    }
  }

  lemma JoinRecords(base: Registry, now: Registry, records: seq<Record>, more: seq<Record>)
    requires RegistryBetween(base, now, records) && Toggles(more) && Faithful(base, more)
    ensures RegistryBetween(base, now, records + more)
  {
    forall e | e in base.Keys ensures EntryBetween(base, now, records + more, e) {
      assert EntryBetween(base, now, records, e);
      if Touched(records, e, base[e].identity) {
        var r :| r in records && r.entityId == e && r.identity == base[e].identity;
        assert r in records + more;
      }
    }
    assert forall i :: 0 <= i < |records + more| ==>
      (records + more)[i] == if i < |records| then records[i] else more[i - |records|];
  }

  lemma NewJournalRecoverable(base: Disk, previous: Option<Manifest>, req: Request)
    requires ValidRequest(req)
    ensures var j := NewJournal(base, previous, req);
      Recoverable(base, base, j) && forall r :: r in j.registry ==> r.identity in req.wanted
  {
    var j := NewJournal(base, previous, req);
    if previous.Some? { RestorationsFaithful(previous.value.retired, req.wanted, base.registry); }
    forall e | e in base.registry.Keys ensures EntryBetween(base.registry, base.registry, j.registry, e) {}
  }

  /** The first `k` journaled files are written and the others untouched. */
  ghost predicate WrittenTo(d: Disk, files: seq<FileImage>, k: int) {
    && 0 <= k <= |files|
    && (forall i :: 0 <= i < k ==> Read(d, files[i].path) == Some(files[i].after))
    && (forall i :: k <= i < |files| ==> Read(d, files[i].path) == files[i].before)
  }

  lemma {:induction false} WritesRun(base: Disk, d: Disk, files: seq<FileImage>, k: nat, env: seq<Happening>)
    requires Quiet(env) && FilesBetween(base, d, files) && WrittenTo(d, files, k)
    ensures var r := RunWrites(d, files[k..], env);
      && Quiet(r.env)
      && FilesBetween(base, r.disk, files)
      && r.disk == d.(files := r.disk.files)
      && (r.outcome.Done? ==> WrittenTo(r.disk, files, |files|))
      && (env == [] ==> r.outcome.Done? && r.env == [])
    decreases |files| - k
  {
    QuietTurn(d, env);
    var t := Turn(d, env);
    if k < |files| && t.outcome.Done? {
      var put := Put(d, files[k].path, Some(files[k].after));
      assert forall p :: p != files[k].path ==> Read(put, p) == Read(d, p);
      PutStaysBetween(base, d, files, files[k], Some(files[k].after));
      assert files[k..][1..] == files[k + 1..];
      QuietTurn(d, t.env);
      if Turn(d, t.env).outcome.Done? { WritesRun(base, put, files, k + 1, Turn(d, t.env).env); }
    }
  }

  lemma {:induction false} RegisterRun(
    base: Disk, d: Disk, records: seq<Record>, todo: seq<Record>, live: set<string>, env: seq<Happening>)
    requires Quiet(env) && (forall r :: r in todo ==> r in records)
    requires RegistryBetween(base.registry, d.registry, records)
    ensures var r := RunRegister(d, todo, live, env).0;
      && Quiet(r.env)
      && r.disk == d.(registry := r.disk.registry)
      && RegistryBetween(base.registry, r.disk.registry, records)
      && (env == [] ==> r.outcome.Done? && r.env == [])
    decreases |todo|
  {
    QuietTurn(d, env);
    var t := Turn(d, env);
    if todo != [] && t.outcome.Done? {
      ChangeStaysBetween(base, d, records, todo[0], false, live);
      RegisterRun(base, RegistryChange(d, todo[0], false, live).0, records, todo[1..], live, t.env);
    }
  }

  lemma SameReads(base: Disk, a: Disk, b: Disk, files: seq<FileImage>)
    requires FilesBetween(base, a, files) && a.files == b.files
    ensures FilesBetween(base, b, files)
  {
    assert forall p :: Read(a, p) == Read(b, p);
  }

  lemma FirstHalfRun(
    digest: Bytes -> Hash, base: Disk, previous: Option<Manifest>, req: Request, env: seq<Happening>)
    requires Quiet(env) && ValidRequest(req) && base.journal.None?
    ensures var j := NewJournal(base, previous, req);
      var r := RunFirstHalf(digest, base, j, req, env);
      && Quiet(r.env)
      && Recoverable(base, r.disk, j)
      && r.disk.registry == base.registry
      && (r.disk.journal == Some(j) || r.disk == base)
      && (r.outcome.Done? ==> WrittenTo(r.disk, j.files, |j.files|) && r.disk.journal == Some(j))
      && (env == [] ==> r.outcome.Done? && r.env == [])
  {
    var j := NewJournal(base, previous, req);
    NewJournalRecoverable(base, previous, req);
    QuietTurn(base, env);
    var journaled := RunStep(base, (x: Disk) => x.(journal := Some(j)), env);
    SameReads(base, base, journaled.disk, j.files);
    if journaled.outcome.Done? {
      QuietTurn(journaled.disk, journaled.env);
      var provisional := Manifest(Some(digest(req.generated)), [], req.revision);
      var announced := RunStep(journaled.disk, (x: Disk) => x.(manifest := Some(provisional)), journaled.env);
      SameReads(base, base, announced.disk, j.files);
      if announced.outcome.Done? {
        assert forall i :: 0 <= i < |j.files| ==> Read(announced.disk, j.files[i].path) == Read(base, j.files[i].path);
        assert j.files[0..] == j.files;
        WritesRun(base, announced.disk, j.files, 0, announced.env);
      }
    }
  }

  lemma SwitchRun(digest: Bytes -> Hash, base: Disk, d: Disk, j: Journal, req: Request, env: seq<Happening>)
    requires Quiet(env) && Recoverable(base, d, j)
    ensures var r := RunSwitch(digest, d, j, req, env);
      && Quiet(r.env)
      && Recoverable(base, r.disk, j)
      && r.disk == d.(registry := r.disk.registry)
      && (env == [] && Read(d, GENERATED) == Some(req.generated) ==> r.outcome.Done? && r.env == [])
  {
    QuietTurn(d, env);
    var validated := Turn(d, env);
    if validated.outcome.Done? {
      RegisterRun(base, validated.disk, j.registry, j.registry, req.live, validated.env);
      var enabled := RunRegister(validated.disk, j.registry, req.live, validated.env).0;
      SameReads(base, d, enabled.disk, j.files);
      if enabled.outcome.Done? {
        QuietTurn(enabled.disk, enabled.env);
        var reloaded := Turn(enabled.disk, enabled.env);
        QuietTurn(reloaded.disk, reloaded.env);
      }
    }
  }

  lemma SecondHalfRun(
    digest: Bytes -> Hash, base: Disk, d: Disk, j: Journal, retirements: seq<Record>, req: Request,
    env: seq<Happening>)
    requires Quiet(env) && Recoverable(base, d, j)
    requires Toggles(retirements) && Faithful(base.registry, retirements) && d.journal == Some(j)
    ensures var j' := j.(registry := j.registry + retirements);
      var r := RunSecondHalf(digest, d, j', retirements, req, env);
      && Quiet(r.env)
      && Recoverable(base, r.disk, j')
      && r.disk.files == d.files
      && (r.outcome.Done? ==>
           && r.disk.journal.None? && r.disk.manifest.Some?
           && r.disk.manifest.value.managedDigest == Some(digest(req.generated))
           && r.disk.manifest.value.revision == req.revision)
      && (!r.outcome.Done? ==>
           (r.disk.journal == Some(j) && Recoverable(base, r.disk, j)) || r.disk.journal == Some(j'))
      && (env == [] ==> r.outcome.Done?)
  {
    var j' := j.(registry := j.registry + retirements);
    JoinRecords(base.registry, d.registry, j.registry, retirements);
    QuietTurn(d, env);
    var extended := if retirements == [] then Run(d, Done, env)
                    else RunStep(d, (x: Disk) => x.(journal := Some(j')), env);
    assert retirements == [] ==> j' == j;
    SameReads(base, d, extended.disk, j.files);
    if extended.outcome.Done? {
      RegisterRun(base, extended.disk, j'.registry, retirements, req.live, extended.env);
      var retired := RunRegister(extended.disk, retirements, req.live, extended.env).0;
      SameReads(base, d, retired.disk, j.files);
      if retired.outcome.Done? {
        var took := RunRegister(extended.disk, retirements, req.live, extended.env).1;
        var kept := if j'.previous.None? then [] else KeptRetired(j'.previous.value.retired, req.wanted);
        var final := Manifest(Some(digest(req.generated)), kept + took, req.revision);
        QuietTurn(retired.disk, retired.env);
        var published := RunStep(retired.disk, (x: Disk) => x.(manifest := Some(final)), retired.env);
        SameReads(base, d, published.disk, j.files);
        if published.outcome.Done? {
          QuietTurn(published.disk, published.env);
          var noted := Turn(published.disk, published.env);
          QuietTurn(noted.disk, noted.env);
          SameReads(base, d, RunStep(noted.disk, (x: Disk) => x.(journal := None), noted.env).disk, j.files);
        }
      }
    }
  }

  lemma CommitIsStable(digest: Bytes -> Hash, base: Disk, d: Disk, previous: Option<Manifest>, req: Request)
    requires var j := NewJournal(base, previous, req);
      FilesBetween(base, d, j.files) && WrittenTo(d, j.files, |j.files|)
    requires d.journal.None? && d.manifest.Some?
    requires d.manifest.value.managedDigest == Some(digest(req.generated)) && d.manifest.value.revision == req.revision
    ensures CommittedFrom(digest, base, req, d)
  {
    var j := NewJournal(base, previous, req);
    assert |j.files| == |Changes(req)|;
    assert j.files[0].path == GENERATED;
    assert Read(d, GENERATED) == Some(req.generated);
    forall i | 0 <= i < |req.activation| ensures Read(d, req.activation[i].0) == Some(req.activation[i].1) {
      assert j.files[i + 1].path == req.activation[i].0 && j.files[i + 1].after == req.activation[i].1;
    }
    forall p | p != GENERATED && forall i :: 0 <= i < |req.activation| ==> req.activation[i].0 != p
      ensures Read(d, p) == Read(base, p)
    {
      forall k | 0 <= k < |j.files| ensures j.files[k].path != p {
        if k > 0 { assert j.files[k].path == req.activation[k - 1].0; }
      }
      assert !Named(j.files, p);
    }
  }

  /** One pass through the transaction: it commits, or everything it did can be taken back. */
  lemma AttemptRun(digest: Bytes -> Hash, base: Disk, previous: Option<Manifest>, req: Request, env: seq<Happening>)
    requires Quiet(env) && ValidRequest(req) && base.journal.None?
    ensures var (r, j') := RunAttempt(digest, base, NewJournal(base, previous, req), req, env);
      && Quiet(r.env)
      && j'.previous == previous
      && Recoverable(base, r.disk, j')
      && (r.outcome.Done? ==> CommittedFrom(digest, base, req, r.disk))
      && (!r.outcome.Done? ==>
           && Pending(base, previous, r.disk)
           && (r.disk.journal.Some? ==> r.disk.journal.value.files == j'.files))
      && (env == [] ==> r.outcome.Done?)
  {
    var j := NewJournal(base, previous, req);
    NewJournalRecoverable(base, previous, req);
    FirstHalfRun(digest, base, previous, req, env);
    var first := RunFirstHalf(digest, base, j, req, env);
    if first.outcome.Done? {
      assert j.files[0].path == GENERATED;
      SwitchRun(digest, base, first.disk, j, req, first.env);
      var switch := RunSwitch(digest, first.disk, j, req, first.env);
      if switch.outcome.Done? {
        var retirements := if j.previous.None? then [] else Retirements(req.replaced, req.wanted, switch.disk.registry);
        RetirementsFaithful(req.replaced, req.wanted, base.registry, switch.disk.registry, j.registry);
        SecondHalfRun(digest, base, switch.disk, j, retirements, req, switch.env);
        var (r, j') := RunAttempt(digest, base, j, req, env);
        if r.outcome.Done? {
          assert forall p :: Read(r.disk, p) == Read(first.disk, p);
          CommitIsStable(digest, base, r.disk, previous, req);
        }
      }
    }
  }

  /** All or nothing for one transaction, whatever fails and wherever the process stops. */
  lemma TransactionRun(
    digest: Bytes -> Hash, base: Disk, previous: Option<Manifest>, req: Request, env: seq<Happening>)
    requires Quiet(env) && ValidRequest(req) && base.journal.None?
    ensures var r := RunTransaction(digest, base, NewJournal(base, previous, req), req, env);
      && Quiet(r.env)
      && r.verdict != Refused
      && (r.verdict == Committed ==> CommittedFrom(digest, base, req, r.disk))
      && (r.verdict == RolledBack ==> RestoredTo(base, previous, r.disk))
      && (r.verdict in {RollbackFailed, Interrupted} ==> Pending(base, previous, r.disk))
      && (env == [] ==> r.verdict == Committed)
  {
    AttemptRun(digest, base, previous, req, env);
    var (attempt, j') := RunAttempt(digest, base, NewJournal(base, previous, req), req, env);
    if attempt.outcome.Failed? {
      var durable := if attempt.disk.journal.Some? then attempt.disk.journal.value.registry else j'.registry;
      RollbackRun(base, attempt.disk, j', durable, attempt.env);
    }
  }

  // -------------------------------------------------------------- whole runs

  /** What a rollback or a start-up recovery does with a pending transaction. */
  lemma RecoverRun(digest: Bytes -> Hash, base: Disk, previous: Option<Manifest>, d: Disk, env: seq<Happening>)
    requires Quiet(env) && Stable(digest, base) && previous == ReadPrevious(digest, base).value
    requires Pending(base, previous, d)
    ensures var r := RunRecover(d, env);
      && Quiet(r.env)
      && Pending(base, previous, r.disk)
      && (r.outcome.Done? ==>
           r.disk.journal.None? && Stable(digest, r.disk)
           && ReadPrevious(digest, r.disk) == ReadPrevious(digest, base))
      && (env == [] ==> r.outcome.Done? && r.env == [])
  {
    if d.journal.Some? {
      RollbackRun(base, d, d.journal.value, d.journal.value.registry, env);
      var r := RunRecover(d, env);
      if r.outcome.Done? { assert Read(r.disk, GENERATED) == Read(base, GENERATED); }
    } else {
      assert Read(d, GENERATED) == Read(base, GENERATED);
    }
  }

  datatype Event = Deploy(req: Request, env: seq<Happening>) | Recover(env: seq<Happening>)

  function After(digest: Bytes -> Hash, d: Disk, event: Event): Disk {
    match event
    case Deploy(req, env) => RunDeploy(digest, d, req, env).disk
    case Recover(env) => RunRecover(d, env).disk
  }

  /** The last site state that was meant to last: a commit moves it, nothing else does. */
  function Settled(digest: Bytes -> Hash, settled: Disk, d: Disk, event: Event): Disk {
    match event
    case Deploy(req, env) =>
      var r := RunDeploy(digest, d, req, env);
      if r.verdict == Committed then r.disk else settled
    case Recover(env) => settled
  }

  function Play(digest: Bytes -> Hash, settled: Disk, d: Disk, events: seq<Event>): (Disk, Disk)
    decreases |events|
  {
    if events == [] then (settled, d)
    else
      Play(digest, Settled(digest, settled, d, events[0]), After(digest, d, events[0]), events[1..])
  }

  ghost predicate QuietEvents(events: seq<Event>) {
    forall i :: 0 <= i < |events| ==> Quiet(events[i].env) && (events[i].Deploy? ==> ValidRequest(events[i].req))
  }

  /** The state belongs to the settled site, or a journal says how to get back to it. */
  ghost predicate Safe(digest: Bytes -> Hash, settled: Disk, d: Disk) {
    Stable(digest, settled) && Pending(settled, ReadPrevious(digest, settled).value, d)
  }

  /** With nothing pending, what is on disk is exactly the settled site. */
  lemma SafeWithoutJournal(digest: Bytes -> Hash, settled: Disk, d: Disk)
    requires Safe(digest, settled, d) && d.journal.None?
    ensures d.files == settled.files && d.registry == settled.registry
    ensures Stable(digest, d) && ReadPrevious(digest, d) == ReadPrevious(digest, settled)
  {
    assert Read(d, GENERATED) == Read(settled, GENERATED);
  }

  /** The journal and the images do not care which of two equal sites they started from. */
  lemma PendingFromCopy(base: Disk, copy: Disk, previous: Option<Manifest>, d: Disk)
    requires Pending(copy, previous, d)
    requires copy.files == base.files && copy.registry == base.registry && copy.manifest in {base.manifest, previous}
    ensures Pending(base, previous, d)
  {
    if d.journal.Some? {
      assert forall p :: Read(copy, p) == Read(base, p);
    }
  }

  lemma CommittedFromCopy(digest: Bytes -> Hash, base: Disk, copy: Disk, req: Request, d: Disk)
    requires CommittedFrom(digest, copy, req, d) && copy.files == base.files
    ensures CommittedFrom(digest, base, req, d)
  {
    assert forall p :: Read(copy, p) == Read(base, p);
  }

  /** A deployment from a copy of the settled site with nothing pending. */
  lemma ClearedRun(digest: Bytes -> Hash, settled: Disk, copy: Disk, req: Request, env: seq<Happening>)
    requires Quiet(env) && ValidRequest(req) && Safe(digest, settled, copy) && copy.journal.None?
    ensures var previous := ReadPrevious(digest, settled).value;
      var r := RunTransaction(digest, copy, NewJournal(copy, previous, req), req, env);
      && Quiet(r.env)
      && (r.verdict == Committed ==> CommittedFrom(digest, settled, req, r.disk))
      && (r.verdict != Committed ==> Safe(digest, settled, r.disk))
      && (r.verdict == RolledBack ==> r.disk.journal.None?)
      && (env == [] ==> r.verdict == Committed)
  {
    var previous := ReadPrevious(digest, settled).value;
    TransactionRun(digest, copy, previous, req, env);
    var r := RunTransaction(digest, copy, NewJournal(copy, previous, req), req, env);
    if r.verdict == Committed {
      CommittedFromCopy(digest, settled, copy, req, r.disk);
    } else if r.verdict != RolledBack {
      PendingFromCopy(settled, copy, previous, r.disk);
    }
  }

  /** A deployment either commits the new site or leaves the settled one reachable. */
  lemma DeployRun(digest: Bytes -> Hash, settled: Disk, d: Disk, req: Request, env: seq<Happening>)
    requires Quiet(env) && ValidRequest(req) && Safe(digest, settled, d)
    ensures var r := RunDeploy(digest, d, req, env);
      && Quiet(r.env)
      && (r.verdict == Committed ==> CommittedFrom(digest, settled, req, r.disk))
      && (r.verdict != Committed ==> Safe(digest, settled, r.disk))
      && (r.verdict == RolledBack ==> r.disk.journal.None?)
      && (env == [] ==> r.verdict == Committed)
  {
    hide CommittedFrom;
    hide RunTransaction;
    hide RunRollback;
    var previous := ReadPrevious(digest, settled).value;
    RecoverRun(digest, settled, previous, d, env);
    var cleared := RunRecover(d, env);
    if cleared.outcome.Done? {
      assert cleared.disk.journal.None? && Safe(digest, settled, cleared.disk);
      SafeWithoutJournal(digest, settled, cleared.disk);
      ClearedRun(digest, settled, cleared.disk, req, cleared.env);
    }
  }

  /**
    Crash atomicity. Play any sequence of deployments and recoveries, each cut short or made
    to fail wherever the environment likes: the disk is always the last committed site, or a
    journal is pending that recovers exactly that site, and a recovery nobody disturbs does so.
   */
  lemma {:induction false} EveryRunIsSafe(digest: Bytes -> Hash, settled: Disk, d: Disk, events: seq<Event>)
    requires QuietEvents(events) && Safe(digest, settled, d)
    ensures var (settled', d') := Play(digest, settled, d, events);
      && Safe(digest, settled', d')
      && (d'.journal.None? ==> d'.files == settled'.files && d'.registry == settled'.registry
                                && ReadPrevious(digest, d') == ReadPrevious(digest, settled'))
      && var undisturbed := RunRecover(d', []);
         && undisturbed.outcome.Done?
         && undisturbed.disk.journal.None?
         && undisturbed.disk.files == settled'.files
         && undisturbed.disk.registry == settled'.registry
         && ReadPrevious(digest, undisturbed.disk) == ReadPrevious(digest, settled')
    decreases |events|
  {
    if events == [] {
      RecoverRun(digest, settled, ReadPrevious(digest, settled).value, d, []);
      SafeWithoutJournal(digest, settled, RunRecover(d, []).disk);
      if d.journal.None? { SafeWithoutJournal(digest, settled, d); }
    } else {
      match events[0] {
        case Deploy(req, env) =>
          assert events[0].Deploy? && Quiet(env) && ValidRequest(req);
          DeployRun(digest, settled, d, req, env);
        case Recover(env) =>
          assert Quiet(events[0].env);
          RecoverRun(digest, settled, ReadPrevious(digest, settled).value, d, env);
      }
      EveryRunIsSafe(digest, Settled(digest, settled, d, events[0]), After(digest, d, events[0]), events[1..]);
    }
  }
}
