/** The deployer as the program runs it: fields updated step by step, loops over the journal. */
module KnxDeployer {
  import opened Common
  import opened KnxTransaction

  class ProjectDeployer {
    const digest: Bytes -> Hash
    var files: map<Path, Bytes>
    var manifest: Option<Manifest>
    var journal: Option<Journal>
    var registry: Registry
    /** What the environment will do, one operation after the other. */
    var env: seq<Happening>

    constructor (digest: Bytes -> Hash, disk: Disk, env: seq<Happening>)
      ensures this.digest == digest && OnDisk() == disk && this.env == env
    {
      this.digest := digest;
      files, manifest, journal, registry := disk.files, disk.manifest, disk.journal, disk.registry;
      this.env := env;
    }

    function OnDisk(): Disk
      reads this
    {
      Disk(files, manifest, journal, registry)
    }

    /** Let the environment act before the next atomic operation. */
    method Await() returns (outcome: Outcome)
      modifies this
      ensures Run(OnDisk(), outcome, env) == Turn(old(OnDisk()), old(env))
    {
      while env != [] && (env[0].Edited? || env[0].Reassigned?)
        invariant Turn(OnDisk(), env) == Turn(old(OnDisk()), old(env))
        decreases |env|
      {
        match env[0] {
          case Edited(p, image) =>
            files := Put(OnDisk(), p, image).files;
          case Reassigned(e, value) =>
            registry := Reassign(OnDisk(), e, value).registry;
        }
        env := env[1..];
      }
      outcome := Done;
      if env != [] {
        outcome := if env[0].Fails? then Failed else if env[0].Crashes? then Crashed else Done;
        env := env[1..];
      }
    }

    method ChangeEntry(record: Record, reverse: bool, live: set<string>) returns (took: bool)
      modifies this`registry
      ensures (OnDisk(), took) == RegistryChange(old(OnDisk()), record, reverse, live)
    {
      if !Matches(registry, record) {
        return false;
      }
      var before, after := record.before, record.after;
      if reverse {
        before, after := after, before;
      }
      var current := registry[record.entityId].disabledBy;
      if current != before && current != after {
        return false;
      }
      if !reverse && after == INTEGRATION && before == None && record.entityId in live {
        return false;
      }
      registry := registry[record.entityId := registry[record.entityId].(disabledBy := after)];
      return true;
    }

    method RestoreFiles(images: seq<FileImage>) returns (outcome: Outcome)
      modifies this
      ensures Run(OnDisk(), outcome, env) == RunRestore(old(OnDisk()), images, old(env))
    {
      var i := |images|;
      assert images[..i] == images;
      while i > 0
        invariant 0 <= i <= |images|
        invariant RunRestore(OnDisk(), images[..i], env) == RunRestore(old(OnDisk()), images, old(env))
      {
        assert images[..i][..i - 1] == images[..i - 1];
        var item := images[i - 1];
        outcome := Await();
        if !outcome.Done? { return; }
        var current := Read(OnDisk(), item.path);
        if current != item.before {
          if current != Some(item.after) {
            return Failed;
          }
          outcome := Await();
          if !outcome.Done? { return; }
          files := Put(OnDisk(), item.path, item.before).files;
        }
        i := i - 1;
      }
      outcome := Done;
    }

    method Rollback(j: Journal) returns (outcome: Outcome)
      modifies this
      ensures Run(OnDisk(), outcome, env) == RunRollback(old(OnDisk()), j, old(env))
    {
      outcome := RestoreFiles(j.files);
      if !outcome.Done? { return; }
      outcome := Await();
      if !outcome.Done? { return; }
      manifest := j.previous;
      ghost var from, script := OnDisk(), env;
      var i := |j.registry|;
      assert j.registry[..i] == j.registry;
      while i > 0
        invariant 0 <= i <= |j.registry|
        invariant RunUnregister(OnDisk(), j.registry[..i], env) == RunUnregister(from, j.registry, script)
      {
        assert j.registry[..i][..i - 1] == j.registry[..i - 1];
        outcome := Await();
        if !outcome.Done? { return; }
        var _ := ChangeEntry(j.registry[i - 1], true, {});
        i := i - 1;
      }
      outcome := Await();
      if !outcome.Done? { return; }
      outcome := Await();
      if outcome.Done? { journal := None; }
    }

    method Recover() returns (outcome: Outcome)
      modifies this
      ensures Run(OnDisk(), outcome, env) == RunRecover(old(OnDisk()), old(env))
    {
      outcome := Done;
      if journal.Some? {
        outcome := Rollback(journal.value);
      }
    }

    method WriteFiles(images: seq<FileImage>) returns (outcome: Outcome)
      modifies this
      ensures Run(OnDisk(), outcome, env) == RunWrites(old(OnDisk()), images, old(env))
    {
      for i := 0 to |images|
        invariant RunWrites(OnDisk(), images[i..], env) == RunWrites(old(OnDisk()), images, old(env))
      {
        assert images[i..][1..] == images[i + 1..];
        outcome := Await();
        if !outcome.Done? { return; }
        if Read(OnDisk(), images[i].path) != images[i].before {
          return Failed;
        }
        outcome := Await();
        if !outcome.Done? { return; }
        files := files[images[i].path := images[i].after];
      }
      outcome := Done;
    }

    method ChangeEntries(records: seq<Record>, live: set<string>) returns (outcome: Outcome, took: seq<Record>)
      modifies this
      ensures (Run(OnDisk(), outcome, env), took) == RunRegister(old(OnDisk()), records, live, old(env))
    {
      took := [];
      assert records[0..] == records;
      assert forall s: seq<Record> :: [] + s == s;
      for i := 0 to |records|
        invariant var (run, rest) := RunRegister(OnDisk(), records[i..], live, env);
          (run, took + rest) == RunRegister(old(OnDisk()), records, live, old(env))
      {
        assert records[i..][1..] == records[i + 1..] && took + [] == took;
        outcome := Await();
        if !outcome.Done? { return; }
        var changed := ChangeEntry(records[i], false, live);
        ghost var rest := RunRegister(OnDisk(), records[i + 1..], live, env).1;
        assert took + ([records[i]] + rest) == (took + [records[i]]) + rest;
        if changed { took := took + [records[i]]; }
      }
      assert took + [] == took;
      outcome := Done;
    }

    /** The transaction proper; also returns the journal as it is in memory. */
    method Attempt(first: Journal, req: Request) returns (outcome: Outcome, j: Journal)
      modifies this
      ensures (Run(OnDisk(), outcome, env), j) == RunAttempt(digest, old(OnDisk()), first, req, old(env))
    {
      j := first;
      outcome := FirstHalf(j, req);
      if !outcome.Done? { return; }
      outcome := Switch(j, req);
      if !outcome.Done? { return; }
      var retirements := if j.previous.None? then [] else Retirements(req.replaced, req.wanted, registry);
      j := j.(registry := j.registry + retirements);
      outcome := SecondHalf(j, retirements, req);
    }

    method FirstHalf(j: Journal, req: Request) returns (outcome: Outcome)
      modifies this
      ensures Run(OnDisk(), outcome, env) == RunFirstHalf(digest, old(OnDisk()), j, req, old(env))
    {
      outcome := Await();
      if !outcome.Done? { return; }
      journal := Some(j);
      outcome := Await();
      if !outcome.Done? { return; }
      manifest := Some(Manifest(Some(digest(req.generated)), [], req.revision));
      outcome := WriteFiles(j.files);
    }

    method Switch(j: Journal, req: Request) returns (outcome: Outcome)
      modifies this
      ensures Run(OnDisk(), outcome, env) == RunSwitch(digest, old(OnDisk()), j, req, old(env))
    {
      outcome := Await();
      if !outcome.Done? { return; }
      var enabled;
      outcome, enabled := ChangeEntries(j.registry, req.live);
      if !outcome.Done? { return; }
      outcome := Await();
      if !outcome.Done? { return; }
      outcome := Await();
      if !outcome.Done? { return; }
      if GENERATED !in files || digest(files[GENERATED]) != digest(req.generated) {
        outcome := Failed;
      }
    }

    method SecondHalf(j: Journal, retirements: seq<Record>, req: Request) returns (outcome: Outcome)
      modifies this
      ensures Run(OnDisk(), outcome, env) == RunSecondHalf(digest, old(OnDisk()), j, retirements, req, old(env))
    {
      if retirements != [] {
        outcome := Await();
        if !outcome.Done? { return; }
        journal := Some(j);
      }
      var took;
      outcome, took := ChangeEntries(retirements, req.live);
      if !outcome.Done? { return; }
      var kept := if j.previous.None? then [] else KeptRetired(j.previous.value.retired, req.wanted);
      outcome := Await();
      if !outcome.Done? { return; }
      manifest := Some(Manifest(Some(digest(req.generated)), kept + took, req.revision));
      outcome := Await();
      if !outcome.Done? { return; }
      outcome := Await();
      if outcome.Done? { journal := None; }
    }

    method Deploy(req: Request) returns (verdict: Verdict)
      modifies this
      ensures Deployment(OnDisk(), verdict, env) == RunDeploy(digest, old(OnDisk()), req, old(env))
    {
      if journal.Some? {
        var cleared := Rollback(journal.value);
        if !cleared.Done? {
          return if cleared.Crashed? then Interrupted else Refused;
        }
      }
      var previous := ReadPrevious(digest, OnDisk());
      if previous.Failure? {
        return Refused;
      }
      var outcome, j := Attempt(NewJournal(OnDisk(), previous.value, req), req);
      if outcome.Failed? {
        outcome := Rollback(j);
        return match outcome case Done => RolledBack case Failed => RollbackFailed case Crashed => Interrupted;
      }
      return if outcome.Done? then Committed else Interrupted;
    }
  }
}
