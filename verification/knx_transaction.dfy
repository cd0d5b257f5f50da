/**
  The KNX deployment transaction: a journal with before and after images of every file it
  touches, compare-and-swap writes, registry changes that join the same journal, and a
  recovery that can itself be interrupted.

  Between two atomic operations the environment takes a turn. It may let the operation go on,
  make it fail (an exception in the process), stop the process (a crash), or change a file or
  a registry entry behind the transaction's back.
 */
module KnxTransaction {
  import opened Common

  type Path = string
  type Hash = string

  const GENERATED: Path := ".rexlite_knx/entities.yaml"
  const INTEGRATION: Option<string> := Some("integration")

  /** A registry change; `before` and `after` are values of the entry's `disabled_by`. */
  datatype Record = Record(entityId: string, identity: string, before: Option<string>, after: Option<string>)

  datatype RegistryEntry = RegistryEntry(identity: string, disabledBy: Option<string>)

  type Registry = map<string, RegistryEntry>

  datatype FileImage = FileImage(path: Path, before: Option<Bytes>, after: Bytes)

  /** `revision` stands for everything in a manifest the transaction does not read. */
  datatype Manifest = Manifest(managedDigest: Option<Hash>, retired: seq<Record>, revision: int)

  datatype Journal = Journal(previous: Option<Manifest>, files: seq<FileImage>, registry: seq<Record>)

  /** Everything that outlives the process. */
  datatype Disk = Disk(
    files: map<Path, Bytes>, manifest: Option<Manifest>, journal: Option<Journal>, registry: Registry)

  datatype Happening =
    | Fine
    | Fails
    | Crashes
    | Edited(path: Path, image: Option<Bytes>)
    | Reassigned(entityId: string, disabledBy: Option<string>)

  datatype Outcome = Done | Failed | Crashed

  datatype Run = Run(disk: Disk, outcome: Outcome, env: seq<Happening>)

  function Read(d: Disk, p: Path): Option<Bytes> {
    if p in d.files then Some(d.files[p]) else None
  }

  function Put(d: Disk, p: Path, image: Option<Bytes>): Disk {
    d.(files := match image case None => d.files - {p} case Some(data) => d.files[p := data])
  }

  function Reassign(d: Disk, e: string, value: Option<string>): Disk {
    if e in d.registry then d.(registry := d.registry[e := d.registry[e].(disabledBy := value)]) else d
  }

  /** The environment's turn before an atomic operation; `Done` lets the operation go on. */
  function Turn(d: Disk, env: seq<Happening>): Run
    decreases |env|
  {
    if env == [] then Run(d, Done, [])
    else match env[0]
      case Fine => Run(d, Done, env[1..])
      case Fails => Run(d, Failed, env[1..])
      case Crashes => Run(d, Crashed, env[1..])
      case Edited(p, image) => Turn(Put(d, p, image), env[1..])
      case Reassigned(e, value) => Turn(Reassign(d, e, value), env[1..])
  }

  predicate Matches(registry: Registry, record: Record) {
    record.entityId in registry && registry[record.entityId].identity == record.identity
  }

  /** Compare-and-swap of one disabler. `live` holds the entities the forward retirement guard protects. */
  function RegistryChange(d: Disk, record: Record, reverse: bool, live: set<string>): (Disk, bool) {
    if !Matches(d.registry, record) then (d, false)
    else
      var (from, to) := if reverse then (record.after, record.before) else (record.before, record.after);
      var current := d.registry[record.entityId].disabledBy;
      if current != from && current != to then (d, false)
      else if !reverse && to == INTEGRATION && from == None && record.entityId in live then (d, false)
      else (Reassign(d, record.entityId, to), true)
  }

  // ---------------------------------------------------------------- rollback

  /** Write an image that a comparison let through; the environment has its turn between the two. */
  function RunWrite(d: Disk, p: Path, image: Option<Bytes>, env: seq<Happening>): Run {
    var t := Turn(d, env);
    if t.outcome.Done? then t.(disk := Put(t.disk, p, image)) else t
  }

  /** Put the files back, last one first. */
  function RunRestore(d: Disk, files: seq<FileImage>, env: seq<Happening>): Run
    decreases |files|
  {
    if files == [] then Run(d, Done, env)
    else
      var t := Turn(d, env);
      var item := files[|files| - 1];
      if !t.outcome.Done? then t
      else if Read(t.disk, item.path) == item.before then RunRestore(t.disk, files[..|files| - 1], t.env)
      else if Read(t.disk, item.path) != Some(item.after) then Run(t.disk, Failed, t.env)
      else
        var w := RunWrite(t.disk, item.path, item.before, t.env);
        if w.outcome.Done? then RunRestore(w.disk, files[..|files| - 1], w.env) else w
  }

  /** Reverse the registry changes, last one first. */
  function RunUnregister(d: Disk, records: seq<Record>, env: seq<Happening>): Run
    decreases |records|
  {
    if records == [] then Run(d, Done, env)
    else
      var t := Turn(d, env);
      if !t.outcome.Done? then t
      else
        RunUnregister(RegistryChange(t.disk, records[|records| - 1], true, {}).0, records[..|records| - 1], t.env)
  }

  function RunRollback(d: Disk, j: Journal, env: seq<Happening>): Run {
    var restored := RunRestore(d, j.files, env);
    if !restored.outcome.Done? then restored
    else
      var t := Turn(restored.disk, restored.env);
      if !t.outcome.Done? then t
      else
        var reversed := RunUnregister(t.disk.(manifest := j.previous), j.registry, t.env);
        if !reversed.outcome.Done? then reversed else RunConclude(reversed.disk, reversed.env)
  }

  /** Reload the config entry, then forget the journal. */
  function RunConclude(d: Disk, env: seq<Happening>): Run {
    var reload := Turn(d, env);
    if !reload.outcome.Done? then reload
    else
      var clear := Turn(reload.disk, reload.env);
      if clear.outcome.Done? then clear.(disk := clear.disk.(journal := None)) else clear
  }

  // ------------------------------------------------------------- deployment

  /** The deployment's inputs that other components compute. */
  datatype Request = Request(
    revision: int, generated: Bytes, activation: seq<(Path, Bytes)>,
    wanted: set<string>, replaced: seq<(string, string)>, live: set<string>)

  datatype ReadError = ModifiedExternally | Unowned

  /** The active deployment, or none; a mismatch with the generated file is an error. */
  function ReadPrevious(digest: Bytes -> Hash, d: Disk): Result<Option<Manifest>, ReadError> {
    var previous := if d.manifest.Some? && d.manifest.value.managedDigest.Some? then d.manifest else None;
    var generated := Read(d, GENERATED);
    if previous.Some? && (generated.None? || Some(digest(generated.value)) != previous.value.managedDigest)
    then Failure(ModifiedExternally)
    else if generated.Some? && previous.None? then Failure(Unowned)
    else Success(previous)
  }

  /** Re-enable exactly the identities this writer retired and the plan wants again. */
  function Restorations(retired: seq<Record>, wanted: set<string>, registry: Registry): seq<Record> {
    if retired == [] then []
    else
      var rest := Restorations(retired[1..], wanted, registry);
      var item := retired[0];
      if item.identity in wanted && Matches(registry, item) && registry[item.entityId].disabledBy == INTEGRATION
      then [item.(before := INTEGRATION, after := None)] + rest
      else rest
  }

  /** Retire replaced entities that the new plan does not use and that are still enabled. */
  function Retirements(replaced: seq<(string, string)>, wanted: set<string>, registry: Registry): seq<Record> {
    if replaced == [] then []
    else
      var rest := Retirements(replaced[1..], wanted, registry);
      var record := Record(replaced[0].0, replaced[0].1, None, INTEGRATION);
      if record.identity !in wanted && Matches(registry, record) && registry[record.entityId].disabledBy == None
      then [record] + rest
      else rest
  }

  function Images(d: Disk, changes: seq<(Path, Bytes)>): (images: seq<FileImage>)
    ensures |images| == |changes|
    ensures forall i :: 0 <= i < |images| ==>
      images[i] == FileImage(changes[i].0, Read(d, changes[i].0), changes[i].1)
  {
    seq(|changes|, i requires 0 <= i < |changes| => FileImage(changes[i].0, Read(d, changes[i].0), changes[i].1))
  }

  function Changes(req: Request): seq<(Path, Bytes)> { [(GENERATED, req.generated)] + req.activation }

  function NewJournal(d: Disk, previous: Option<Manifest>, req: Request): Journal {
    Journal(previous, Images(d, Changes(req)),
            if previous.None? then [] else Restorations(previous.value.retired, req.wanted, d.registry))
  }

  /** Write one image over `expected`: compare, and then write. */
  function RunSwap(d: Disk, p: Path, expected: Option<Bytes>, image: Option<Bytes>, env: seq<Happening>): Run {
    var t := Turn(d, env);
    if !t.outcome.Done? then t
    else if Read(t.disk, p) != expected then Run(t.disk, Failed, t.env)
    else RunWrite(t.disk, p, image, t.env)
  }

  /** Write the after images; each write needs the recorded before image in place. */
  function RunWrites(d: Disk, files: seq<FileImage>, env: seq<Happening>): Run
    decreases |files|
  {
    if files == [] then Run(d, Done, env)
    else
      var w := RunSwap(d, files[0].path, files[0].before, Some(files[0].after), env);
      if w.outcome.Done? then RunWrites(w.disk, files[1..], w.env) else w
  }

  /** Apply registry changes in order and say which ones took. */
  function RunRegister(d: Disk, records: seq<Record>, live: set<string>, env: seq<Happening>): (Run, seq<Record>)
    decreases |records|
  {
    if records == [] then (Run(d, Done, env), [])
    else
      var t := Turn(d, env);
      if !t.outcome.Done? then (t, [])
      else
        var (changed, took) := RegistryChange(t.disk, records[0], false, live);
        var (run, rest) := RunRegister(changed, records[1..], live, t.env);
        (run, if took then [records[0]] + rest else rest)
  }

  /** An operation that changes `disk` to `to` when the environment lets it. */
  function RunStep(d: Disk, change: Disk -> Disk, env: seq<Happening>): Run {
    var t := Turn(d, env);
    if t.outcome.Done? then t.(disk := change(t.disk)) else t
  }

  /** Journal, provisional manifest, then the files. */
  function RunFirstHalf(digest: Bytes -> Hash, d: Disk, j: Journal, req: Request, env: seq<Happening>): Run {
    var journaled := RunStep(d, (x: Disk) => x.(journal := Some(j)), env);
    if !journaled.outcome.Done? then journaled
    else
      var provisional := Manifest(Some(digest(req.generated)), [], req.revision);
      var announced := RunStep(journaled.disk, (x: Disk) => x.(manifest := Some(provisional)), journaled.env);
      if !announced.outcome.Done? then announced
      else RunWrites(announced.disk, j.files, announced.env)
  }

  /** Validate, restore retired entities, reload and verify what is on disk. */
  function RunSwitch(digest: Bytes -> Hash, d: Disk, j: Journal, req: Request, env: seq<Happening>): Run {
    var validated := Turn(d, env);
    if !validated.outcome.Done? then validated
    else
      var enabled := RunRegister(validated.disk, j.registry, req.live, validated.env).0;
      if !enabled.outcome.Done? then enabled
      else
        var reloaded := Turn(enabled.disk, enabled.env);
        if !reloaded.outcome.Done? then reloaded
        else
          var verified := Turn(reloaded.disk, reloaded.env);
          if !verified.outcome.Done? then verified
          else
            var generated := Read(verified.disk, GENERATED);
            if generated.None? || digest(generated.value) != digest(req.generated)
            then verified.(outcome := Failed)
            else verified
  }

  /** Retire replaced entities under the extended journal, then publish the final manifest. */
  function RunSecondHalf(
    digest: Bytes -> Hash, d: Disk, j: Journal, retirements: seq<Record>, req: Request, env: seq<Happening>): Run
  {
    var extended := if retirements == [] then Run(d, Done, env)
                    else RunStep(d, (x: Disk) => x.(journal := Some(j)), env);
    if !extended.outcome.Done? then extended
    else
      var (retired, took) := RunRegister(extended.disk, retirements, req.live, extended.env);
      if !retired.outcome.Done? then retired
      else
        var kept := if j.previous.None? then [] else KeptRetired(j.previous.value.retired, req.wanted);
        var final := Manifest(Some(digest(req.generated)), kept + took, req.revision);
        var published := RunStep(retired.disk, (x: Disk) => x.(manifest := Some(final)), retired.env);
        if !published.outcome.Done? then published
        else
          var noted := Turn(published.disk, published.env);
          if !noted.outcome.Done? then noted
          else RunStep(noted.disk, (x: Disk) => x.(journal := None), noted.env)
  }

  function KeptRetired(retired: seq<Record>, wanted: set<string>): seq<Record> {
    if retired == [] then []
    else (if retired[0].identity in wanted then [] else [retired[0]]) + KeptRetired(retired[1..], wanted)
  }

  /** One pass through the transaction, with the journal as it is in memory at the end. */
  function RunAttempt(digest: Bytes -> Hash, d: Disk, j: Journal, req: Request, env: seq<Happening>): (Run, Journal) {
    var first := RunFirstHalf(digest, d, j, req, env);
    if !first.outcome.Done? then (first, j)
    else
      var switch := RunSwitch(digest, first.disk, j, req, first.env);
      if !switch.outcome.Done? then (switch, j)
      else
        var retirements := if j.previous.None? then [] else Retirements(req.replaced, req.wanted, switch.disk.registry);
        var j' := j.(registry := j.registry + retirements);
        (RunSecondHalf(digest, switch.disk, j', retirements, req, switch.env), j')
  }

  datatype Verdict = Committed | RolledBack | RollbackFailed | Refused | Interrupted

  datatype Deployment = Deployment(disk: Disk, verdict: Verdict, env: seq<Happening>)

  function RunDeploy(digest: Bytes -> Hash, d: Disk, req: Request, env: seq<Happening>): Deployment {
    var cleared := if d.journal.None? then Run(d, Done, env) else RunRollback(d, d.journal.value, env);
    if cleared.outcome.Crashed? then Deployment(cleared.disk, Interrupted, cleared.env)
    else if cleared.outcome.Failed? then Deployment(cleared.disk, Refused, cleared.env)
    else
      var previous := ReadPrevious(digest, cleared.disk);
      if previous.Failure? then Deployment(cleared.disk, Refused, cleared.env)
      else RunTransaction(digest, cleared.disk, NewJournal(cleared.disk, previous.value, req), req, cleared.env)
  }

  function RunTransaction(
    digest: Bytes -> Hash, d: Disk, j: Journal, req: Request, env: seq<Happening>): Deployment
  {
    var (attempt, j') := RunAttempt(digest, d, j, req, env);
    match attempt.outcome
    case Done => Deployment(attempt.disk, Committed, attempt.env)
    case Crashed => Deployment(attempt.disk, Interrupted, attempt.env)
    case Failed =>
      var undo := RunRollback(attempt.disk, j', attempt.env);
      Deployment(undo.disk,
                 match undo.outcome case Done => RolledBack case Failed => RollbackFailed case Crashed => Interrupted,
                 undo.env)
  }

  /** Recovery at start-up. */
  function RunRecover(d: Disk, env: seq<Happening>): Run {
    if d.journal.None? then Run(d, Done, env) else RunRollback(d, d.journal.value, env)
  }
}
