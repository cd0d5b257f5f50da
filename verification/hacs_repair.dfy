/** The reversible icon repair: originals are kept before any file is replaced, and every stop can be resumed. */
module HacsRepair {
  import opened Common

  type Name = string

  /** A bundle is a script and its compressed copy. */
  datatype File = Script(name: Name) | Packed(name: Name)

  datatype Store = Store(targets: map<File, Bytes>, backups: map<File, Bytes>)

  /** What the repair knows of the release: digests, the edit of a recognized script, and compression. */
  datatype Release = Release(
    names: seq<Name>, expected: map<Name, Bytes>, digest: Bytes -> Bytes, patch: Bytes -> Option<Bytes>,
    pack: Bytes -> Bytes, unpack: Bytes -> Option<Bytes>)

  datatype Change = Change(file: File, original: Bytes, target: Bytes)

  datatype Refusal = Missing | Unrecognized | Modified

  // ---------------------------------------------------------------------- checking

  function Original(store: Store, file: File): Bytes
    requires file in store.targets
  {
    if file in store.backups then store.backups[file] else store.targets[file]
  }

  /** Check one bundle and its compressed copy, and say what each should become. */
  function CheckBundle(release: Release, store: Store, name: Name, restore: bool): Result<seq<Change>, Refusal> {
    if Script(name) !in store.targets || Packed(name) !in store.targets || name !in release.expected then
      Failure(Missing)
    else
      var original := Original(store, Script(name));
      if release.digest(original) != release.expected[name] || release.patch(original).None? then Failure(Unrecognized)
      else
        var patched := release.patch(original).value;
        var packed := Original(store, Packed(name));
        var current := release.unpack(store.targets[Packed(name)]);
        if store.targets[Script(name)] != original && store.targets[Script(name)] != patched then Failure(Modified)
        else if release.unpack(packed) != Some(original) then Failure(Unrecognized)
        else if current != Some(original) && current != Some(patched) then Failure(Modified)
        else
          Success([Change(Script(name), original, if restore then original else patched),
                   Change(Packed(name), packed, if restore then packed else release.pack(patched))])
  }

  function Check(release: Release, store: Store, names: seq<Name>, restore: bool): Result<seq<Change>, Refusal> {
    if names == [] then Success([])
    else
      match CheckBundle(release, store, names[0], restore)
      case Failure(refusal) => Failure(refusal)
      case Success(changes) =>
        match Check(release, store, names[1..], restore)
        case Failure(refusal) => Failure(refusal)
        case Success(more) => Success(changes + more)
  }

  function Pending(store: Store, changes: seq<Change>): seq<Change> {
    if changes == [] then []
    else
      var c := changes[0];
      (if c.file in store.targets && store.targets[c.file] == c.target then [] else [c]) + Pending(store, changes[1..])
  }

  // ---------------------------------------------------------------------- writing

  /** What happens to one atomic write: it is done, it raises, or the process dies before it. */
  datatype Turn = Fine | Fails | Dies

  function First(env: seq<Turn>): Turn { if env == [] then Fine else env[0] }

  function Later(env: seq<Turn>): seq<Turn> { if env == [] then [] else env[1..] }

  datatype Step = Step(store: Store, env: seq<Turn>, ended: Turn)

  /** Keep the original of every file that has none kept yet. */
  function SaveAll(changes: seq<Change>, store: Store, env: seq<Turn>): Step
    decreases |changes|
  {
    if changes == [] then Step(store, env, Fine)
    else if changes[0].file in store.backups then SaveAll(changes[1..], store, env)
    else if !First(env).Fine? then Step(store, Later(env), First(env))
    else
      SaveAll(changes[1..], store.(backups := store.backups[changes[0].file := changes[0].original]), Later(env))
  }

  datatype Written = Written(file: File, before: Bytes)

  function Put(store: Store, file: File, content: Bytes): Store {
    store.(targets := store.targets[file := content])
  }

  function WriteAll(pending: seq<Change>, store: Store, env: seq<Turn>, written: seq<Written>): (Step, seq<Written>)
    decreases |pending|
  {
    if pending == [] then (Step(store, env, Fine), written)
    else if pending[0].file !in store.targets then (Step(store, env, Fails), written)
    else if !First(env).Fine? then (Step(store, Later(env), First(env)), written)
    else
      var c := pending[0];
      WriteAll(pending[1..], Put(store, c.file, c.target), Later(env),
               written + [Written(c.file, store.targets[c.file])])
  }

  /** Put back what was written, the last first. */
  function UndoAll(written: seq<Written>, store: Store, env: seq<Turn>): Step
    decreases |written|
  {
    if written == [] then Step(store, env, Fine)
    else if !First(env).Fine? then Step(store, Later(env), First(env))
    else
      var w := written[|written| - 1];
      UndoAll(written[..|written| - 1], Put(store, w.file, w.before), Later(env))
  }

  datatype Mode = DryRun | Apply | Restore

  datatype Outcome = Refused(refusal: Refusal) | Finished(files: nat) | Raised | Died

  datatype Report = Report(store: Store, env: seq<Turn>, outcome: Outcome)

  function Ending(turn: Turn): Outcome { if turn.Dies? then Died else Raised }

  function Write(pending: seq<Change>, store: Store, env: seq<Turn>): Report {
    var (step, written) := WriteAll(pending, store, env, []);
    match step.ended
    case Fine => Report(step.store, step.env, Finished(|pending|))
    case Dies => Report(step.store, step.env, Died)
    case Fails =>
      var undone := UndoAll(written, step.store, step.env);
      Report(undone.store, undone.env, if undone.ended.Dies? then Died else Raised)
  }

  function Repair(release: Release, store: Store, mode: Mode, env: seq<Turn>): Report {
    match Check(release, store, release.names, mode.Restore?)
    case Failure(refusal) => Report(store, env, Refused(refusal))
    case Success(changes) =>
      var pending := Pending(store, changes);
      if mode.DryRun? then Report(store, env, Finished(|pending|))
      else
        var saved := SaveAll(changes, store, env);
        if !saved.ended.Fine? then Report(saved.store, saved.env, Ending(saved.ended))
        else Write(pending, saved.store, saved.env)
  }

  // ----------------------------------------------------------------------- the tool

  /** The command, working on the installation's files. */
  class Repairer {
    const release: Release
    var targets: map<File, Bytes>
    var backups: map<File, Bytes>
    var env: seq<Turn>

    constructor (release: Release, store: Store, env: seq<Turn>)
      ensures this.release == release && Now() == store && this.env == env
    {
      this.release := release;
      targets, backups, this.env := store.targets, store.backups, env;
    }

    function Now(): Store
      reads this
    {
      Store(targets, backups)
    }

    method Await() returns (turn: Turn)
      modifies this`env
      ensures turn == First(old(env)) && env == Later(old(env))
    {
      turn := First(env);
      env := Later(env);
    }

    /** Check every target and its compressed copy before any change. */
    method CheckAll(restore: bool) returns (r: Result<seq<Change>, Refusal>)
      ensures r == Check(release, Now(), release.names, restore)
    {
      var changes: seq<Change> := [];
      assert release.names[0..] == release.names;
      ghost var all := Check(release, Now(), release.names, restore);
      if all.Success? { assert [] + all.value == all.value; }
      for i := 0 to |release.names|
        invariant match Check(release, Now(), release.names[i..], restore)
          case Failure(refusal) => Check(release, Now(), release.names, restore) == Failure(refusal)
          case Success(more) => Check(release, Now(), release.names, restore) == Success(changes + more)
      {
        assert release.names[i..][1..] == release.names[i + 1..];
        var checked := CheckBundle(release, Now(), release.names[i], restore);
        if checked.Failure? { return Failure(checked.error); }
        ghost var rest := Check(release, Now(), release.names[i + 1..], restore);
        if rest.Success? { assert changes + (checked.value + rest.value) == changes + checked.value + rest.value; }
        changes := changes + checked.value;
      }
      assert release.names[|release.names|..] == [];
      assert changes + [] == changes;
      r := Success(changes);
    }

    method SaveOriginals(changes: seq<Change>) returns (ended: Turn)
      modifies this`backups, this`env
      ensures Step(Now(), env, ended) == SaveAll(changes, old(Now()), old(env))
    {
      for i := 0 to |changes|
        invariant SaveAll(changes[i..], Now(), env) == SaveAll(changes, old(Now()), old(env))
      {
        assert changes[i..][1..] == changes[i + 1..];
        if changes[i].file !in backups {
          ended := Await();
          if !ended.Fine? { return; }
          backups := backups[changes[i].file := changes[i].original];
        }
      }
      assert changes[|changes|..] == [];
      ended := Fine;
    }

    method RollBack(written: seq<Written>) returns (ended: Turn)
      modifies this`targets, this`env
      ensures Step(Now(), env, ended) == UndoAll(written, old(Now()), old(env))
    {
      var n := |written|;
      assert written[..n] == written;
      while n > 0
        invariant 0 <= n <= |written|
        invariant UndoAll(written[..n], Now(), env) == UndoAll(written, old(Now()), old(env))
      {
        assert written[..n][..n - 1] == written[..n - 1];
        ended := Await();
        if !ended.Fine? { return; }
        targets := targets[written[n - 1].file := written[n - 1].before];
        n := n - 1;
      }
      ended := Fine;
    }

    /** Write what is pending; when a write raises, put everything back. */
    method WritePending(pending: seq<Change>) returns (outcome: Outcome)
      modifies this`targets, this`env
      ensures Report(Now(), env, outcome) == Write(pending, old(Now()), old(env))
    {
      var written: seq<Written> := [];
      var i := 0;
      var ended := Fine;
      while i < |pending| && ended.Fine?
        invariant 0 <= i <= |pending|
        invariant WriteAll(pending, old(Now()), old(env), []) ==
          if ended.Fine? then WriteAll(pending[i..], Now(), env, written) else (Step(Now(), env, ended), written)
        decreases |pending| - i, if ended.Fine? then 1 else 0
      {
        assert pending[i..][1..] == pending[i + 1..];
        var c := pending[i];
        if c.file !in targets {
          ended := Fails;
        } else {
          ended := Await();
          if ended.Fine? {
            written := written + [Written(c.file, targets[c.file])];
            targets := targets[c.file := c.target];
            i := i + 1;
          }
        }
      }
      match ended
      case Fine =>
        assert pending[i..] == [];
        outcome := Finished(|pending|);
      case Dies => outcome := Died;
      case Fails =>
        var undone := RollBack(written);
        outcome := if undone.Dies? then Died else Raised;
    }

    method Run(mode: Mode) returns (outcome: Outcome)
      modifies this
      ensures Report(Now(), env, outcome) == Repair(release, old(Now()), mode, old(env))
    {
      var checked := CheckAll(mode.Restore?);
      if checked.Failure? { return Refused(checked.error); }
      var pending := Pending(Now(), checked.value);
      if mode.DryRun? { return Finished(|pending|); }
      var saved := SaveOriginals(checked.value);
      if !saved.Fine? { return Ending(saved); }
      outcome := WritePending(pending);
    }
  }

  // ------------------------------------------------------------ a genuine release

  ghost predicate Genuine(release: Release, originals: map<File, Bytes>) {
    && (forall n :: n in release.names ==>
          && Script(n) in originals && Packed(n) in originals && n in release.expected
          && release.digest(originals[Script(n)]) == release.expected[n]
          && release.patch(originals[Script(n)]).Some?
          && release.unpack(originals[Packed(n)]) == Some(originals[Script(n)]))
    && (forall x :: release.unpack(release.pack(x)) == Some(x))
  }

  predicate IsFile(release: Release, f: File) { f.name in release.names }

  function PatchedScript(release: Release, originals: map<File, Bytes>, n: Name): Bytes
    requires n in release.names && Genuine(release, originals)
  {
    release.patch(originals[Script(n)]).value
  }

  /** What a file is after the repair. */
  function Patched(release: Release, originals: map<File, Bytes>, f: File): Bytes
    requires IsFile(release, f) && Genuine(release, originals)
  {
    var script := PatchedScript(release, originals, f.name);
    if f.Script? then script else release.pack(script)
  }

  ghost predicate AllSaved(release: Release, store: Store) {
    forall f :: IsFile(release, f) ==> f in store.backups
  }

  ghost predicate Untouched(release: Release, originals: map<File, Bytes>, store: Store)
    requires Genuine(release, originals) && store.targets.Keys == originals.Keys
  {
    forall f :: IsFile(release, f) ==> store.targets[f] == originals[f]
  }

  /** Each file is as released or as repaired; a kept original is the original; a repaired file means all are kept. */
  ghost predicate Safe(release: Release, originals: map<File, Bytes>, store: Store)
    requires Genuine(release, originals)
  {
    && store.targets.Keys == originals.Keys
    && (forall f :: f in originals && !IsFile(release, f) ==> store.targets[f] == originals[f])
    && (forall f :: IsFile(release, f) ==>
          store.targets[f] == originals[f] || store.targets[f] == Patched(release, originals, f))
    && (forall f :: IsFile(release, f) && f in store.backups ==> store.backups[f] == originals[f])
    && (AllSaved(release, store) || Untouched(release, originals, store))
  }

  function Goal(release: Release, originals: map<File, Bytes>, f: File, restore: bool): Bytes
    requires IsFile(release, f) && Genuine(release, originals)
  {
    if restore then originals[f] else Patched(release, originals, f)
  }

  /** The change of one file towards its goal. */
  function Towards(release: Release, originals: map<File, Bytes>, f: File, restore: bool): Change
    requires IsFile(release, f) && Genuine(release, originals)
  {
    Change(f, originals[f], Goal(release, originals, f, restore))
  }

  function AllTowards(release: Release, originals: map<File, Bytes>, names: seq<Name>, restore: bool): seq<Change>
    requires Genuine(release, originals) && forall n :: n in names ==> n in release.names
  {
    if names == [] then []
    else
      [Towards(release, originals, Script(names[0]), restore), Towards(release, originals, Packed(names[0]), restore)]
      + AllTowards(release, originals, names[1..], restore)
  }

  lemma OriginalsKnown(release: Release, originals: map<File, Bytes>, store: Store, f: File)
    requires Genuine(release, originals) && Safe(release, originals, store) && IsFile(release, f)
    ensures f in store.targets && Original(store, f) == originals[f]
  {
  }

  lemma BundlePasses(release: Release, originals: map<File, Bytes>, store: Store, n: Name, restore: bool)
    requires Genuine(release, originals) && Safe(release, originals, store) && n in release.names
    ensures CheckBundle(release, store, n, restore) ==
      Success([Towards(release, originals, Script(n), restore), Towards(release, originals, Packed(n), restore)])
  {
    OriginalsKnown(release, originals, store, Script(n));
    OriginalsKnown(release, originals, store, Packed(n));
  }

  /** In a safe store the check recognizes every bundle, whatever was interrupted before. */
  lemma {:induction false} CheckPasses(
    release: Release, originals: map<File, Bytes>, store: Store, names: seq<Name>, restore: bool)
    requires Genuine(release, originals) && Safe(release, originals, store)
    requires forall n :: n in names ==> n in release.names
    ensures Check(release, store, names, restore) == Success(AllTowards(release, originals, names, restore))
  {
    if names != [] {
      assert names[0] in names;
      BundlePasses(release, originals, store, names[0], restore);
      CheckPasses(release, originals, store, names[1..], restore);
    }
  }

  /** Every change leads a file of the release from its original to its goal. */
  ghost predicate Leads(release: Release, originals: map<File, Bytes>, changes: seq<Change>, restore: bool)
    requires Genuine(release, originals)
  {
    forall c :: c in changes ==> IsFile(release, c.file) && c == Towards(release, originals, c.file, restore)
  }

  lemma {:induction false} TowardsLead(
    release: Release, originals: map<File, Bytes>, names: seq<Name>, restore: bool)
    requires Genuine(release, originals) && forall n :: n in names ==> n in release.names
    ensures Leads(release, originals, AllTowards(release, originals, names, restore), restore)
    ensures forall n :: n in names ==>
      && Towards(release, originals, Script(n), restore) in AllTowards(release, originals, names, restore)
      && Towards(release, originals, Packed(n), restore) in AllTowards(release, originals, names, restore)
  {
    if names != [] {
      assert names == [names[0]] + names[1..];
      TowardsLead(release, originals, names[1..], restore);
    }
  }

  lemma LeadsTail(release: Release, originals: map<File, Bytes>, changes: seq<Change>, restore: bool)
    requires Genuine(release, originals) && Leads(release, originals, changes, restore) && changes != []
    ensures Leads(release, originals, changes[1..], restore)
    ensures IsFile(release, changes[0].file) && changes[0] == Towards(release, originals, changes[0].file, restore)
  {
    assert changes[0] in changes;
    assert forall c :: c in changes[1..] ==> c in changes;
  }

  lemma {:induction false} PendingSpec(store: Store, changes: seq<Change>)
    ensures forall c :: c in Pending(store, changes) <==>
      c in changes && !(c.file in store.targets && store.targets[c.file] == c.target)
  {
    if changes != [] {
      assert changes == [changes[0]] + changes[1..];
      PendingSpec(store, changes[1..]);
    }
  }

  // ------------------------------------------------------------------ saving first

  lemma {:induction false} SaveAllKeeps(
    release: Release, originals: map<File, Bytes>, changes: seq<Change>, restore: bool, store: Store, env: seq<Turn>)
    requires Genuine(release, originals) && Safe(release, originals, store)
    requires Leads(release, originals, changes, restore)
    ensures var r := SaveAll(changes, store, env);
      && Safe(release, originals, r.store) && r.store.targets == store.targets
      && (forall f :: f in store.backups ==> f in r.store.backups)
      && (r.ended.Fine? ==> forall c :: c in changes ==> c.file in r.store.backups)
      && (env == [] ==> r.ended.Fine? && r.env == [])
    decreases |changes|
  {
    if changes != [] {
      LeadsTail(release, originals, changes, restore);
      assert changes == [changes[0]] + changes[1..];
      if changes[0].file in store.backups {
        SaveAllKeeps(release, originals, changes[1..], restore, store, env);
      } else if First(env).Fine? {
        var next := store.(backups := store.backups[changes[0].file := changes[0].original]);
        SaveAllKeeps(release, originals, changes[1..], restore, next, Later(env));
      }
    }
  }

  // -------------------------------------------------------------------- then writing

  ghost predicate Known(release: Release, originals: map<File, Bytes>, f: File, content: Bytes)
    requires Genuine(release, originals)
  {
    IsFile(release, f) && (content == originals[f] || content == Patched(release, originals, f))
  }

  lemma PutKeeps(release: Release, originals: map<File, Bytes>, store: Store, f: File, content: Bytes)
    requires Genuine(release, originals) && Safe(release, originals, store) && AllSaved(release, store)
    requires Known(release, originals, f, content)
    ensures Safe(release, originals, Put(store, f, content)) && AllSaved(release, Put(store, f, content))
  {
  }

  ghost predicate AllKnown(release: Release, originals: map<File, Bytes>, written: seq<Written>)
    requires Genuine(release, originals)
  {
    forall w :: w in written ==> Known(release, originals, w.file, w.before)
  }

  lemma {:induction false} WriteAllKeeps(
    release: Release, originals: map<File, Bytes>, pending: seq<Change>, restore: bool, store: Store, env: seq<Turn>,
    written: seq<Written>)
    requires Genuine(release, originals) && Safe(release, originals, store) && AllSaved(release, store)
    requires Leads(release, originals, pending, restore) && AllKnown(release, originals, written)
    ensures var (r, all) := WriteAll(pending, store, env, written);
      Safe(release, originals, r.store) && AllSaved(release, r.store) && AllKnown(release, originals, all)
    decreases |pending|
  {
    if pending != [] {
      LeadsTail(release, originals, pending, restore);
      var c := pending[0];
      if First(env).Fine? {
        PutKeeps(release, originals, store, c.file, c.target);
        WriteAllKeeps(release, originals, pending[1..], restore, Put(store, c.file, c.target), Later(env),
                      written + [Written(c.file, store.targets[c.file])]);
      }
    }
  }

  lemma {:induction false} UndoAllKeeps(
    release: Release, originals: map<File, Bytes>, written: seq<Written>, store: Store, env: seq<Turn>)
    requires Genuine(release, originals) && Safe(release, originals, store) && AllSaved(release, store)
    requires AllKnown(release, originals, written)
    ensures Safe(release, originals, UndoAll(written, store, env).store)
    decreases |written|
  {
    if written != [] && First(env).Fine? {
      var w := written[|written| - 1];
      assert w in written;
      PutKeeps(release, originals, store, w.file, w.before);
      UndoAllKeeps(release, originals, written[..|written| - 1], Put(store, w.file, w.before), Later(env));
    }
  }

  lemma {:induction false} SavedAll(release: Release, originals: map<File, Bytes>, store: Store, restore: bool)
    requires Genuine(release, originals)
    requires forall c :: c in AllTowards(release, originals, release.names, restore) ==> c.file in store.backups
    ensures AllSaved(release, store)
  {
    TowardsLead(release, originals, release.names, restore);
    forall f | IsFile(release, f) ensures f in store.backups {
      assert Towards(release, originals, f, restore) in AllTowards(release, originals, release.names, restore);
    }
  }

  lemma {:induction false} PendingLeads(
    release: Release, originals: map<File, Bytes>, store: Store, changes: seq<Change>, restore: bool)
    requires Genuine(release, originals) && Leads(release, originals, changes, restore)
    ensures Leads(release, originals, Pending(store, changes), restore)
  {
    PendingSpec(store, changes);
  }

  lemma WriteKeeps(
    release: Release, originals: map<File, Bytes>, pending: seq<Change>, restore: bool, store: Store, env: seq<Turn>)
    requires Genuine(release, originals) && Safe(release, originals, store) && AllSaved(release, store)
    requires Leads(release, originals, pending, restore)
    ensures Safe(release, originals, Write(pending, store, env).store)
  {
    WriteAllKeeps(release, originals, pending, restore, store, env, []);
    var (step, written) := WriteAll(pending, store, env, []);
    UndoAllKeeps(release, originals, written, step.store, step.env);
  }

  /** What a checked run works on. */
  lemma {:induction false} CheckedRun(release: Release, originals: map<File, Bytes>, store: Store, restore: bool)
    requires Genuine(release, originals) && Safe(release, originals, store)
    ensures var changes := AllTowards(release, originals, release.names, restore);
      && Check(release, store, release.names, restore) == Success(changes)
      && Leads(release, originals, changes, restore)
      && Leads(release, originals, Pending(store, changes), restore)
  {
    CheckPasses(release, originals, store, release.names, restore);
    TowardsLead(release, originals, release.names, restore);
    PendingLeads(release, originals, store, AllTowards(release, originals, release.names, restore), restore);
  }

  /** Whatever a run does and wherever it stops, the store stays safe. */
  lemma RepairKeepsSafe(
    release: Release, originals: map<File, Bytes>, store: Store, mode: Mode, env: seq<Turn>)
    requires Genuine(release, originals) && Safe(release, originals, store)
    ensures Safe(release, originals, Repair(release, store, mode, env).store)
  {
    var restore := mode.Restore?;
    var changes := AllTowards(release, originals, release.names, restore);
    CheckedRun(release, originals, store, restore);
    SaveAllKeeps(release, originals, changes, restore, store, env);
    var saved := SaveAll(changes, store, env);
    if !mode.DryRun? && saved.ended.Fine? {
      SavedAll(release, originals, saved.store, restore);
      WriteKeeps(release, originals, Pending(store, changes), restore, saved.store, saved.env);
    }
  }

  function Runs(release: Release, store: Store, runs: seq<(Mode, seq<Turn>)>): Store
    decreases |runs|
  {
    if runs == [] then store
    else Runs(release, Repair(release, store, runs[0].0, runs[0].1).store, runs[1..])
  }

  /** Every run begins where the one before it ended. */
  lemma {:induction false} RunsTakeEach(release: Release, store: Store, runs: seq<(Mode, seq<Turn>)>, run: (Mode, seq<Turn>))
    ensures Runs(release, store, runs + [run]) == Repair(release, Runs(release, store, runs), run.0, run.1).store
    decreases |runs|
  {
    hide Repair;
    if runs == [] {
      assert runs + [run] == [run] && [run][1..] == [];
    } else {
      assert (runs + [run])[1..] == runs[1..] + [run];
      RunsTakeEach(release, Repair(release, store, runs[0].0, runs[0].1).store, runs[1..], run);
    }
  }

  lemma {:induction false} RunsKeepSafe(
    release: Release, originals: map<File, Bytes>, store: Store, runs: seq<(Mode, seq<Turn>)>)
    requires Genuine(release, originals) && Safe(release, originals, store)
    ensures Safe(release, originals, Runs(release, store, runs))
    decreases |runs|
  {
    if runs != [] {
      RepairKeepsSafe(release, originals, store, runs[0].0, runs[0].1);
      RunsKeepSafe(release, originals, Repair(release, store, runs[0].0, runs[0].1).store, runs[1..]);
    }
  }

  /**
    After any runs of any kind, interrupted anywhere: no file is foreign, and if any file is repaired then
    every original is kept, byte for byte.
   */
  lemma {:induction false} OriginalsAreAlwaysKept(
    release: Release, originals: map<File, Bytes>, runs: seq<(Mode, seq<Turn>)>)
    requires Genuine(release, originals)
    ensures var store := Runs(release, Store(originals, map[]), runs);
      && Safe(release, originals, store)
      && ((exists f :: IsFile(release, f) && store.targets[f] != originals[f]) ==>
            forall f :: IsFile(release, f) ==> f in store.backups && store.backups[f] == originals[f])
  {
    RunsKeepSafe(release, originals, Store(originals, map[]), runs);
  }

  lemma {:induction false} WriteAllReaches(
    release: Release, originals: map<File, Bytes>, pending: seq<Change>, restore: bool, store: Store,
    written: seq<Written>, f: File)
    requires Genuine(release, originals) && Leads(release, originals, pending, restore) && IsFile(release, f)
    requires store.targets.Keys == originals.Keys
    ensures var (r, all) := WriteAll(pending, store, [], written);
      && r.ended.Fine? && r.env == [] && r.store.targets.Keys == originals.Keys
      && r.store.targets[f] ==
           if Towards(release, originals, f, restore) in pending then Goal(release, originals, f, restore)
           else store.targets[f]
    decreases |pending|
  {
    if pending != [] {
      LeadsTail(release, originals, pending, restore);
      var c := pending[0];
      assert pending == [c] + pending[1..];
      WriteAllReaches(release, originals, pending[1..], restore, Put(store, c.file, c.target),
                      written + [Written(c.file, store.targets[c.file])], f);
    }
  }

  ghost predicate AtGoal(release: Release, originals: map<File, Bytes>, store: Store, restore: bool)
    requires Genuine(release, originals)
  {
    forall f :: IsFile(release, f) ==> f in store.targets && store.targets[f] == Goal(release, originals, f, restore)
  }

  lemma {:induction false} WriteReaches(
    release: Release, originals: map<File, Bytes>, before: Store, store: Store, restore: bool)
    requires Genuine(release, originals) && Safe(release, originals, before) && store.targets == before.targets
    ensures var changes := AllTowards(release, originals, release.names, restore);
      var r := Write(Pending(before, changes), store, []);
      r.outcome.Finished? && AtGoal(release, originals, r.store, restore)
  {
    var changes := AllTowards(release, originals, release.names, restore);
    var pending := Pending(before, changes);
    CheckedRun(release, originals, before, restore);
    TowardsLead(release, originals, release.names, restore);
    PendingSpec(before, changes);
    WriteAllFine(release, originals, pending, restore, store, []);
    forall f | IsFile(release, f)
      ensures f in WriteAll(pending, store, [], []).0.store.targets
      ensures WriteAll(pending, store, [], []).0.store.targets[f] == Goal(release, originals, f, restore)
    {
      WriteAllReaches(release, originals, pending, restore, store, [], f);
      assert Towards(release, originals, f, restore) in changes;
    }
  }

  lemma {:induction false} WriteAllFine(
    release: Release, originals: map<File, Bytes>, pending: seq<Change>, restore: bool, store: Store,
    written: seq<Written>)
    requires Genuine(release, originals) && Leads(release, originals, pending, restore)
    requires store.targets.Keys == originals.Keys
    ensures WriteAll(pending, store, [], written).0.ended.Fine?
    decreases |pending|
  {
    if pending != [] {
      LeadsTail(release, originals, pending, restore);
      var c := pending[0];
      WriteAllFine(release, originals, pending[1..], restore, Put(store, c.file, c.target),
                   written + [Written(c.file, store.targets[c.file])]);
    }
  }

  /** From every state runs can lead to, a run that is not disturbed brings every file to its goal. */
  lemma RepairCompletes(release: Release, originals: map<File, Bytes>, store: Store, restore: bool)
    requires Genuine(release, originals) && Safe(release, originals, store)
    ensures var r := Repair(release, store, if restore then Restore else Apply, []);
      r.outcome.Finished? && AtGoal(release, originals, r.store, restore)
  {
    var changes := AllTowards(release, originals, release.names, restore);
    CheckedRun(release, originals, store, restore);
    SaveAllKeeps(release, originals, changes, restore, store, []);
    WriteReaches(release, originals, store, SaveAll(changes, store, []).store, restore);
  }

  /**
    Where every file is at its goal, a further run, wherever it stops, changes no file and no kept original; at most
    it keeps originals not kept yet, and when all are, it changes nothing at all.
   */
  lemma RepairIsIdempotent(
    release: Release, originals: map<File, Bytes>, store: Store, restore: bool, env: seq<Turn>)
    requires Genuine(release, originals) && Safe(release, originals, store)
    requires AtGoal(release, originals, store, restore)
    ensures var r := Repair(release, store, if restore then Restore else Apply, env);
      && r.store.targets == store.targets
      && (forall f :: f in store.backups ==> f in r.store.backups && r.store.backups[f] == store.backups[f])
      && (env == [] ==> r.outcome == Finished(0))
      && (AllSaved(release, store) ==> r == Report(store, env, Finished(0)))
  {
    var changes := AllTowards(release, originals, release.names, restore);
    CheckPasses(release, originals, store, release.names, restore);
    TowardsLead(release, originals, release.names, restore);
    PendingSpec(store, changes);
    if Pending(store, changes) != [] {
      assert Pending(store, changes)[0] in Pending(store, changes);
    }
    SaveAllKeeps(release, originals, changes, restore, store, env);
    SavingKeepsSaved(changes, store, env);
    if AllSaved(release, store) { NothingToSave(changes, store, env); }
  }

  lemma {:induction false} SavingKeepsSaved(changes: seq<Change>, store: Store, env: seq<Turn>)
    ensures forall f :: f in store.backups ==>
      f in SaveAll(changes, store, env).store.backups
      && SaveAll(changes, store, env).store.backups[f] == store.backups[f]
    decreases |changes|
  {
    if changes != [] {
      if changes[0].file in store.backups {
        SavingKeepsSaved(changes[1..], store, env);
      } else if First(env).Fine? {
        SavingKeepsSaved(
          changes[1..], store.(backups := store.backups[changes[0].file := changes[0].original]), Later(env));
      }
    }
  }

  lemma {:induction false} NothingToSave(changes: seq<Change>, store: Store, env: seq<Turn>)
    requires forall c :: c in changes ==> c.file in store.backups
    ensures SaveAll(changes, store, env) == Step(store, env, Fine)
    decreases |changes|
  {
    if changes != [] {
      assert changes[0] in changes;
      NothingToSave(changes[1..], store, env);
    }
  }

  // ---------------------------------------------------------------------- roll back

  /** The store with what was written put back. */
  function Undone(written: seq<Written>, store: Store): Store
    decreases |written|
  {
    if written == [] then store
    else
      var w := written[|written| - 1];
      Undone(written[..|written| - 1], Put(store, w.file, w.before))
  }

  lemma {:induction false} WriteAllUndone(
    pending: seq<Change>, store: Store, env: seq<Turn>, written: seq<Written>)
    ensures var (r, all) := WriteAll(pending, store, env, written);
      Undone(all, r.store) == Undone(written, store)
    decreases |pending|
  {
    if pending != [] && pending[0].file in store.targets && First(env).Fine? {
      var c := pending[0];
      var more := written + [Written(c.file, store.targets[c.file])];
      var next := Put(store, c.file, c.target);
      WriteAllUndone(pending[1..], next, Later(env), more);
      assert more[..|more| - 1] == written;
      assert Put(next, c.file, store.targets[c.file]).targets == store.targets;
      assert Put(next, c.file, store.targets[c.file]) == store;
    }
  }

  lemma {:induction false} UndoAllUndoes(written: seq<Written>, store: Store, env: seq<Turn>)
    requires UndoAll(written, store, env).ended.Fine?
    ensures UndoAll(written, store, env).store == Undone(written, store)
    decreases |written|
  {
    if written != [] {
      var w := written[|written| - 1];
      UndoAllUndoes(written[..|written| - 1], Put(store, w.file, w.before), Later(env));
    }
  }

  /** A write that raises leaves no trace once the writes that put things back succeed. */
  lemma {:induction false} FailedWriteRollsBack(pending: seq<Change>, store: Store, env: seq<Turn>)
    requires var (step, written) := WriteAll(pending, store, env, []);
      step.ended.Fails? && UndoAll(written, step.store, step.env).ended.Fine?
    ensures Write(pending, store, env).store == store && Write(pending, store, env).outcome == Raised
  {
    var (step, written) := WriteAll(pending, store, env, []);
    WriteAllUndone(pending, store, env, []);
    UndoAllUndoes(written, step.store, step.env);
  }

  // ------------------------------------------------------------------- how a run ends

  /** These turns were taken, one for each write; when none is left every write is done. */
  ghost predicate Took(env: seq<Turn>, turns: seq<Turn>, rest: seq<Turn>) {
    && (forall i :: 0 <= i < |turns| ==> turns[i] == if i < |env| then env[i] else Fine)
    && rest == if |turns| < |env| then env[|turns|..] else []
  }

  /** What the turns say: nothing failed, or the last one did. */
  ghost predicate EndsWith(turns: seq<Turn>, ended: Turn) {
    if ended.Fine? then forall t :: t in turns ==> t.Fine?
    else turns != [] && turns[|turns| - 1] == ended && forall i :: 0 <= i < |turns| - 1 ==> turns[i].Fine?
  }

  lemma TookFirst(env: seq<Turn>, more: seq<Turn>, rest: seq<Turn>)
    requires Took(Later(env), more, rest)
    ensures Took(env, [First(env)] + more, rest)
  {
  }

  lemma TookBoth(env: seq<Turn>, a: seq<Turn>, middle: seq<Turn>, b: seq<Turn>, rest: seq<Turn>)
    requires Took(env, a, middle) && Took(middle, b, rest)
    ensures Took(env, a + b, rest)
  {
  }

  lemma {:induction false} SavingTakes(changes: seq<Change>, store: Store, env: seq<Turn>) returns (turns: seq<Turn>)
    ensures var r := SaveAll(changes, store, env); Took(env, turns, r.env) && EndsWith(turns, r.ended)
    decreases |changes|
  {
    turns := [];
    if changes != [] {
      if changes[0].file in store.backups {
        turns := SavingTakes(changes[1..], store, env);
      } else if First(env).Fine? {
        var more := SavingTakes(
          changes[1..], store.(backups := store.backups[changes[0].file := changes[0].original]), Later(env));
        TookFirst(env, more, SaveAll(changes, store, env).env);
        turns := [First(env)] + more;
      } else {
        turns := [First(env)];
      }
    }
  }

  lemma {:induction false} WritingTakes(pending: seq<Change>, store: Store, env: seq<Turn>, written: seq<Written>)
    returns (turns: seq<Turn>)
    requires forall c :: c in pending ==> c.file in store.targets
    ensures var r := WriteAll(pending, store, env, written).0; Took(env, turns, r.env) && EndsWith(turns, r.ended)
    decreases |pending|
  {
    turns := [];
    if pending != [] {
      var c := pending[0];
      assert pending == [c] + pending[1..];
      if First(env).Fine? {
        var more := WritingTakes(pending[1..], Put(store, c.file, c.target), Later(env),
                                 written + [Written(c.file, store.targets[c.file])]);
        TookFirst(env, more, WriteAll(pending, store, env, written).0.env);
        turns := [First(env)] + more;
      } else {
        turns := [First(env)];
      }
    }
  }

  lemma {:induction false} UndoingTakes(written: seq<Written>, store: Store, env: seq<Turn>) returns (turns: seq<Turn>)
    ensures var r := UndoAll(written, store, env); Took(env, turns, r.env) && EndsWith(turns, r.ended)
    decreases |written|
  {
    turns := [];
    if written != [] {
      if First(env).Fine? {
        var w := written[|written| - 1];
        var more := UndoingTakes(written[..|written| - 1], Put(store, w.file, w.before), Later(env));
        TookFirst(env, more, UndoAll(written, store, env).env);
        turns := [First(env)] + more;
      } else {
        turns := [First(env)];
      }
    }
  }

  /** The process died when one of the turns says so, else it raised when one failed, else it finished. */
  ghost predicate Tells(turns: seq<Turn>, outcome: Outcome) {
    && (outcome.Died? <==> Dies in turns)
    && (outcome.Raised? <==> Fails in turns && Dies !in turns)
    && (outcome.Finished? <==> Fails !in turns && Dies !in turns)
  }

  lemma EndTells(turns: seq<Turn>, ended: Turn)
    requires EndsWith(turns, ended)
    ensures Dies in turns <==> ended.Dies?
    ensures Fails in turns <==> ended.Fails?
  {
    if !ended.Fine? { assert turns[|turns| - 1] in turns; }
  }

  lemma WriteEnds(pending: seq<Change>, store: Store, env: seq<Turn>) returns (turns: seq<Turn>)
    requires forall c :: c in pending ==> c.file in store.targets
    ensures Took(env, turns, Write(pending, store, env).env) && Tells(turns, Write(pending, store, env).outcome)
  {
    turns := WritingTakes(pending, store, env, []);
    var (step, written) := WriteAll(pending, store, env, []);
    EndTells(turns, step.ended);
    if step.ended.Fails? {
      var more := UndoingTakes(written, step.store, step.env);
      var undone := UndoAll(written, step.store, step.env);
      EndTells(more, undone.ended);
      TookBoth(env, turns, step.env, more, undone.env);
      turns := turns + more;
    }
    hide WriteAll;
    hide UndoAll;
    hide Took;
    hide EndsWith;
  }

  lemma RepairEnds(release: Release, store: Store, restore: bool, env: seq<Turn>, changes: seq<Change>)
    returns (turns: seq<Turn>)
    requires Check(release, store, release.names, restore) == Success(changes)
    requires forall c :: c in Pending(store, changes) ==> c.file in SaveAll(changes, store, env).store.targets
    ensures var r := Repair(release, store, if restore then Restore else Apply, env);
      Took(env, turns, r.env) && Tells(turns, r.outcome)
  {
    hide Check;
    hide SaveAll;
    hide Write;
    hide Pending;
    hide Took;
    hide EndsWith;
    turns := SavingTakes(changes, store, env);
    var saved, pending := SaveAll(changes, store, env), Pending(store, changes);
    EndTells(turns, saved.ended);
    if saved.ended.Fine? {
      var more := WriteEnds(pending, saved.store, saved.env);
      TookBoth(env, turns, saved.env, more, Write(pending, saved.store, saved.env).env);
      turns := turns + more;
    }
  }

  /** A run's outcome tells exactly what happened to its writes, those that put files back included. */
  lemma EndIsTold(
    release: Release, originals: map<File, Bytes>, store: Store, restore: bool, env: seq<Turn>) returns (turns: seq<Turn>)
    requires Genuine(release, originals) && Safe(release, originals, store)
    ensures var r := Repair(release, store, if restore then Restore else Apply, env);
      Took(env, turns, r.env) && Tells(turns, r.outcome)
  {
    var changes := AllTowards(release, originals, release.names, restore);
    CheckPasses(release, originals, store, release.names, restore);
    TowardsLead(release, originals, release.names, restore);
    SaveAllKeeps(release, originals, changes, restore, store, env);
    PendingSpec(store, changes);
    forall c | c in Pending(store, changes) ensures c.file in SaveAll(changes, store, env).store.targets {
      assert c in changes;
    }
    turns := RepairEnds(release, store, restore, env, changes);
    hide Check;
    hide SaveAll;
    hide Repair;
    hide Pending;
    hide AllTowards;
    hide Took;
    hide Tells;
  }

  // ------------------------------------------------------------- what others changed

  predicate Present(release: Release, store: Store, name: Name) {
    Script(name) in store.targets && Packed(name) in store.targets && name in release.expected
  }

  /** What is kept of a file, or else what is there. */
  function Kept(store: Store, file: File): Bytes
    requires file in store.targets
  {
    if file in store.backups then store.backups[file] else store.targets[file]
  }

  /** The original is the release's and can be edited, and its kept compressed copy is one of it. */
  predicate Official(release: Release, store: Store, name: Name)
    requires Present(release, store, name)
  {
    && release.digest(Kept(store, Script(name))) == release.expected[name]
    && release.patch(Kept(store, Script(name))) != None
    && release.unpack(Kept(store, Packed(name))) == Some(Kept(store, Script(name)))
  }

  /** What is there is the original or the edited script, and a compressed copy of one of them. */
  predicate Ours(release: Release, store: Store, name: Name)
    requires Present(release, store, name) && Official(release, store, name)
  {
    var original, patched := Kept(store, Script(name)), release.patch(Kept(store, Script(name))).value;
    && store.targets[Script(name)] in {original, patched}
    && release.unpack(store.targets[Packed(name)]) in {Some(original), Some(patched)}
  }

  /** A bundle is recognized exactly then; it should become the edited script and its compressed copy, or both originals. */
  lemma BundleIsRecognizedExactly(release: Release, store: Store, name: Name, restore: bool)
    ensures var r := CheckBundle(release, store, name, restore);
      if !Present(release, store, name) then r == Failure(Missing)
      else if !Official(release, store, name) then r.Failure?
      else if !Ours(release, store, name) then r == Failure(Modified)
      else
        var original, patched := Kept(store, Script(name)), release.patch(Kept(store, Script(name))).value;
        var packed := Kept(store, Packed(name));
        r == Success([Change(Script(name), original, if restore then original else patched),
                      Change(Packed(name), packed, if restore then packed else release.pack(patched))])
  {
  }

  /** Whether a bundle is recognized does not depend on what the run is for. */
  lemma RecognizedEitherWay(release: Release, store: Store, name: Name, restore: bool)
    ensures CheckBundle(release, store, name, restore).Success? <==> CheckBundle(release, store, name, true).Success?
  {
  }

  /** The check passes exactly when every bundle is recognized. */
  lemma {:induction false} CheckPassesExactly(release: Release, store: Store, names: seq<Name>, restore: bool)
    ensures Check(release, store, names, restore).Success? <==>
      forall n :: n in names ==> CheckBundle(release, store, n, restore).Success?
  {
    hide CheckBundle;
    if names != [] {
      assert names == [names[0]] + names[1..];
      CheckPassesExactly(release, store, names[1..], restore);
    }
  }

  /** While one bundle is not recognized, no sequence of runs of any kind changes any file. */
  lemma {:induction false} RefusalChangesNothing(
    release: Release, store: Store, name: Name, runs: seq<(Mode, seq<Turn>)>)
    requires name in release.names && CheckBundle(release, store, name, true).Failure?
    ensures Runs(release, store, runs) == store
    ensures forall mode, env :: Repair(release, store, mode, env).outcome.Refused?
    decreases |runs|
  {
    hide CheckBundle;
    forall mode: Mode ensures Check(release, store, release.names, mode.Restore?).Failure? {
      CheckPassesExactly(release, store, release.names, mode.Restore?);
      RecognizedEitherWay(release, store, name, mode.Restore?);
    }
    if runs != [] { RefusalChangesNothing(release, store, name, runs[1..]); }
  }

  /**
    After any runs another tool rewrites a script. If that is neither the released nor the repaired script, and its
    original was kept or its digest tells it apart, no later run of any kind touches it or any other file.
   */
  lemma ForeignScriptIsNeverTouched(
    release: Release, originals: map<File, Bytes>, before: seq<(Mode, seq<Turn>)>, name: Name, content: Bytes,
    after: seq<(Mode, seq<Turn>)>)
    requires Genuine(release, originals) && name in release.names
    requires content != originals[Script(name)] && content != Patched(release, originals, Script(name))
    requires var store := Runs(release, Store(originals, map[]), before);
      Script(name) in store.backups || release.digest(content) != release.expected[name]
    ensures var store := Runs(release, Store(originals, map[]), before);
      var edited := store.(targets := store.targets[Script(name) := content]);
      Runs(release, edited, after) == edited
  {
    hide Runs;
    var store := Runs(release, Store(originals, map[]), before);
    var edited := store.(targets := store.targets[Script(name) := content]);
    OriginalsAreAlwaysKept(release, originals, before);
    assert IsFile(release, Script(name));
    assert CheckBundle(release, edited, name, true).Failure?;
    RefusalChangesNothing(release, edited, name, after);
  }
}
