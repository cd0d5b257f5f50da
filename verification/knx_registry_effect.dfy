/** What a committed deployment does to the entity registry and records in its manifest, told by the site before it. */
module KnxRegistryEffect {
  import opened Common
  import opened KnxTransaction
  import opened KnxCrashSafety

  // --------------------------------------------------------------- what is to happen

  /** What earlier deployments retired, and what this one replaces; both empty on the first. */
  function Earlier(previous: Option<Manifest>): seq<Record> { if previous.Some? then previous.value.retired else [] }

  function Replaced(previous: Option<Manifest>, req: Request): seq<(string, string)> {
    if previous.Some? then req.replaced else []
  }

  /** Retired once by this writer, still disabled by it, and wanted again. */
  ghost predicate Returns(base: Registry, previous: Option<Manifest>, req: Request, e: string) {
    && e in base && base[e].disabledBy == INTEGRATION && base[e].identity in req.wanted
    && exists r :: r in Earlier(previous) && r.entityId == e && r.identity == base[e].identity
  }

  /** Replaced, not wanted any more, enabled, and nothing holds it. */
  predicate Leaves(base: Registry, req: Request, e: string, identity: string) {
    && e in base && base[e].identity == identity && identity !in req.wanted
    && base[e].disabledBy == None && e !in req.live
  }

  /** Exactly these entries change, and only in what disables them. */
  ghost predicate RegistryAfter(base: Registry, previous: Option<Manifest>, req: Request, after: Registry) {
    && after.Keys == base.Keys
    && forall e :: e in base.Keys ==>
         after[e] ==
           if Returns(base, previous, req, e) then base[e].(disabledBy := None)
           else if (e, base[e].identity) in Replaced(previous, req) && Leaves(base, req, e, base[e].identity)
           then base[e].(disabledBy := INTEGRATION)
           else base[e]
  }

  function RetirementOf(item: (string, string)): Record { Record(item.0, item.1, None, INTEGRATION) }

  function RetirementsOf(items: seq<(string, string)>): (r: seq<Record>)
    ensures |r| == |items| && forall i :: 0 <= i < |r| ==> r[i] == RetirementOf(items[i])
  {
    seq(|items|, i requires 0 <= i < |items| => RetirementOf(items[i]))
  }

  /** The manifest keeps what stays retired and adds what is retired now. */
  function RetiredAfter(base: Registry, previous: Option<Manifest>, req: Request): seq<Record> {
    Those(Earlier(previous), (r: Record) => r.identity !in req.wanted)
    + RetirementsOf(Those(Replaced(previous, req), (x: (string, string)) => Leaves(base, req, x.0, x.1)))
  }

  // ------------------------------------------------------------------ the two lists

  lemma {:induction false} KeptAre(retired: seq<Record>, wanted: set<string>)
    ensures KeptRetired(retired, wanted) == Those(retired, (r: Record) => r.identity !in wanted)
  {
    if retired != [] { KeptAre(retired[1..], wanted); }
  }

  /** A record that enables what its entry shows to be retired. */
  ghost predicate Restores(registry: Registry, r: Record, retired: seq<Record>, wanted: set<string>) {
    && Matches(registry, r) && registry[r.entityId].disabledBy == INTEGRATION && r.identity in wanted
    && r.before == INTEGRATION && r.after == None
    && exists q :: q in retired && q.entityId == r.entityId && q.identity == r.identity
  }

  lemma {:induction false} RestorationsAre(retired: seq<Record>, wanted: set<string>, registry: Registry)
    ensures forall r :: r in Restorations(retired, wanted, registry) <==> Restores(registry, r, retired, wanted)
  {
    if retired != [] {
      var item, rest := retired[0], retired[1..];
      assert retired == [item] + rest;
      RestorationsAre(rest, wanted, registry);
      forall r ensures r in Restorations(retired, wanted, registry) <==> Restores(registry, r, retired, wanted) {
        if r.entityId == item.entityId && r.identity == item.identity && Restores(registry, r, retired, wanted) {
          assert r == item.(before := INTEGRATION, after := None);
        }
      }
    }
  }

  predicate Retires(registry: Registry, wanted: set<string>, x: (string, string)) {
    && x.1 !in wanted && x.0 in registry && registry[x.0].identity == x.1 && registry[x.0].disabledBy == None
  }

  lemma {:induction false} RetirementsAre(replaced: seq<(string, string)>, wanted: set<string>, registry: Registry)
    ensures Retirements(replaced, wanted, registry) ==
      RetirementsOf(Those(replaced, (x: (string, string)) => Retires(registry, wanted, x)))
  {
    if replaced != [] { RetirementsAre(replaced[1..], wanted, registry); }
  }

  // -------------------------------------------------------------- applying a list

  /** Every entry the list names stands at one of the two values. */
  ghost predicate Ready(registry: Registry, todo: seq<Record>, from: Option<string>, to: Option<string>) {
    forall r :: r in todo ==>
      && r.before == from && r.after == to && Matches(registry, r)
      && registry[r.entityId].disabledBy in {from, to}
  }

  predicate Free(live: set<string>, from: Option<string>, to: Option<string>, e: string) {
    !(from == None && to == INTEGRATION && e in live)
  }

  ghost predicate SetBy(
    before: Registry, after: Registry, todo: seq<Record>, live: set<string>, from: Option<string>, to: Option<string>)
  {
    && after.Keys == before.Keys
    && forall e :: e in before.Keys ==>
         after[e] == if (exists r :: r in todo && r.entityId == e) && Free(live, from, to, e)
                     then before[e].(disabledBy := to) else before[e]
  }

  lemma OneChange(d: Disk, r: Record, live: set<string>, from: Option<string>, to: Option<string>)
    requires Ready(d.registry, [r], from, to)
    ensures var (t, took) := RegistryChange(d, r, false, live);
      && took == (Free(live, from, to, r.entityId))
      && t == d.(registry := if took then d.registry[r.entityId := d.registry[r.entityId].(disabledBy := to)] else d.registry)
  {
    assert r in [r];
  }

  predicate Chosen(live: set<string>, from: Option<string>, to: Option<string>, x: Record) {
    Free(live, from, to, x.entityId)
  }

  lemma OneMore(
    a: Registry, b: Registry, c: Registry, first: Record, rest: seq<Record>, live: set<string>, from: Option<string>,
    to: Option<string>)
    requires first.entityId in a
    requires b == if Free(live, from, to, first.entityId)
                  then a[first.entityId := a[first.entityId].(disabledBy := to)] else a
    requires SetBy(b, c, rest, live, from, to)
    ensures SetBy(a, c, [first] + rest, live, from, to)
  {
    hide Free;
    var todo := [first] + rest;
    forall e | e in a.Keys
      ensures (exists r :: r in todo && r.entityId == e) <==> e == first.entityId || exists r :: r in rest && r.entityId == e
    {
      if e == first.entityId { assert first in todo; }
      if r :| r in rest && r.entityId == e { assert r in todo; }
    }
  }

  lemma ReadyRest(
    a: Registry, b: Registry, first: Record, rest: seq<Record>, from: Option<string>, to: Option<string>)
    requires Ready(a, [first] + rest, from, to)
    requires b == a || b == a[first.entityId := a[first.entityId].(disabledBy := to)]
    ensures Ready(a, [first], from, to) && Ready(b, rest, from, to)
  {
    assert first in [first] + rest;
    forall r | r in rest
      ensures r.before == from && r.after == to && Matches(b, r) && b[r.entityId].disabledBy in {from, to}
    {
      assert r in [first] + rest;
    }
  }

  lemma MatchesKnows(registry: Registry, r: Record)
    requires Matches(registry, r)
    ensures r.entityId in registry
  {
  }

  lemma {:induction false} RegisterExactly(
    d: Disk, todo: seq<Record>, live: set<string>, from: Option<string>, to: Option<string>, env: seq<Happening>)
    requires Quiet(env) && Ready(d.registry, todo, from, to)
    ensures var (r, took) := RunRegister(d, todo, live, env);
      r.outcome.Done? ==>
        && SetBy(d.registry, r.disk.registry, todo, live, from, to)
        && took == Those(todo, (x: Record) => Chosen(live, from, to, x))
    decreases |todo|
  {
    hide Turn;
    hide RegistryChange;
    hide Free;
    hide Matches;
    QuietTurn(d, env);
    var t := Turn(d, env);
    if todo == [] {
      hide Chosen;
    } else if t.outcome.Done? {
      var first, rest := todo[0], todo[1..];
      assert todo == [first] + rest;
      assert first in todo && Matches(d.registry, first);
      ReadyRest(d.registry, d.registry, first, rest, from, to);
      OneChange(d, first, live, from, to);
      var next := RegistryChange(d, first, false, live).0;
      ReadyRest(d.registry, next.registry, first, rest, from, to);
      RegisterExactly(next, rest, live, from, to, t.env);
      var r := RunRegister(next, rest, live, t.env).0;
      if r.outcome.Done? {
        MatchesKnows(d.registry, first);
        OneMore(d.registry, next.registry, r.disk.registry, first, rest, live, from, to);
      }
      hide SetBy;
      hide Ready;
    }
  }

  // ------------------------------------------------------------- one whole deployment

  /** The registry once the restorations are applied. */
  ghost predicate Returned(base: Registry, previous: Option<Manifest>, req: Request, mid: Registry) {
    && mid.Keys == base.Keys
    && forall e :: e in base.Keys ==>
         mid[e] == if Returns(base, previous, req, e) then base[e].(disabledBy := None) else base[e]
  }

  function RestorationsFor(base: Registry, previous: Option<Manifest>, req: Request): seq<Record> {
    if previous.None? then [] else Restorations(previous.value.retired, req.wanted, base)
  }

  function RetirementsFor(mid: Registry, previous: Option<Manifest>, req: Request): seq<Record> {
    if previous.None? then [] else Retirements(req.replaced, req.wanted, mid)
  }

  lemma RestorationsReady(base: Registry, previous: Option<Manifest>, req: Request)
    ensures Ready(base, RestorationsFor(base, previous, req), INTEGRATION, None)
    ensures forall e :: e in base.Keys ==>
      (Returns(base, previous, req, e) <==> exists r :: r in RestorationsFor(base, previous, req) && r.entityId == e)
  {
    if previous.Some? {
      var records := RestorationsFor(base, previous, req);
      RestorationsAre(previous.value.retired, req.wanted, base);
      forall e | e in base.Keys
        ensures Returns(base, previous, req, e) <==> exists r :: r in records && r.entityId == e
      {
        if Returns(base, previous, req, e) {
          var r := Record(e, base[e].identity, INTEGRATION, None);
          assert Restores(base, r, previous.value.retired, req.wanted);
          assert r in records;
        }
      }
    }
  }

  lemma ReturnedAre(
    base: Registry, previous: Option<Manifest>, req: Request, mid: Registry, live: set<string>)
    requires SetBy(base, mid, RestorationsFor(base, previous, req), live, INTEGRATION, None)
    ensures Returned(base, previous, req, mid)
  {
    hide Returns;
    hide RestorationsFor;
    RestorationsReady(base, previous, req);
  }

  /** What is retired is judged as if nothing had been restored: a restored entry is wanted. */
  lemma RetiresAlike(base: Registry, previous: Option<Manifest>, req: Request, mid: Registry, x: (string, string))
    requires Returned(base, previous, req, mid)
    ensures Retires(mid, req.wanted, x) == Retires(base, req.wanted, x)
  {
  }

  lemma {:induction false} LeavingAre(
    items: seq<(string, string)>, base: Registry, req: Request, retiring: ((string, string)) -> bool,
    leaving: ((string, string)) -> bool, chosen: Record -> bool)
    requires forall x :: retiring(x) == Retires(base, req.wanted, x)
    requires forall x :: leaving(x) == Leaves(base, req, x.0, x.1)
    requires forall r :: chosen(r) == Chosen(req.live, None, INTEGRATION, r)
    ensures Those(RetirementsOf(Those(items, retiring)), chosen) == RetirementsOf(Those(items, leaving))
  {
    if items != [] {
      var x, rest := items[0], items[1..];
      LeavingAre(rest, base, req, retiring, leaving, chosen);
      assert leaving(x) <==> retiring(x) && chosen(RetirementOf(x));
      var tail, left := Those(rest, retiring), Those(rest, leaving);
      assert RetirementsOf([x] + tail) == [RetirementOf(x)] + RetirementsOf(tail);
      assert ([RetirementOf(x)] + RetirementsOf(tail))[1..] == RetirementsOf(tail);
      assert RetirementsOf([x] + left) == [RetirementOf(x)] + RetirementsOf(left);
      assert [] + tail == tail && [] + left == left;
      hide RetirementsOf;
    }
  }

  lemma RetirementsReady(base: Registry, previous: Option<Manifest>, req: Request, mid: Registry)
    requires Returned(base, previous, req, mid)
    ensures var records := RetirementsFor(mid, previous, req);
      && Ready(mid, records, None, INTEGRATION)
      && records == RetirementsOf(Those(Replaced(previous, req), (x: (string, string)) => Retires(base, req.wanted, x)))
      && forall e :: e in base.Keys ==>
           ((exists r :: r in records && r.entityId == e)
            <==> (e, base[e].identity) in Replaced(previous, req) && Retires(base, req.wanted, (e, base[e].identity)))
  {
    var chosen := (x: (string, string)) => Retires(base, req.wanted, x);
    var items := Those(Replaced(previous, req), chosen);
    if previous.Some? {
      RetirementsAre(req.replaced, req.wanted, mid);
      forall x | x in req.replaced ensures Retires(mid, req.wanted, x) == Retires(base, req.wanted, x) {
        RetiresAlike(base, previous, req, mid, x);
      }
      ThoseSame(req.replaced, (x: (string, string)) => Retires(mid, req.wanted, x), chosen);
    }
    var records := RetirementsOf(items);
    forall r | r in records
      ensures r.before == None && r.after == INTEGRATION && Matches(mid, r) && mid[r.entityId].disabledBy == None
    {
      var i :| 0 <= i < |records| && records[i] == r;
      assert items[i] in items;
      RetiresAlike(base, previous, req, mid, items[i]);
    }
    forall e | e in base.Keys
      ensures (exists r :: r in records && r.entityId == e) <==> (e, base[e].identity) in items
    {
      if (e, base[e].identity) in items {
        var i :| 0 <= i < |items| && items[i] == (e, base[e].identity);
        assert records[i] in records;
      }
      if r :| r in records && r.entityId == e {
        var i :| 0 <= i < |records| && records[i] == r;
        assert items[i] in items && items[i] == (e, base[e].identity);
      }
    }
  }

  lemma LeftAre(base: Registry, previous: Option<Manifest>, req: Request, mid: Registry, after: Registry)
    requires Returned(base, previous, req, mid)
    requires SetBy(mid, after, RetirementsFor(mid, previous, req), req.live, None, INTEGRATION)
    ensures RegistryAfter(base, previous, req, after)
  {
    hide RetirementsFor;
    RetirementsReady(base, previous, req, mid);
    hide Replaced;
  }

  lemma SwitchReturns(
    digest: Bytes -> Hash, base: Registry, previous: Option<Manifest>, d: Disk, j: Journal, req: Request,
    env: seq<Happening>)
    requires Quiet(env) && d.registry == base && j.registry == RestorationsFor(base, previous, req)
    requires RunSwitch(digest, d, j, req, env).outcome.Done?
    ensures Returned(base, previous, req, RunSwitch(digest, d, j, req, env).disk.registry)
    ensures Quiet(RunSwitch(digest, d, j, req, env).env)
  {
    hide Turn;
    hide RunRegister;
    QuietTurn(d, env);
    RestorationsReady(base, previous, req);
    var validated := Turn(d, env);
    RegisterExactly(d, j.registry, req.live, INTEGRATION, None, validated.env);
    RegisterQuiet(d, j.registry, req.live, validated.env);
    var enabled := RunRegister(d, j.registry, req.live, validated.env).0;
    ReturnedAre(base, previous, req, enabled.disk.registry, req.live);
    QuietTurn(enabled.disk, enabled.env);
    var reloaded := Turn(enabled.disk, enabled.env);
    QuietTurn(reloaded.disk, reloaded.env);
  }

  lemma {:induction false} RegisterQuiet(d: Disk, todo: seq<Record>, live: set<string>, env: seq<Happening>)
    requires Quiet(env)
    ensures Quiet(RunRegister(d, todo, live, env).0.env)
    decreases |todo|
  {
    QuietTurn(d, env);
    if todo != [] { RegisterQuiet(RegistryChange(d, todo[0], false, live).0, todo[1..], live, Turn(d, env).env); }
  }

  lemma SecondHalfLeaves(
    digest: Bytes -> Hash, base: Registry, previous: Option<Manifest>, d: Disk, j: Journal, req: Request,
    env: seq<Happening>)
    requires Quiet(env) && Returned(base, previous, req, d.registry) && j.previous == previous
    requires RunSecondHalf(digest, d, j, RetirementsFor(d.registry, previous, req), req, env).outcome.Done?
    ensures var r := RunSecondHalf(digest, d, j, RetirementsFor(d.registry, previous, req), req, env);
      && RegistryAfter(base, previous, req, r.disk.registry)
      && r.disk.manifest.Some? && r.disk.manifest.value.retired == RetiredAfter(base, previous, req)
  {
    hide Turn;
    hide RunRegister;
    hide RegistryAfter;
    hide Returned;
    var retirements := RetirementsFor(d.registry, previous, req);
    RetirementsReady(base, previous, req, d.registry);
    QuietTurn(d, env);
    var extended := if retirements == [] then Run(d, Done, env)
                    else RunStep(d, (x: Disk) => x.(journal := Some(j)), env);
    RegisterExactly(extended.disk, retirements, req.live, None, INTEGRATION, extended.env);
    RegisterQuiet(extended.disk, retirements, req.live, extended.env);
    var (retired, took) := RunRegister(extended.disk, retirements, req.live, extended.env);
    LeftAre(base, previous, req, d.registry, retired.disk.registry);
    LeavingAre(
      Replaced(previous, req), base, req, (x: (string, string)) => Retires(base, req.wanted, x),
      (x: (string, string)) => Leaves(base, req, x.0, x.1), (x: Record) => Chosen(req.live, None, INTEGRATION, x));
    KeptAre(Earlier(previous), req.wanted);
    hide RetirementsFor;
    var kept := if previous.None? then [] else KeptRetired(previous.value.retired, req.wanted);
    assert kept + took == RetiredAfter(base, previous, req);
    var final := Manifest(Some(digest(req.generated)), kept + took, req.revision);
    QuietTurn(retired.disk, retired.env);
    var published := RunStep(retired.disk, (x: Disk) => x.(manifest := Some(final)), retired.env);
    QuietTurn(published.disk, published.env);
    var noted := Turn(published.disk, published.env);
    QuietTurn(noted.disk, noted.env);
  }

  /** A pass through the transaction that commits. */
  lemma AttemptChangesExactly(
    digest: Bytes -> Hash, base: Disk, previous: Option<Manifest>, req: Request, env: seq<Happening>)
    requires Quiet(env) && ValidRequest(req) && base.journal.None?
    requires RunAttempt(digest, base, NewJournal(base, previous, req), req, env).0.outcome.Done?
    ensures var r := RunAttempt(digest, base, NewJournal(base, previous, req), req, env).0;
      && RegistryAfter(base.registry, previous, req, r.disk.registry)
      && r.disk.manifest.Some? && r.disk.manifest.value.retired == RetiredAfter(base.registry, previous, req)
  {
    hide RunFirstHalf;
    hide RunSwitch;
    hide RunSecondHalf;
    hide RegistryAfter;
    hide Returned;
    var j := NewJournal(base, previous, req);
    FirstHalfRun(digest, base, previous, req, env);
    var first := RunFirstHalf(digest, base, j, req, env);
    SwitchReturns(digest, base.registry, previous, first.disk, j, req, first.env);
    var switch := RunSwitch(digest, first.disk, j, req, first.env);
    var retirements := RetirementsFor(switch.disk.registry, previous, req);
    SecondHalfLeaves(digest, base.registry, previous, switch.disk, j.(registry := j.registry + retirements), req,
                     switch.env);
  }

  /**
    What a deployment that commits has changed in the registry, whatever was pending before it: what was retired and
    is wanted again is enabled, what is replaced and free is disabled, every other entry is as on the settled site,
    and the manifest lists exactly what is retired now.
   */
  lemma CommitChangesExactly(digest: Bytes -> Hash, settled: Disk, d: Disk, req: Request, env: seq<Happening>)
    requires Quiet(env) && ValidRequest(req) && Safe(digest, settled, d)
    requires RunDeploy(digest, d, req, env).verdict == Committed
    ensures var previous, r := ReadPrevious(digest, settled).value, RunDeploy(digest, d, req, env);
      && RegistryAfter(settled.registry, previous, req, r.disk.registry)
      && r.disk.manifest.Some? && r.disk.manifest.value.retired == RetiredAfter(settled.registry, previous, req)
  {
    hide RegistryAfter;
    hide RetiredAfter;
    hide RunAttempt;
    hide RunRollback;
    var previous := ReadPrevious(digest, settled).value;
    RecoverRun(digest, settled, previous, d, env);
    var cleared := RunRecover(d, env);
    SafeWithoutJournal(digest, settled, cleared.disk);
    AttemptChangesExactly(digest, cleared.disk, previous, req, cleared.env);
  }

  // ---------------------------------------------------------------- one atomic step

  /**
    A record changes the disabler of the entry it names, and nothing else: when the entry is still the recorded one and
    is in one of the two recorded states, unless a forward retirement meets an entry that something holds.
   */
  lemma RecordChangesExactly(d: Disk, record: Record, reverse: bool, live: set<string>)
    ensures var (t, took) := RegistryChange(d, record, reverse, live);
      var e, goal := record.entityId, if reverse then record.before else record.after;
      && (took <==>
            && e in d.registry && d.registry[e].identity == record.identity
            && (d.registry[e].disabledBy == record.before || d.registry[e].disabledBy == record.after)
            && (reverse || record.after != INTEGRATION || record.before != None || e !in live))
      && t == d.(registry := t.registry)
      && t.registry == if took then d.registry[e := RegistryEntry(record.identity, goal)] else d.registry
  {
    var e := record.entityId;
    if e in d.registry { assert d.registry[e := d.registry[e]] == d.registry; }
  }

  /** A write takes effect exactly when it is done; one that raises or is never reached changes nothing. */
  lemma WriteTakesEffectExactly(d: Disk, p: Path, image: Option<Bytes>)
    ensures RunWrite(d, p, image, [Fails]) == Run(d, Failed, [])
    ensures RunWrite(d, p, image, [Crashes]) == Run(d, Crashed, [])
    ensures var r := RunWrite(d, p, image, [Fine]);
      && r.outcome == Done && r.disk == d.(files := r.disk.files) && Read(r.disk, p) == image
      && forall q :: q != p ==> Read(r.disk, q) == Read(d, q)
  {
  }

  /**
    The active deployment is what the manifest says, when the generated file is the one it names; one without a digest
    is none, and then there must be no generated file.
   */
  lemma PreviousIsReadExactly(digest: Bytes -> Hash, d: Disk)
    ensures ReadPrevious(digest, d) ==
      if d.manifest != None && d.manifest.value.managedDigest != None then
        if GENERATED in d.files && digest(d.files[GENERATED]) == d.manifest.value.managedDigest.value
        then Success(d.manifest) else Failure(ModifiedExternally)
      else if GENERATED in d.files then Failure(Unowned) else Success(None)
  {
  }
}
