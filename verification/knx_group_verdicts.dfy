/** What the addresses of one function, one name or one channel become, told from what they are. */
module KnxGroupVerdicts {
  import opened Common
  import Id = KnxIdentity
  import opened KnxPlannerModel
  import opened KnxPlannerPasses

  // ------------------------------------------------------------------- good members

  predicate IsMember(r: Ref) { RoleEntry(r.role).Some? }

  function FieldOf(r: Ref): Field
    requires IsMember(r)
  {
    RoleEntry(r.role).value.field
  }

  /** The address exists, is not blocked, has a type the role admits, and takes writes where the role commands. */
  ghost predicate Fits(s: State, r: Ref)
    requires IsMember(r)
  {
    && r.address in s.groups && r.address !in s.blocked
    && r.address in s.dpts && s.dpts[r.address] in RoleEntry(r.role).value.types
    && Writable(s, r)
  }

  /** A command field's objects, if there are any, include one that takes writes. */
  ghost predicate Writable(s: State, r: Ref)
    requires IsMember(r) && r.address in s.groups
  {
    FieldOf(r) !in STATE_FIELDS && s.groups[r.address].objects != [] ==>
      exists o :: o in s.groups[r.address].objects && o.flags.communication.Yes? && o.flags.write.Yes?
  }

  const STATE_FIELDS := {
    StateAddress, BrightnessStateAddress, PositionStateAddress, AngleStateAddress, ColorTemperatureStateAddress,
    TargetTemperatureStateAddress, ControllerModeStateAddress, OperationModeStateAddress, FanSpeedStateAddress,
    FanStepStateAddress, TemperatureAddress}

  /** No two members give one field two addresses. */
  ghost predicate Agree(refs: seq<Ref>) {
    forall r, q :: r in refs && q in refs && IsMember(r) && IsMember(q) && FieldOf(r) == FieldOf(q) ==>
      r.address == q.address
  }

  ghost predicate Good(s: State, refs: seq<Ref>) { Agree(refs) && forall r :: r in refs && IsMember(r) ==> Fits(s, r) }

  /** The fields are exactly the members', with their addresses. */
  ghost predicate Fills(refs: seq<Ref>, fields: Fields) {
    && (forall r :: r in refs && IsMember(r) ==> FieldOf(r) in fields && fields[FieldOf(r)] == r.address)
    && (forall f :: f in fields ==> exists r :: r in refs && IsMember(r) && FieldOf(r) == f)
  }

  lemma CommandsAre(f: Field)
    ensures IsCommandField(f) <==> f !in STATE_FIELDS
  {
  }

  /** Why a member stops the group that it joins as the next one. */
  ghost predicate Stops(s: State, before: seq<Ref>, r: Ref, issue: Issue)
    requires IsMember(r)
  {
    if r.address !in s.groups || r.address in s.blocked then issue == InvalidFunctionAddress
    else if r.address !in s.dpts || s.dpts[r.address] !in RoleEntry(r.role).value.types then issue == TypeMismatch
    else if exists q :: q in before && IsMember(q) && FieldOf(q) == FieldOf(r) && q.address != r.address
    then issue == AmbiguousRole
    else !Writable(s, r) && issue == NotWritable
  }

  ghost predicate StopsAt(s: State, refs: seq<Ref>, i: nat, issue: Issue) {
    i < |refs| && Good(s, refs[..i]) && IsMember(refs[i]) && Stops(s, refs[..i], refs[i], issue)
  }

  lemma MemberProblem(s: State, before: seq<Ref>, r: Ref, fields: Fields)
    requires IsMember(r) && Fills(before, fields)
    ensures var problem := Problem(s, r.address, RoleEntry(r.role).value, fields);
      && (problem.Some? ==> Stops(s, before, r, problem.value))
      && (problem.None? ==> Fits(s, r) && forall q :: q in before && IsMember(q) && FieldOf(q) == FieldOf(r) ==>
                              q.address == r.address)
  {
    hide RoleEntry;
    hide STATE_FIELDS;
    hide IsCommandField;
    CommandsAre(FieldOf(r));
  }

  lemma FillsMore(before: seq<Ref>, r: Ref, fields: Fields)
    requires Fills(before, fields)
    requires IsMember(r) ==> forall q :: q in before && IsMember(q) && FieldOf(q) == FieldOf(r) ==> q.address == r.address
    ensures Fills(before + [r], if IsMember(r) then fields[FieldOf(r) := r.address] else fields)
  {
    hide RoleEntry;
    var more, after := before + [r], if IsMember(r) then fields[FieldOf(r) := r.address] else fields;
    assert r in more;
    forall f | f in after ensures exists q :: q in more && IsMember(q) && FieldOf(q) == f {
      if f in fields {
        var q :| q in before && IsMember(q) && FieldOf(q) == f;
        assert q in more;
      }
    }
  }

  lemma GoodMore(s: State, before: seq<Ref>, r: Ref)
    requires Good(s, before)
    requires IsMember(r) ==>
      && Fits(s, r)
      && forall q :: q in before && IsMember(q) && FieldOf(q) == FieldOf(r) ==> q.address == r.address
    ensures Good(s, before + [r])
  {
    hide RoleEntry;
    hide Fits;
  }

  lemma StopsHere(s: State, before: seq<Ref>, refs: seq<Ref>, issue: Issue)
    requires Good(s, before) && refs != [] && IsMember(refs[0]) && Stops(s, before, refs[0], issue)
    ensures StopsAt(s, before + refs, |before|, issue)
  {
    hide Good;
    hide Stops;
    assert (before + refs)[..|before|] == before && (before + refs)[|before|] == refs[0];
  }

  /** What collecting from here on comes to. */
  ghost predicate Collects(s: State, all: seq<Ref>, from: nat, r: Result<Fields, Issue>) {
    match r
    case Success(fields) => Good(s, all) && Fills(all, fields)
    case Failure(issue) => exists i: nat :: from <= i && StopsAt(s, all, i, issue)
  }

  lemma CollectsLater(s: State, all: seq<Ref>, from: nat, r: Result<Fields, Issue>)
    requires Collects(s, all, from + 1, r)
    ensures Collects(s, all, from, r)
  {
    hide Good;
    hide Fills;
    hide StopsAt;
  }

  lemma CollectsNot(s: State, before: seq<Ref>, refs: seq<Ref>, issue: Issue)
    requires Good(s, before) && refs != [] && IsMember(refs[0]) && Stops(s, before, refs[0], issue)
    ensures Collects(s, before + refs, |before|, Failure(issue))
  {
    hide Good;
    hide Stops;
    hide Fills;
    StopsHere(s, before, refs, issue);
  }

  lemma {:induction false} CollectFrom(s: State, before: seq<Ref>, refs: seq<Ref>, fields: Fields)
    requires Good(s, before) && Fills(before, fields)
    ensures Collects(s, before + refs, |before|, Collect(s, refs, fields))
    decreases |refs|
  {
    hide RoleEntry;
    hide Problem;
    hide Good;
    hide Fills;
    hide Fits;
    hide Stops;
    if refs == [] {
      assert before + refs == before;
    } else {
      var r, rest := refs[0], refs[1..];
      assert before + refs == before + [r] + rest;
      hide Collects;
      if !IsMember(r) {
        FillsMore(before, r, fields);
        GoodMore(s, before, r);
        CollectFrom(s, before + [r], rest, fields);
        CollectsLater(s, before + refs, |before|, Collect(s, rest, fields));
      } else {
        MemberProblem(s, before, r, fields);
        var problem := Problem(s, r.address, RoleEntry(r.role).value, fields);
        if problem.None? {
          var more := fields[FieldOf(r) := r.address];
          FillsMore(before, r, fields);
          GoodMore(s, before, r);
          CollectFrom(s, before + [r], rest, more);
          CollectsLater(s, before + refs, |before|, Collect(s, rest, more));
        } else {
          CollectsNot(s, before, refs, problem.value);
        }
      }
    }
  }

  lemma StoppedIsBad(s: State, refs: seq<Ref>, i: nat, issue: Issue)
    requires StopsAt(s, refs, i, issue)
    ensures !Good(s, refs)
  {
    hide RoleEntry;
    assert refs[i] in refs;
  }

  /** A group's fields are collected exactly when its members are good; otherwise the first that is not decides. */
  lemma {:induction false} CollectExactly(s: State, refs: seq<Ref>)
    ensures match Collect(s, refs, map[])
      case Success(fields) => Good(s, refs) && Fills(refs, fields)
      case Failure(issue) => !Good(s, refs) && exists i: nat :: StopsAt(s, refs, i, issue)
  {
    hide RoleEntry;
    var none: seq<Ref> := [];
    assert Good(s, none) && Fills(none, map[]);
    CollectFrom(s, none, refs, map[]);
    assert none + refs == refs;
    match Collect(s, refs, map[])
    case Success(_) =>
    case Failure(issue) =>
      var i: nat :| StopsAt(s, refs, i, issue);
      StoppedIsBad(s, refs, i, issue);
  }

  lemma FilledOnce(refs: seq<Ref>, a: Fields, b: Fields)
    requires Fills(refs, a) && Fills(refs, b)
    ensures a == b
  {
    hide RoleEntry;
    assert forall f :: f in a ==> f in b && a[f] == b[f];
    assert forall f :: f in b ==> f in a;
  }

  // -------------------------------------------------------- what good members become

  predicate ClimateLike(kind: Kind, fields: Fields) { kind == ClimateKind || TargetTemperatureAddress in fields }

  predicate CoverLike(kind: Kind, fields: Fields) {
    !ClimateLike(kind, fields) && (kind == CoverKind || MoveLongAddress in fields)
  }

  predicate SceneLike(kind: Kind, fields: Fields) {
    kind == SceneKind && TargetTemperatureAddress !in fields && MoveLongAddress !in fields
  }

  predicate OtherLike(kind: Kind, fields: Fields) {
    kind in {LightKind, OtherKind} && TargetTemperatureAddress !in fields && MoveLongAddress !in fields
  }

  predicate FanLike(kind: Kind, fields: Fields) { OtherLike(kind, fields) && FanStepAddress in fields }

  predicate OutputLike(kind: Kind, fields: Fields) {
    OtherLike(kind, fields) && FanStepAddress !in fields && Address in fields
  }

  predicate Complete(fields: Fields) {
    && TemperatureAddress in fields && TargetTemperatureAddress in fields && TargetTemperatureStateAddress in fields
  }

  predicate IsStage(s: State, fields: Fields, f: Field) {
    f in fields && fields[f] in s.dpts && s.dpts[fields[f]] == Type(5, 100)
  }

  /** Command and state of a fan are both stages or both not. */
  predicate FanAlike(s: State, fields: Fields) {
    FanSpeedAddress in fields && FanSpeedStateAddress in fields ==>
      (IsStage(s, fields, FanSpeedAddress) <==> IsStage(s, fields, FanSpeedStateAddress))
  }

  /** A colour feedback comes with a command of its own type. */
  predicate ColorAlike(s: State, fields: Fields) {
    ColorTemperatureStateAddress in fields ==>
      && ColorTemperatureAddress in fields
      && fields[ColorTemperatureAddress] in s.dpts && fields[ColorTemperatureStateAddress] in s.dpts
      && s.dpts[fields[ColorTemperatureAddress]] == s.dpts[fields[ColorTemperatureStateAddress]]
  }

  predicate Numbered(scene: Option<int>) { scene.Some? && 1 <= scene.value <= 64 }

  predicate BecomesClimate(s: State, kind: Kind, fields: Fields) {
    && ClimateLike(kind, fields) && Complete(fields) && FanAlike(s, fields)
    && fields.Keys <= {TemperatureAddress, TargetTemperatureAddress, TargetTemperatureStateAddress, Address, StateAddress,
                       OnOffAddress, OnOffStateAddress,
                       ControllerModeAddress, ControllerModeStateAddress, OperationModeAddress, OperationModeStateAddress,
                       FanSpeedAddress, FanSpeedStateAddress}
  }

  predicate BecomesCover(kind: Kind, fields: Fields) {
    && CoverLike(kind, fields) && (MoveLongAddress in fields || PositionAddress in fields)
    && fields.Keys <= {MoveLongAddress, MoveShortAddress, StopAddress, PositionAddress, PositionStateAddress,
                       AngleAddress, AngleStateAddress}
  }

  predicate BecomesScene(kind: Kind, fields: Fields, scene: Option<int>) {
    SceneLike(kind, fields) && fields.Keys == {Address} && Numbered(scene)
  }

  predicate BecomesFan(kind: Kind, fields: Fields) {
    FanLike(kind, fields) && fields.Keys <= {Address, StateAddress, FanStepAddress, FanStepStateAddress,
                                             SwitchAddress, SwitchStateAddress}
  }

  predicate BecomesLight(s: State, kind: Kind, fields: Fields) {
    && OutputLike(kind, fields) && kind == LightKind && ColorAlike(s, fields)
    && fields.Keys <= {Address, StateAddress, BrightnessAddress, BrightnessStateAddress, ColorTemperatureAddress,
                       ColorTemperatureStateAddress}
  }

  predicate BecomesSwitch(kind: Kind, fields: Fields) {
    OutputLike(kind, fields) && kind == OtherKind && fields.Keys <= {Address, StateAddress}
  }

  /** Types or numbers do not go together. */
  predicate Mismatched(s: State, kind: Kind, fields: Fields) {
    || (ClimateLike(kind, fields) && Complete(fields) && !FanAlike(s, fields))
    || (OutputLike(kind, fields) && !ColorAlike(s, fields))
  }

  predicate Incomplete(kind: Kind, fields: Fields) {
    && ClimateLike(kind, fields) && !Complete(fields)
    && (TargetTemperatureAddress in fields || TargetTemperatureStateAddress in fields)
  }

  predicate Unnumbered(kind: Kind, fields: Fields, scene: Option<int>) {
    SceneLike(kind, fields) && !(Address in fields && Numbered(scene))
  }

  /** Nothing says what the addresses are. */
  predicate Undecided(s: State, kind: Kind, fields: Fields) {
    || (ClimateLike(kind, fields) && TargetTemperatureAddress !in fields && TargetTemperatureStateAddress !in fields)
    || (CoverLike(kind, fields) && MoveLongAddress !in fields && PositionAddress !in fields)
    || (OtherLike(kind, fields) && FanStepAddress !in fields && Address !in fields)
    || (OutputLike(kind, fields) && kind == OtherKind && ColorAlike(s, fields)
        && (BrightnessAddress in fields || ColorTemperatureAddress in fields))
  }

  /** They are something, but with addresses that do not belong to it. */
  predicate Mixed(s: State, kind: Kind, fields: Fields, scene: Option<int>) {
    && !Mismatched(s, kind, fields) && !Incomplete(kind, fields) && !Unnumbered(kind, fields, scene)
    && !Undecided(s, kind, fields)
    && !BecomesClimate(s, kind, fields) && !BecomesCover(kind, fields) && !BecomesScene(kind, fields, scene)
    && !BecomesFan(kind, fields) && !BecomesLight(s, kind, fields) && !BecomesSwitch(kind, fields)
  }

  function Renaming(platform: Platform, f: Field): Field {
    match platform
    case Climate => if f.Address? then OnOffAddress else if f.StateAddress? then OnOffStateAddress else f
    case Fan =>
      if f.Address? then SwitchAddress else if f.StateAddress? then SwitchStateAddress
      else if f.FanStepAddress? then Address else if f.FanStepStateAddress? then StateAddress else f
    case _ => f
  }

  /** The same addresses, under the names the platform has for them. */
  ghost predicate Named(platform: Platform, fields: Fields, named: Fields) {
    && (forall f :: f in fields ==> Renaming(platform, f) in named && named[Renaming(platform, f)] == fields[f])
    && (forall g :: g in named ==> exists f :: f in fields && Renaming(platform, f) == g)
  }

  /** An entity of these fields is added, and nothing else changes. */
  ghost predicate Planned(s: State, t: State, platform: Platform, name: string, settings: Settings, source: Source) {
    t == s.(candidates := s.candidates + [Candidate(platform, name, settings, source)],
            used := s.used + settings.fields.Values)
  }

  /** Every address is blocked, and reported for this unless for something before; nothing else changes. */
  ghost predicate Barred(s: State, t: State, mentioned: set<Ga>, issue: Issue) {
    && t == s.(blocked := s.blocked + mentioned, issues := t.issues)
    && t.issues.Keys == s.issues.Keys + mentioned
    && forall a :: a in t.issues ==> t.issues[a] == if a in s.issues then s.issues[a] else issue
  }

  /** No role fills these: they only come from renaming. */
  predicate RoleFields(fields: Fields) {
    && OnOffAddress !in fields && OnOffStateAddress !in fields && SwitchAddress !in fields && SwitchStateAddress !in fields
  }

  lemma RolesFillRoleFields(role: Role)
    ensures RoleEntry(role).Some? ==>
      RoleEntry(role).value.field !in {OnOffAddress, OnOffStateAddress, SwitchAddress, SwitchStateAddress}
  {
  }

  lemma FilledFields(refs: seq<Ref>, fields: Fields)
    requires Fills(refs, fields)
    ensures RoleFields(fields)
  {
    hide RoleEntry;
    forall f | f in fields ensures f !in {OnOffAddress, OnOffStateAddress, SwitchAddress, SwitchStateAddress} {
      var r :| r in refs && IsMember(r) && FieldOf(r) == f;
      RolesFillRoleFields(r.role);
    }
  }

  lemma RefuseBars(s: State, mentioned: set<Ga>, issue: Issue)
    ensures Barred(s, Refuse(s, mentioned, issue), mentioned, issue)
  {
  }

  lemma NamedOnce(platform: Platform, fields: Fields, a: Fields, b: Fields)
    requires Named(platform, fields, a) && Named(platform, fields, b)
    ensures a == b
  {
    assert forall g :: g in a ==> g in b && a[g] == b[g];
    assert forall g :: g in b ==> g in a;
  }

  /** One field after another is renamed: this is where each ends up. */
  ghost predicate Goes(fields: Fields, named: Fields, f: Field, g: Field) {
    (f in fields <==> g in named) && (f in fields ==> named[g] == fields[f])
  }

  lemma MoveGoes(fields: Fields, from: Field, to: Field, f: Field)
    requires to !in fields && from != to
    ensures var moved := Move(fields, from, to);
      from !in moved && Goes(fields, moved, from, to) && (f != from && f != to ==> Goes(fields, moved, f, f))
  {
  }

  lemma ClimateGoes(fields: Fields, f: Field)
    requires RoleFields(fields)
    ensures var named := ClimateFields(fields);
      && Address !in named && StateAddress !in named
      && Goes(fields, named, Address, OnOffAddress) && Goes(fields, named, StateAddress, OnOffStateAddress)
      && (f !in {Address, StateAddress, OnOffAddress, OnOffStateAddress} ==> Goes(fields, named, f, f))
  {
    hide Move;
    var a := Move(fields, Address, OnOffAddress);
    MoveGoes(fields, Address, OnOffAddress, StateAddress);
    MoveGoes(fields, Address, OnOffAddress, OnOffStateAddress);
    MoveGoes(fields, Address, OnOffAddress, f);
    MoveGoes(a, StateAddress, OnOffStateAddress, Address);
    MoveGoes(a, StateAddress, OnOffStateAddress, OnOffAddress);
    MoveGoes(a, StateAddress, OnOffStateAddress, f);
  }

  lemma ClimateNamed(fields: Fields)
    requires RoleFields(fields)
    ensures Named(Id.Climate, fields, ClimateFields(fields))
  {
    var named := ClimateFields(fields);
    hide ClimateFields;
    forall f | f in fields
      ensures Renaming(Id.Climate, f) in named && named[Renaming(Id.Climate, f)] == fields[f]
    {
      ClimateGoes(fields, f);
    }
    forall g | g in named ensures exists f :: f in fields && Renaming(Id.Climate, f) == g {
      ClimateGoes(fields, g);
      var f := if g.OnOffAddress? then Address else if g.OnOffStateAddress? then StateAddress else g;
      assert f in fields && Renaming(Id.Climate, f) == g;
    }
  }

  /** The first two renamings make room for the other two. */
  lemma RoomGoes(fields: Fields, f: Field)
    requires RoleFields(fields)
    ensures var b := Move(Move(fields, Address, SwitchAddress), StateAddress, SwitchStateAddress);
      && Address !in b && StateAddress !in b
      && Goes(fields, b, Address, SwitchAddress) && Goes(fields, b, StateAddress, SwitchStateAddress)
      && (f !in {Address, StateAddress, SwitchAddress, SwitchStateAddress} ==> Goes(fields, b, f, f))
  {
    hide Move;
    var a := Move(fields, Address, SwitchAddress);
    MoveGoes(fields, Address, SwitchAddress, StateAddress);
    MoveGoes(fields, Address, SwitchAddress, SwitchStateAddress);
    MoveGoes(fields, Address, SwitchAddress, f);
    MoveGoes(a, StateAddress, SwitchStateAddress, Address);
    MoveGoes(a, StateAddress, SwitchStateAddress, SwitchAddress);
    MoveGoes(a, StateAddress, SwitchStateAddress, f);
  }

  lemma StepGoes(b: Fields, f: Field)
    requires Address !in b && StateAddress !in b
    ensures var d := Move(Move(b, FanStepAddress, Address), FanStepStateAddress, StateAddress);
      && FanStepAddress !in d && FanStepStateAddress !in d
      && Goes(b, d, FanStepAddress, Address) && Goes(b, d, FanStepStateAddress, StateAddress)
      && (f !in {Address, StateAddress, FanStepAddress, FanStepStateAddress} ==> Goes(b, d, f, f))
  {
    hide Move;
    var c := Move(b, FanStepAddress, Address);
    MoveGoes(b, FanStepAddress, Address, StateAddress);
    MoveGoes(b, FanStepAddress, Address, FanStepStateAddress);
    MoveGoes(b, FanStepAddress, Address, f);
    MoveGoes(c, FanStepStateAddress, StateAddress, FanStepAddress);
    MoveGoes(c, FanStepStateAddress, StateAddress, Address);
    MoveGoes(c, FanStepStateAddress, StateAddress, f);
  }

  lemma FanGoes(fields: Fields, f: Field)
    requires RoleFields(fields)
    ensures var named := FanFields(fields);
      && FanStepAddress !in named && FanStepStateAddress !in named
      && Goes(fields, named, Address, SwitchAddress) && Goes(fields, named, StateAddress, SwitchStateAddress)
      && Goes(fields, named, FanStepAddress, Address) && Goes(fields, named, FanStepStateAddress, StateAddress)
      && (f !in {Address, StateAddress, SwitchAddress, SwitchStateAddress, FanStepAddress, FanStepStateAddress} ==>
            Goes(fields, named, f, f))
  {
    hide Move;
    var b := Move(Move(fields, Address, SwitchAddress), StateAddress, SwitchStateAddress);
    RoomGoes(fields, f);
    RoomGoes(fields, FanStepAddress);
    RoomGoes(fields, FanStepStateAddress);
    StepGoes(b, f);
    StepGoes(b, SwitchAddress);
    StepGoes(b, SwitchStateAddress);
  }

  lemma FanNamed(fields: Fields)
    requires RoleFields(fields) && FanStepAddress in fields
    ensures Named(Id.Fan, fields, FanFields(fields))
  {
    var named := FanFields(fields);
    hide FanFields;
    forall f | f in fields ensures Renaming(Id.Fan, f) in named && named[Renaming(Id.Fan, f)] == fields[f] {
      FanGoes(fields, f);
    }
    forall g | g in named ensures exists f :: f in fields && Renaming(Id.Fan, f) == g {
      FanGoes(fields, g);
      var f := if g.SwitchAddress? then Address else if g.SwitchStateAddress? then StateAddress
               else if g.Address? then FanStepAddress else if g.StateAddress? then FanStepStateAddress else g;
      assert f in fields && Renaming(Id.Fan, f) == g;
    }
  }

  lemma StagesAre(s: State, fields: Fields)
    ensures var stages := FanStages(s, ClimateFields(fields));
      && (|stages| > 1 <==> !FanAlike(s, fields))
      && (FanAlike(s, fields) ==>
            (stages == {true} <==> IsStage(s, fields, FanSpeedAddress) || IsStage(s, fields, FanSpeedStateAddress)))
  {
    var named := ClimateFields(fields);
    var stages := FanStages(s, named);
    assert forall f :: f in {FanSpeedAddress, FanSpeedStateAddress} ==>
      (f in named <==> f in fields) && (f in fields ==> named[f] == fields[f]);
    assert stages <= {true, false};
    TwoAtMost(stages);
  }

  lemma TwoAtMost(stages: set<bool>)
    ensures |stages| > 1 <==> true in stages && false in stages
    ensures !(true in stages && false in stages) ==> (stages == {true} <==> true in stages)
  {
    assert forall b :: b in stages ==> b == true || b == false;
    if true in stages && false in stages {
      assert false in stages - {true};
      assert |stages - {true}| > 0;
    } else {
      var only := if true in stages then {true} else if false in stages then {false} else {};
      forall b ensures b in stages <==> b in only { assert b == true || b == false; }
      assert stages == only;
    }
  }

  /** The settings an entity of a good group has beside its fields. */
  function SettingsOf(s: State, platform: Platform, fields: Fields, named: Fields, scene: Option<int>): Settings {
    Settings(
      named,
      if ColorTemperatureAddress in fields && (platform.Light? || platform.Switch?) then
        Some(if fields[ColorTemperatureAddress] in s.dpts && s.dpts[fields[ColorTemperatureAddress]] == Type(5, 1)
             then Relative else Absolute)
      else None,
      platform.Climate? && (IsStage(s, fields, FanSpeedAddress) || IsStage(s, fields, FanSpeedStateAddress)),
      if platform.Scene? then scene else None, None, false, None, false)
  }

  /** Which entity good members become, if they become one. */
  ghost predicate Becomes(s: State, kind: Kind, fields: Fields, scene: Option<int>, platform: Platform) {
    match platform
    case Climate => BecomesClimate(s, kind, fields)
    case Cover => BecomesCover(kind, fields)
    case Scene => BecomesScene(kind, fields, scene)
    case Fan => BecomesFan(kind, fields)
    case Light => BecomesLight(s, kind, fields)
    case Switch => BecomesSwitch(kind, fields)
    case _ => false
  }

  /** What the whole group comes to. */
  ghost predicate Comes(
    s: State, t: State, name: string, kind: Kind, fields: Fields, mentioned: set<Ga>, scene: Option<int>, source: Source)
  {
    && (forall platform :: Becomes(s, kind, fields, scene, platform) ==>
          exists named :: Named(platform, fields, named)
            && Planned(s, t, platform, name, SettingsOf(s, platform, fields, named, scene), source))
    && (Mismatched(s, kind, fields) ==> Barred(s, t, mentioned, TypeMismatch))
    && (Incomplete(kind, fields) ==> Barred(s, t, mentioned, IncompleteClimate))
    && (Unnumbered(kind, fields, scene) ==> Barred(s, t, mentioned, MissingSceneNumber))
    && (Mixed(s, kind, fields, scene) ==> Barred(s, t, mentioned, IncompatibleRoles))
    && (Undecided(s, kind, fields) ==> t == s)
  }

  /** Of the five ways a group can look only one applies. */
  lemma LooksOnce(kind: Kind, fields: Fields)
    ensures ClimateLike(kind, fields) ==> !CoverLike(kind, fields) && !SceneLike(kind, fields) && !OtherLike(kind, fields)
    ensures CoverLike(kind, fields) ==> !SceneLike(kind, fields) && !OtherLike(kind, fields)
    ensures SceneLike(kind, fields) ==> !ClimateLike(kind, fields) && !CoverLike(kind, fields) && !OtherLike(kind, fields)
    ensures OtherLike(kind, fields) ==> !ClimateLike(kind, fields) && !CoverLike(kind, fields) && !SceneLike(kind, fields)
    ensures ClimateLike(kind, fields) || CoverLike(kind, fields) || SceneLike(kind, fields) || OtherLike(kind, fields)
  {
  }

  ghost predicate Only(
    s: State, kind: Kind, fields: Fields, scene: Option<int>, platform: Platform, mismatched: bool, incomplete: bool,
    unnumbered: bool, undecided: bool)
  {
    && (forall p :: Becomes(s, kind, fields, scene, p) ==> p == platform)
    && Mismatched(s, kind, fields) == mismatched && Incomplete(kind, fields) == incomplete
    && Unnumbered(kind, fields, scene) == unnumbered && Undecided(s, kind, fields) == undecided
    && (Mixed(s, kind, fields, scene) <==>
          !mismatched && !incomplete && !unnumbered && !undecided && !Becomes(s, kind, fields, scene, platform))
  }

  lemma ClimateOnly(s: State, kind: Kind, fields: Fields, scene: Option<int>)
    requires ClimateLike(kind, fields)
    ensures var set2 := TargetTemperatureAddress in fields || TargetTemperatureStateAddress in fields;
      Only(s, kind, fields, scene, Id.Climate, Complete(fields) && !FanAlike(s, fields), !Complete(fields) && set2, false,
           !set2)
  {
    LooksOnce(kind, fields);
    hide ClimateLike;
    hide CoverLike;
    hide SceneLike;
    hide OtherLike;
    hide FanAlike;
    hide ColorAlike;
  }

  lemma CoverOnly(s: State, kind: Kind, fields: Fields, scene: Option<int>)
    requires CoverLike(kind, fields)
    ensures Only(s, kind, fields, scene, Id.Cover, false, false, false,
                 MoveLongAddress !in fields && PositionAddress !in fields)
  {
    LooksOnce(kind, fields);
    assert !ClimateLike(kind, fields);
    hide ClimateLike;
    hide CoverLike;
    hide SceneLike;
    hide OtherLike;
    hide FanAlike;
    hide ColorAlike;
  }

  lemma SceneOnly(s: State, kind: Kind, fields: Fields, scene: Option<int>)
    requires SceneLike(kind, fields)
    ensures Only(s, kind, fields, scene, Id.Scene, false, false, !(Address in fields && Numbered(scene)), false)
  {
    LooksOnce(kind, fields);
    hide ClimateLike;
    hide CoverLike;
    hide SceneLike;
    hide OtherLike;
    hide FanAlike;
    hide ColorAlike;
  }

  lemma FanOnly(s: State, kind: Kind, fields: Fields, scene: Option<int>)
    requires FanLike(kind, fields)
    ensures Only(s, kind, fields, scene, Id.Fan, false, false, false, false)
  {
    LooksOnce(kind, fields);
    hide ClimateLike;
    hide CoverLike;
    hide SceneLike;
    hide OtherLike;
    hide FanAlike;
    hide ColorAlike;
  }

  lemma OutputOnly(s: State, kind: Kind, fields: Fields, scene: Option<int>)
    requires OutputLike(kind, fields)
    ensures Only(s, kind, fields, scene, if kind == LightKind then Id.Light else Id.Switch, !ColorAlike(s, fields), false,
                 false, kind == OtherKind && ColorAlike(s, fields)
                        && (BrightnessAddress in fields || ColorTemperatureAddress in fields))
  {
    assert kind == LightKind || kind == OtherKind;
    LooksOnce(kind, fields);
    hide ClimateLike;
    hide CoverLike;
    hide SceneLike;
    hide OtherLike;
    hide FanAlike;
    hide ColorAlike;
  }

  /** So the group comes to what the one platform it can be comes to. */
  lemma ComesOnly(
    s: State, t: State, name: string, kind: Kind, fields: Fields, mentioned: set<Ga>, scene: Option<int>, source: Source,
    platform: Platform, mismatched: bool, incomplete: bool, unnumbered: bool, undecided: bool, named: Fields)
    requires Only(s, kind, fields, scene, platform, mismatched, incomplete, unnumbered, undecided)
    requires Becomes(s, kind, fields, scene, platform) ==>
      Named(platform, fields, named)
      && Planned(s, t, platform, name, SettingsOf(s, platform, fields, named, scene), source)
    requires mismatched ==> Barred(s, t, mentioned, TypeMismatch)
    requires incomplete ==> Barred(s, t, mentioned, IncompleteClimate)
    requires unnumbered ==> Barred(s, t, mentioned, MissingSceneNumber)
    requires (!mismatched && !incomplete && !unnumbered && !undecided && !Becomes(s, kind, fields, scene, platform)) ==>
      Barred(s, t, mentioned, IncompatibleRoles)
    requires undecided ==> t == s
    ensures Comes(s, t, name, kind, fields, mentioned, scene, source)
  {
    hide Becomes;
    hide Named;
    hide Planned;
    hide Barred;
    hide Mismatched;
    hide Incomplete;
    hide Unnumbered;
    hide Undecided;
    hide Mixed;
  }

  lemma ClimateSettings(s: State, fields: Fields, named: Fields, scene: Option<int>)
    ensures SettingsOf(s, Id.Climate, fields, named, scene) ==
      Plain(named).(fanStep := IsStage(s, fields, FanSpeedAddress) || IsStage(s, fields, FanSpeedStateAddress))
  {
  }

  /** What the verdict on a climate does to the state. */
  lemma ClimateVerdict(
    s: State, name: string, kind: Kind, fields: Fields, mentioned: set<Ga>, source: Source, named: Fields, stage: bool)
    requires RoleFields(fields) && ClimateLike(kind, fields) && named == ClimateFields(fields)
    requires stage == (IsStage(s, fields, FanSpeedAddress) || IsStage(s, fields, FanSpeedStateAddress))
    ensures var t := Conclude(s, name, JudgeClimate(s, fields), mentioned, source);
      && (BecomesClimate(s, kind, fields) ==> t == Add(s, Candidate(Id.Climate, name, Plain(named).(fanStep := stage), source)))
      && (Complete(fields) && !FanAlike(s, fields) ==> t == Refuse(s, mentioned, TypeMismatch))
      && (Complete(fields) && FanAlike(s, fields) && !BecomesClimate(s, kind, fields) ==>
            t == Refuse(s, mentioned, IncompatibleRoles))
      && (!Complete(fields) && (TargetTemperatureAddress in fields || TargetTemperatureStateAddress in fields) ==>
            t == Refuse(s, mentioned, IncompleteClimate))
      && (TargetTemperatureAddress !in fields && TargetTemperatureStateAddress !in fields ==> t == s)
  {
    StagesAre(s, fields);
    ClimateKeysFit(fields);
    assert CLIMATE_NEEDS <= fields.Keys <==> Complete(fields);
    hide FanStages;
    hide IsStage;
    hide FanAlike;
    hide ClimateFields;
    hide Refuse;
    hide Allowed;
    hide Add;
    hide CLIMATE_NEEDS;
  }

  lemma BecomesAre(s: State, kind: Kind, fields: Fields, scene: Option<int>)
    ensures Becomes(s, kind, fields, scene, Id.Climate) <==> BecomesClimate(s, kind, fields)
    ensures Becomes(s, kind, fields, scene, Id.Cover) <==> BecomesCover(kind, fields)
    ensures Becomes(s, kind, fields, scene, Id.Scene) <==> BecomesScene(kind, fields, scene)
    ensures Becomes(s, kind, fields, scene, Id.Fan) <==> BecomesFan(kind, fields)
    ensures Becomes(s, kind, fields, scene, Id.Light) <==> BecomesLight(s, kind, fields)
    ensures Becomes(s, kind, fields, scene, Id.Switch) <==> BecomesSwitch(kind, fields)
  {
    hide BecomesClimate;
    hide BecomesCover;
    hide BecomesScene;
    hide BecomesFan;
    hide BecomesLight;
    hide BecomesSwitch;
  }

  lemma AddPlans(s: State, c: Candidate)
    ensures Planned(s, Add(s, c), c.platform, c.name, c.settings, c.source)
  {
  }

  lemma ClimateComes(
    s: State, name: string, kind: Kind, fields: Fields, mentioned: set<Ga>, scene: Option<int>, source: Source)
    requires RoleFields(fields) && ClimateLike(kind, fields)
    ensures Comes(s, Conclude(s, name, JudgeClimate(s, fields), mentioned, source),
                  name, kind, fields, mentioned, scene, source)
  {
    var t := Conclude(s, name, JudgeClimate(s, fields), mentioned, source);
    var named := ClimateFields(fields);
    var stage := IsStage(s, fields, FanSpeedAddress) || IsStage(s, fields, FanSpeedStateAddress);
    var set2 := TargetTemperatureAddress in fields || TargetTemperatureStateAddress in fields;
    ClimateNamed(fields);
    ClimateVerdict(s, name, kind, fields, mentioned, source, named, stage);
    RefuseBars(s, mentioned, TypeMismatch);
    RefuseBars(s, mentioned, IncompleteClimate);
    RefuseBars(s, mentioned, IncompatibleRoles);
    ClimateOnly(s, kind, fields, scene);
    ClimateSettings(s, fields, named, scene);
    AddPlans(s, Candidate(Id.Climate, name, Plain(named).(fanStep := stage), source));
    BecomesAre(s, kind, fields, scene);
    assert Complete(fields) ==> set2;
    assert BecomesClimate(s, kind, fields) ==> Complete(fields) && FanAlike(s, fields);
    hide *;
    ComesOnly(s, t, name, kind, fields, mentioned, scene, source, Id.Climate, Complete(fields) && !FanAlike(s, fields),
              !Complete(fields) && set2, false, !set2, named);
  }

  lemma ClimateKeysFit(fields: Fields)
    requires RoleFields(fields)
    ensures ClimateFields(fields).Keys <= Allowed(Id.Climate) <==>
      fields.Keys <= {TemperatureAddress, TargetTemperatureAddress, TargetTemperatureStateAddress, Address, StateAddress,
                      OnOffAddress, OnOffStateAddress,
                      ControllerModeAddress, ControllerModeStateAddress, OperationModeAddress, OperationModeStateAddress,
                      FanSpeedAddress, FanSpeedStateAddress}
  {
    var named := ClimateFields(fields);
    assert forall f :: f in fields && f != Address && f != StateAddress ==> f in named;
    assert forall g :: g in named && g != OnOffAddress && g != OnOffStateAddress ==> g in fields;
    assert Address !in named && StateAddress !in named;
  }

  lemma FanVerdict(s: State, name: string, kind: Kind, fields: Fields, mentioned: set<Ga>, source: Source)
    requires RoleFields(fields) && FanLike(kind, fields)
    ensures var t := Conclude(s, name, JudgeFan(fields), mentioned, source);
      && (BecomesFan(kind, fields) ==> t == Add(s, Candidate(Id.Fan, name, Plain(FanFields(fields)), source)))
      && (!BecomesFan(kind, fields) ==> t == Refuse(s, mentioned, IncompatibleRoles))
  {
    FanKeysFit(fields);
    hide FanFields;
    hide Refuse;
    hide Add;
    hide Allowed;
  }

  lemma FanComes(
    s: State, name: string, kind: Kind, fields: Fields, mentioned: set<Ga>, scene: Option<int>, source: Source)
    requires RoleFields(fields) && FanLike(kind, fields)
    ensures Comes(s, Conclude(s, name, JudgeFan(fields), mentioned, source),
                  name, kind, fields, mentioned, scene, source)
  {
    var t := Conclude(s, name, JudgeFan(fields), mentioned, source);
    var named := FanFields(fields);
    FanVerdict(s, name, kind, fields, mentioned, source);
    FanNamed(fields);
    PlainSettings(s, Id.Fan, fields, named, scene);
    RefuseBars(s, mentioned, IncompatibleRoles);
    FanOnly(s, kind, fields, scene);
    BecomesAre(s, kind, fields, scene);
    AddPlans(s, Candidate(Id.Fan, name, Plain(named), source));
    hide *;
    ComesOnly(s, t, name, kind, fields, mentioned, scene, source, Id.Fan, false, false, false, false, named);
  }

  lemma FanKeysFit(fields: Fields)
    requires RoleFields(fields) && FanStepAddress in fields
    ensures FanFields(fields).Keys <= Allowed(Id.Fan) <==>
      fields.Keys <= {Address, StateAddress, FanStepAddress, FanStepStateAddress, SwitchAddress, SwitchStateAddress}
  {
    var named := FanFields(fields);
    assert forall f :: f in fields && f !in {Address, StateAddress, FanStepAddress, FanStepStateAddress} ==> f in named;
    assert forall g :: g in named && g !in {Address, StateAddress, SwitchAddress, SwitchStateAddress} ==>
      g in fields && g !in {FanStepAddress, FanStepStateAddress};
  }

  lemma SameNames(platform: Platform, fields: Fields)
    requires platform.Cover? || platform.Scene? || platform.Light? || platform.Switch?
    ensures Named(platform, fields, fields)
  {
    forall g | g in fields ensures exists f :: f in fields && Renaming(platform, f) == g {
      assert Renaming(platform, g) == g;
    }
  }

  lemma AllowedAre()
    ensures Allowed(Id.Cover) == {MoveLongAddress, MoveShortAddress, StopAddress, PositionAddress, PositionStateAddress,
                                  AngleAddress, AngleStateAddress}
    ensures Allowed(Id.Scene) == {Address} && Allowed(Id.Switch) == {Address, StateAddress}
    ensures Allowed(Id.Light) == {Address, StateAddress, BrightnessAddress, BrightnessStateAddress,
                                  ColorTemperatureAddress, ColorTemperatureStateAddress}
  {
  }

  lemma ColorsAre(s: State, fields: Fields)
    ensures ColorAlike(s, fields) <==>
      (ColorTemperatureStateAddress in fields ==>
         ColorTemperatureAddress in fields
         && SameType(s, fields[ColorTemperatureAddress], fields[ColorTemperatureStateAddress]))
    ensures ColorModeOf(s, fields) ==
      if ColorTemperatureAddress in fields then
        Some(if fields[ColorTemperatureAddress] in s.dpts && s.dpts[fields[ColorTemperatureAddress]] == Type(5, 1)
             then Relative else Absolute)
      else None
  {
  }

  lemma PlainSettings(s: State, platform: Platform, fields: Fields, named: Fields, scene: Option<int>)
    requires platform.Cover? || platform.Fan? || platform.Scene?
    ensures SettingsOf(s, platform, fields, named, scene) ==
      if platform.Scene? then Plain(named).(scene := scene) else Plain(named)
  {
  }

  lemma CoverVerdict(
    s: State, name: string, kind: Kind, fields: Fields, scene: Option<int>, mentioned: set<Ga>, source: Source)
    requires CoverLike(kind, fields)
    ensures var t := Conclude(s, name, Judge(s, kind, fields, scene), mentioned, source);
      var named := MoveLongAddress in fields || PositionAddress in fields;
      && (BecomesCover(kind, fields) ==> t == Add(s, Candidate(Id.Cover, name, Plain(fields), source)))
      && (named && !BecomesCover(kind, fields) ==> t == Refuse(s, mentioned, IncompatibleRoles))
      && (!named ==> t == s)
  {
    AllowedAre();
    hide Refuse;
    hide Add;
    hide Allowed;
    hide JudgeClimate;
    hide JudgeFan;
    hide JudgeLight;
  }

  lemma CoverComes(
    s: State, name: string, kind: Kind, fields: Fields, scene: Option<int>, mentioned: set<Ga>, source: Source)
    requires CoverLike(kind, fields)
    ensures Comes(s, Conclude(s, name, Judge(s, kind, fields, scene), mentioned, source),
                  name, kind, fields, mentioned, scene, source)
  {
    var t := Conclude(s, name, Judge(s, kind, fields, scene), mentioned, source);
    var named := MoveLongAddress in fields || PositionAddress in fields;
    CoverVerdict(s, name, kind, fields, scene, mentioned, source);
    SameNames(Id.Cover, fields);
    PlainSettings(s, Id.Cover, fields, fields, scene);
    RefuseBars(s, mentioned, IncompatibleRoles);
    CoverOnly(s, kind, fields, scene);
    BecomesAre(s, kind, fields, scene);
    AddPlans(s, Candidate(Id.Cover, name, Plain(fields), source));
    assert BecomesCover(kind, fields) ==> named;
    hide *;
    ComesOnly(s, t, name, kind, fields, mentioned, scene, source, Id.Cover, false, false, false,
              MoveLongAddress !in fields && PositionAddress !in fields, fields);
  }

  lemma SceneVerdict(
    s: State, name: string, kind: Kind, fields: Fields, scene: Option<int>, mentioned: set<Ga>, source: Source)
    requires SceneLike(kind, fields)
    ensures var t := Conclude(s, name, Judge(s, kind, fields, scene), mentioned, source);
      var numbered := Address in fields && Numbered(scene);
      && (BecomesScene(kind, fields, scene) ==>
            t == Add(s, Candidate(Id.Scene, name, Plain(fields).(scene := scene), source)))
      && (numbered && !BecomesScene(kind, fields, scene) ==> t == Refuse(s, mentioned, IncompatibleRoles))
      && (!numbered ==> t == Refuse(s, mentioned, MissingSceneNumber))
  {
    AllowedAre();
    hide Refuse;
    hide Add;
    hide Allowed;
    hide JudgeClimate;
    hide JudgeFan;
    hide JudgeLight;
  }

  lemma SceneComes(
    s: State, name: string, kind: Kind, fields: Fields, scene: Option<int>, mentioned: set<Ga>, source: Source)
    requires SceneLike(kind, fields)
    ensures Comes(s, Conclude(s, name, Judge(s, kind, fields, scene), mentioned, source),
                  name, kind, fields, mentioned, scene, source)
  {
    var t := Conclude(s, name, Judge(s, kind, fields, scene), mentioned, source);
    var numbered := Address in fields && Numbered(scene);
    SceneVerdict(s, name, kind, fields, scene, mentioned, source);
    SameNames(Id.Scene, fields);
    PlainSettings(s, Id.Scene, fields, fields, scene);
    RefuseBars(s, mentioned, IncompatibleRoles);
    RefuseBars(s, mentioned, MissingSceneNumber);
    SceneOnly(s, kind, fields, scene);
    BecomesAre(s, kind, fields, scene);
    AddPlans(s, Candidate(Id.Scene, name, Plain(fields).(scene := scene), source));
    assert BecomesScene(kind, fields, scene) ==> numbered;
    hide *;
    ComesOnly(s, t, name, kind, fields, mentioned, scene, source, Id.Scene, false, false, !numbered, false, fields);
  }

  lemma OutputSettings(s: State, platform: Platform, fields: Fields, scene: Option<int>)
    requires platform.Light? || platform.Switch?
    ensures SettingsOf(s, platform, fields, fields, scene) == Plain(fields).(color := ColorModeOf(s, fields))
  {
  }

  lemma OutputVerdict(s: State, name: string, kind: Kind, fields: Fields, mentioned: set<Ga>, source: Source)
    requires OutputLike(kind, fields)
    ensures var t := Conclude(s, name, JudgeLight(s, kind, fields), mentioned, source);
      var platform := if kind == LightKind then Id.Light else Id.Switch;
      var becomes := if kind == LightKind then BecomesLight(s, kind, fields) else BecomesSwitch(kind, fields);
      var dims := BrightnessAddress in fields || ColorTemperatureAddress in fields;
      && (becomes ==> t == Add(s, Candidate(platform, name, Plain(fields).(color := ColorModeOf(s, fields)), source)))
      && (!ColorAlike(s, fields) ==> t == Refuse(s, mentioned, TypeMismatch))
      && (kind == OtherKind && ColorAlike(s, fields) && dims ==> t == s)
      && (ColorAlike(s, fields) && !(kind == OtherKind && dims) && !becomes ==> t == Refuse(s, mentioned, IncompatibleRoles))
  {
    assert kind == LightKind || kind == OtherKind;
    AllowedAre();
    ColorsAre(s, fields);
    hide ColorAlike;
    hide ColorModeOf;
    hide SameType;
    hide Refuse;
    hide Add;
    hide Allowed;
  }

  lemma OutputComes(
    s: State, name: string, kind: Kind, fields: Fields, scene: Option<int>, mentioned: set<Ga>, source: Source)
    requires OutputLike(kind, fields)
    ensures Comes(s, Conclude(s, name, JudgeLight(s, kind, fields), mentioned, source),
                  name, kind, fields, mentioned, scene, source)
  {
    var t := Conclude(s, name, JudgeLight(s, kind, fields), mentioned, source);
    assert kind == LightKind || kind == OtherKind;
    var platform := if kind == LightKind then Id.Light else Id.Switch;
    SameNames(platform, fields);
    RefuseBars(s, mentioned, IncompatibleRoles);
    RefuseBars(s, mentioned, TypeMismatch);
    OutputOnly(s, kind, fields, scene);
    OutputVerdict(s, name, kind, fields, mentioned, source);
    OutputSettings(s, platform, fields, scene);
    BecomesAre(s, kind, fields, scene);
    AddPlans(s, Candidate(platform, name, Plain(fields).(color := ColorModeOf(s, fields)), source));
    assert BecomesLight(s, kind, fields) ==> ColorAlike(s, fields);
    assert BecomesSwitch(kind, fields) ==> ColorAlike(s, fields);
    hide *;
    ComesOnly(s, t, name, kind, fields, mentioned, scene, source, platform, !ColorAlike(s, fields), false, false,
              kind == OtherKind && ColorAlike(s, fields)
              && (BrightnessAddress in fields || ColorTemperatureAddress in fields), fields);
  }

  lemma NothingComes(
    s: State, name: string, kind: Kind, fields: Fields, scene: Option<int>, mentioned: set<Ga>, source: Source)
    requires OtherLike(kind, fields) && FanStepAddress !in fields && Address !in fields
    ensures Comes(s, Conclude(s, name, Judge(s, kind, fields, scene), mentioned, source),
                  name, kind, fields, mentioned, scene, source)
  {
    LooksOnce(kind, fields);
    assert Judge(s, kind, fields, scene) == Ignored;
    hide ClimateLike;
    hide CoverLike;
    hide SceneLike;
    hide OtherLike;
    hide Judge;
  }

  lemma VerdictComes(
    s: State, name: string, kind: Kind, fields: Fields, scene: Option<int>, mentioned: set<Ga>, source: Source)
    requires RoleFields(fields)
    ensures Comes(s, Conclude(s, name, Judge(s, kind, fields, scene), mentioned, source),
                  name, kind, fields, mentioned, scene, source)
  {
    hide Comes;
    hide Conclude;
    hide JudgeClimate;
    hide JudgeFan;
    hide JudgeLight;
    if ClimateLike(kind, fields) {
      ClimateComes(s, name, kind, fields, mentioned, scene, source);
    } else if CoverLike(kind, fields) {
      CoverComes(s, name, kind, fields, scene, mentioned, source);
    } else if SceneLike(kind, fields) {
      SceneComes(s, name, kind, fields, scene, mentioned, source);
    } else if FanLike(kind, fields) {
      FanComes(s, name, kind, fields, mentioned, scene, source);
    } else if OutputLike(kind, fields) {
      OutputComes(s, name, kind, fields, scene, mentioned, source);
    } else {
      NothingComes(s, name, kind, fields, scene, mentioned, source);
    }
  }

  /** Exactly one thing happens to good members. */
  lemma OneThingHappens(s: State, kind: Kind, fields: Fields, scene: Option<int>)
    ensures
      || (exists platform :: Becomes(s, kind, fields, scene, platform))
      || Mismatched(s, kind, fields) || Incomplete(kind, fields) || Unnumbered(kind, fields, scene)
      || Mixed(s, kind, fields, scene) || Undecided(s, kind, fields)
    ensures forall p, q :: Becomes(s, kind, fields, scene, p) && Becomes(s, kind, fields, scene, q) ==> p == q
  {
    if BecomesClimate(s, kind, fields) { assert Becomes(s, kind, fields, scene, Id.Climate); }
    if BecomesCover(kind, fields) { assert Becomes(s, kind, fields, scene, Id.Cover); }
    if BecomesScene(kind, fields, scene) { assert Becomes(s, kind, fields, scene, Id.Scene); }
    if BecomesFan(kind, fields) { assert Becomes(s, kind, fields, scene, Id.Fan); }
    if BecomesLight(s, kind, fields) { assert Becomes(s, kind, fields, scene, Id.Light); }
    if BecomesSwitch(kind, fields) { assert Becomes(s, kind, fields, scene, Id.Switch); }
  }

  /**
    What becomes of a function's or a name's addresses without impulses. Good members become a climate, cover, scene,
    fan, light or switch of exactly their addresses, or are refused or left alone, each exactly when its condition
    holds; the first bad member bars all of them, for what is wrong with it.
   */
  lemma GroupBecomesExactly(
    s: State, name: string, kind: Kind, refs: seq<Ref>, scene: Option<int>, source: Source, fields: Fields)
    requires Good(s, refs) ==> Fills(refs, fields) && fields.Keys !! IMPULSES
    ensures var t := JoinGroup(s, name, kind, refs, scene, source);
      var mentioned := set r | r in refs && r.address in s.groups :: r.address;
      if Good(s, refs) then Comes(s, t, name, kind, fields, mentioned, scene, source)
      else exists i: nat, issue :: StopsAt(s, refs, i, issue) && Barred(s, t, mentioned, issue)
  {
    CollectExactly(s, refs);
    hide Good;
    hide Fills;
    hide Comes;
    hide Barred;
    hide Conclude;
    hide Judge;
    match Collect(s, refs, map[])
    case Success(found) =>
      FilledOnce(refs, fields, found);
      FilledFields(refs, fields);
      VerdictComes(s, name, kind, fields, scene, Mentioned(s, refs), source);
    case Failure(issue) =>
      RefuseBars(s, Mentioned(s, refs), issue);
  }
}
