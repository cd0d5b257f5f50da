/** What every pass of the planner keeps: typed addresses, and entities whose fields the tables admit. */
module KnxPlannerSoundness {
  import opened Common
  import Id = KnxIdentity
  import opened KnxPlannerModel
  import opened KnxPlannerPasses

  // ------------------------------------------------------------ sound candidates

  /** Some role of the table fills this field and admits the address's exact type. */
  ghost predicate FilledBy(dpts: map<Ga, Type>, a: Ga, f: Field) {
    a in dpts && exists role :: Fills(role, f, dpts[a])
  }

  predicate Fills(role: Role, f: Field, t: Type) {
    RoleEntry(role).Some? && RoleEntry(role).value.field == f && t in RoleEntry(role).value.types
  }

  predicate FillsTag(dialect: Dialect, tag: Tag, f: Field, t: Type) {
    TagEntry(dialect, tag).Some? && TagEntry(dialect, tag).value.field == f && t in TagEntry(dialect, tag).value.types
  }

  /** The table's fields that an entity's field can come from. */
  function Origins(platform: Platform, impulse: bool, f: Field): set<Field> {
    if platform.Button? then IMPULSES
    else if platform.Climate? then
      if f.OnOffAddress? then {Address} else if f.OnOffStateAddress? then {StateAddress} else {f}
    else if platform.Fan? then
      if f.Address? then {FanStepAddress} else if f.StateAddress? then {FanStepStateAddress}
      else if f.SwitchAddress? then {Address} else if f.SwitchStateAddress? then {StateAddress} else {f}
    else if impulse && f.StopAddress? then {MoveShortAddress}
    else {f}
  }

  ghost predicate RoleField(dpts: map<Ga, Type>, platform: Platform, impulse: bool, f: Field, a: Ga) {
    exists o :: o in Origins(platform, impulse, f) && FilledBy(dpts, a, o)
  }

  function DialectOf(platform: Platform): Dialect { if platform.Climate? then ClimateDialect else LightDialect }

  predicate TaggedField(dialect: Dialect, f: Field, t: Type) { exists tag :: FillsTag(dialect, tag, f, t) }

  ghost predicate ChannelField(dpts: map<Ga, Type>, platform: Platform, f: Field, a: Ga) {
    && a in dpts
    && ((platform.Climate? && f.OnOffAddress? && dpts[a] == BIT)
        || TaggedField(DialectOf(platform), f, dpts[a]))
  }

  /** A type a sensor may read. */
  predicate IsReadType(t: Type) { IsMeasurement(t) || IsOtherTelemetry(t) || IsStatusBit(t) || t == STATE_BIT }

  /** Every address field holds an address whose type is admitted by what filled it. */
  ghost predicate Admitted(groups: map<Ga, Group>, dpts: map<Ga, Type>, c: Candidate) {
    var fields := c.settings.fields;
    match c.source
    case FunctionRole | NameRole =>
      forall f :: f in fields ==> RoleField(dpts, c.platform, c.settings.impulse, f, fields[f])
    case ObjectChannel =>
      forall f :: f in fields ==> ChannelField(dpts, c.platform, f, fields[f])
    case SceneSender =>
      && c.platform.Scene? && fields.Keys == {Address}
      && fields[Address] in groups && Recallable(groups[fields[Address]])
    case Telemetry =>
      && (c.platform.Sensor? || c.platform.BinarySensor?) && fields.Keys == {StateAddress}
      && fields[StateAddress] in dpts && IsReadType(dpts[fields[StateAddress]])
      && (c.platform.Sensor? ==> c.settings.reading == Some(dpts[fields[StateAddress]]))
    case ObjectFlags =>
      && c.platform.Switch? && fields.Keys == {Address}
      && HasTypeIn(dpts, fields[Address], {BIT})
      && fields[Address] in groups && HasWrite(groups[fields[Address]])
  }

  predicate HasTypeIn(dpts: map<Ga, Type>, a: Ga, types: set<Type>) { a in dpts && dpts[a] in types }

  /** The fan is a stage fan exactly when each of its addresses has that type. */
  ghost predicate FanAgrees(dpts: map<Ga, Type>, settings: Settings) {
    && (forall f :: f in {FanSpeedAddress, FanSpeedStateAddress} && f in settings.fields ==>
          (settings.fanStep <==> HasTypeIn(dpts, settings.fields[f], {FAN_STAGE})))
    && (settings.fanStep ==> FanSpeedAddress in settings.fields || FanSpeedStateAddress in settings.fields)
  }

  /** The colour mode follows the command's type, and the state has the command's type. */
  ghost predicate ColorAgrees(dpts: map<Ga, Type>, settings: Settings) {
    var fields := settings.fields;
    && (settings.color.Some? <==> ColorTemperatureAddress in fields)
    && (ColorTemperatureAddress in fields ==>
          (settings.color.value.Relative? <==> HasTypeIn(dpts, fields[ColorTemperatureAddress], {SCALING})))
    && (ColorTemperatureStateAddress in fields ==>
          && ColorTemperatureAddress in fields
          && fields[ColorTemperatureAddress] in dpts && fields[ColorTemperatureStateAddress] in dpts
          && dpts[fields[ColorTemperatureAddress]] == dpts[fields[ColorTemperatureStateAddress]])
  }

  const CLIMATE_REQUIRED := {TemperatureAddress, TargetTemperatureStateAddress}

  function Shape(platform: Platform): set<Field> {
    match platform
    case Button => {Address}
    case Sensor | BinarySensor => {StateAddress}
    case _ => Allowed(platform)
  }

  /** The fields a platform's identity is made of are there. */
  predicate Identified(platform: Platform, fields: Fields) {
    match platform
    case Light | Switch | Button | Scene | Fan => Address in fields
    case Sensor | BinarySensor => StateAddress in fields
    case Cover => MoveLongAddress in fields || PositionAddress in fields
    case Climate => TemperatureAddress in fields
    case Unsupported(_) => false
  }

  ghost predicate Sound(groups: map<Ga, Group>, dpts: map<Ga, Type>, c: Candidate) {
    && Admitted(groups, dpts, c)
    && FanAgrees(dpts, c.settings)
    && ColorAgrees(dpts, c.settings)
    && c.settings.fields.Keys <= Shape(c.platform)
    && (c.platform.Climate? ==> CLIMATE_REQUIRED <= c.settings.fields.Keys)
    && (c.platform.Scene? ==> c.settings.scene.Some? && 1 <= c.settings.scene.value <= 64)
    && Primary(c).Some?
    && Identified(c.platform, c.settings.fields)
    && (c.platform.Climate? && !c.source.ObjectChannel? ==> TargetTemperatureAddress in c.settings.fields)
  }

  // ------------------------------------------------------------------ invariants

  /** Only addresses without an exact type are in conflict. */
  ghost predicate ConflictsUntyped(s: State) {
    forall a :: a in s.issues && s.issues[a] == ConflictingType ==> a !in s.dpts
  }

  ghost predicate CandidatesSound(s: State) {
    forall c :: c in s.candidates ==>
      Sound(s.groups, s.dpts, c) && Uses(c) <= s.used && Uses(c) <= s.groups.Keys
  }

  /** Whatever is blocked has a recorded reason. */
  ghost predicate BlockedTold(s: State) { s.blocked <= s.issues.Keys }

  ghost predicate Inv(s: State) {
    ConflictsUntyped(s) && s.dpts.Keys <= s.groups.Keys && CandidatesSound(s) && BlockedTold(s)
  }

  /** Before scenes are read, every address that is not blocked has its exact type. */
  ghost predicate TypedOrBlocked(s: State) {
    forall a :: a in s.groups ==> a in s.dpts || a in s.blocked
  }

  /** Always, every address that is neither blocked nor used has its exact type. */
  ghost predicate TypedOrTaken(s: State) {
    forall a :: a in s.groups ==> a in s.dpts || a in s.blocked || a in s.used
  }

  /** Types once found stay; nothing is forgotten, and of the reasons only that of an address. */
  ghost predicate Grows(s: State, t: State) {
    && t.groups == s.groups
    && (forall a :: a in s.dpts ==> a in t.dpts && t.dpts[a] == s.dpts[a])
    && s.used <= t.used && s.reserved <= t.reserved
    && s.candidates <= t.candidates
    && s.issues.Keys <= t.issues.Keys + t.groups.Keys
    && (forall a :: a in t.issues && t.issues[a] == ConflictingType ==>
          a in s.issues && s.issues[a] == ConflictingType)
  }

  /** Only an address in conflict is ever unblocked, and then it is typed, or used at once. */
  ghost predicate UnblocksOnly(s: State, t: State, scenes: bool) {
    forall a :: a in s.blocked && a !in t.blocked ==>
      && a in s.issues && s.issues[a] == ConflictingType
      && (a in t.dpts || (scenes && a in t.used))
  }

  ghost predicate Step(s: State, t: State, scenes: bool) {
    Grows(s, t) && UnblocksOnly(s, t, scenes) && Inv(t)
  }

  lemma StepTrans(s: State, t: State, u: State, scenes: bool)
    requires Step(s, t, scenes) && Step(t, u, scenes)
    ensures Step(s, u, scenes)
  {
  }

  lemma StepKeepsTyped(s: State, t: State)
    requires TypedOrBlocked(s) && Step(s, t, false)
    ensures TypedOrBlocked(t)
  {
  }

  lemma StepKeepsTaken(s: State, t: State, scenes: bool)
    requires TypedOrTaken(s) && Step(s, t, scenes)
    ensures TypedOrTaken(t)
  {
  }

  /** A sound candidate stays sound when types are only added. */
  lemma SoundStays(groups: map<Ga, Group>, dpts: map<Ga, Type>, more: map<Ga, Type>, c: Candidate)
    requires Sound(groups, dpts, c)
    requires forall a :: a in dpts ==> a in more && more[a] == dpts[a]
    ensures Sound(groups, more, c)
  {
    if !c.source.SceneSender? { AdmittedTyped(groups, dpts, c); }
    AdmittedStays(groups, dpts, more, c);
  }

  lemma AdmittedTyped(groups: map<Ga, Group>, dpts: map<Ga, Type>, c: Candidate)
    requires Admitted(groups, dpts, c) && !c.source.SceneSender?
    ensures forall f :: f in c.settings.fields ==> c.settings.fields[f] in dpts
  {
  }

  lemma AdmittedStays(groups: map<Ga, Group>, dpts: map<Ga, Type>, more: map<Ga, Type>, c: Candidate)
    requires Admitted(groups, dpts, c)
    requires forall a :: a in dpts ==> a in more && more[a] == dpts[a]
    ensures Admitted(groups, more, c)
  {
    var fields := c.settings.fields;
    match c.source
    case FunctionRole | NameRole =>
      forall f | f in fields ensures RoleField(more, c.platform, c.settings.impulse, f, fields[f]) {
        assert RoleField(dpts, c.platform, c.settings.impulse, f, fields[f]);
        var o :| o in Origins(c.platform, c.settings.impulse, f) && FilledBy(dpts, fields[f], o);
        assert FilledBy(more, fields[f], o);
      }
    case ObjectChannel =>
      forall f | f in fields ensures ChannelField(more, c.platform, f, fields[f]) {
        assert ChannelField(dpts, c.platform, f, fields[f]);
      }
    case _ =>
  }

  /** Adding types keeps the invariant of what was planned before. */
  lemma CandidatesStay(s: State, t: State)
    requires Inv(s) && Grows(s, t) && t.candidates == s.candidates
    ensures CandidatesSound(t)
  {
    forall c | c in t.candidates ensures Sound(t.groups, t.dpts, c) {
      SoundStays(s.groups, s.dpts, t.dpts, c);
    }
  }

  // ------------------------------------------------------------------ small steps

  lemma RefuseStep(s: State, mentioned: set<Ga>, issue: Issue)
    requires Inv(s) && issue != ConflictingType
    ensures Step(s, Refuse(s, mentioned, issue), false)
    ensures Refuse(s, mentioned, issue).dpts == s.dpts && s.blocked <= Refuse(s, mentioned, issue).blocked
  {
    CandidatesStay(s, Refuse(s, mentioned, issue));
  }

  lemma AddStep(s: State, c: Candidate)
    requires Inv(s) && Sound(s.groups, s.dpts, c) && Uses(c) <= s.groups.Keys
    ensures Step(s, Add(s, c), false)
  {
    var t := Add(s, c);
    forall d | d in t.candidates ensures Sound(t.groups, t.dpts, d) && Uses(d) <= t.used && Uses(d) <= t.groups.Keys {
      assert d in s.candidates || d == c;
    }
  }

  /** Marking addresses as settled changes nothing else. */
  lemma SettleStep(s: State, notExposed: set<Ga>, reserved: set<Ga>)
    requires Inv(s)
    ensures Step(s, s.(notExposed := s.notExposed + notExposed, reserved := s.reserved + reserved), false)
  {
    CandidatesStay(s, s.(notExposed := s.notExposed + notExposed, reserved := s.reserved + reserved));
  }

  lemma {:induction false} FirstFieldFound(fields: Fields, order: seq<Field>, i: nat)
    requires i < |order| && order[i] in fields
    ensures FirstField(fields, order).Some?
  {
    if order[0] !in fields { FirstFieldFound(fields, order[1..], i - 1); }
  }

  /** The fields an entity can be named by. */
  predicate IsPrimary(f: Field) {
    f.Address? || f.MoveLongAddress? || f.PositionAddress? || f.TargetTemperatureAddress? || f.OnOffAddress?
    || f.StateAddress? || f.TemperatureAddress?
  }

  lemma PrimaryFound(c: Candidate, f: Field)
    requires IsPrimary(f) && f in c.settings.fields
    ensures Primary(c).Some?
  {
    var i := if f.Address? then 0 else if f.MoveLongAddress? then 1 else if f.PositionAddress? then 2
             else if f.TargetTemperatureAddress? then 3 else if f.OnOffAddress? then 4 else if f.StateAddress? then 5
             else 6;
    assert PRIMARY[i] == f;
    FirstFieldFound(c.settings.fields, PRIMARY, i);
  }

  // ------------------------------------------------------------------------ roles

  ghost predicate AllFilled(s: State, fields: Fields) {
    forall f :: f in fields ==> FilledBy(s.dpts, fields[f], f) && fields[f] in s.groups
  }

  /** What a group collects fills its fields with unblocked addresses of admitted types. */
  lemma {:induction false} CollectFills(s: State, refs: seq<Ref>, fields: Fields)
    requires AllFilled(s, fields) && Collect(s, refs, fields).Success?
    ensures AllFilled(s, Collect(s, refs, fields).value)
    decreases |refs|
  {
    if refs != [] {
      if RoleEntry(refs[0].role).None? {
        CollectFills(s, refs[1..], fields);
      } else {
        var entry := RoleEntry(refs[0].role).value;
        var a := refs[0].address;
        assert Problem(s, a, entry, fields).None?;
        assert Fills(refs[0].role, entry.field, s.dpts[a]);
        CollectFills(s, refs[1..], fields[entry.field := a]);
      }
    }
  }

  lemma TableFields(role: Role)
    requires RoleEntry(role).Some?
    ensures RoleEntry(role).value.field !in {OnOffAddress, OnOffStateAddress, SwitchAddress, SwitchStateAddress}
  {
  }

  lemma FilledNotRenamed(dpts: map<Ga, Type>, a: Ga, f: Field)
    requires FilledBy(dpts, a, f)
    ensures f !in {OnOffAddress, OnOffStateAddress, SwitchAddress, SwitchStateAddress}
  {
    var role :| Fills(role, f, dpts[a]);
    TableFields(role);
  }

  lemma NoneRenamed(s: State, fields: Fields)
    requires AllFilled(s, fields)
    ensures fields.Keys !! {OnOffAddress, OnOffStateAddress, SwitchAddress, SwitchStateAddress}
  {
    forall f | f in fields ensures f !in {OnOffAddress, OnOffStateAddress, SwitchAddress, SwitchStateAddress} {
      FilledNotRenamed(s.dpts, fields[f], f);
    }
  }

  ghost predicate AllRoleFields(s: State, platform: Platform, impulse: bool, fields: Fields) {
    forall f :: f in fields ==>
      RoleField(s.dpts, platform, impulse, f, fields[f]) && fields[f] in s.groups && fields[f] in s.dpts
  }

  lemma FilledRoleField(dpts: map<Ga, Type>, platform: Platform, impulse: bool, f: Field, a: Ga, o: Field)
    requires FilledBy(dpts, a, o) && o in Origins(platform, impulse, f)
    ensures RoleField(dpts, platform, impulse, f, a)
  {
  }

  /** Where the fields of an unchanged or renamed platform come from. */
  lemma OwnFields(s: State, platform: Platform, fields: Fields)
    requires AllFilled(s, fields) && (platform.Light? || platform.Switch? || platform.Cover? || platform.Scene?)
    ensures AllRoleFields(s, platform, false, fields)
  {
    forall f | f in fields ensures RoleField(s.dpts, platform, false, f, fields[f]) && fields[f] in s.dpts {
      FilledRoleField(s.dpts, platform, false, f, fields[f], f);
    }
  }

  lemma ClimateFieldsFrom(s: State, fields: Fields)
    requires AllFilled(s, fields)
    ensures AllRoleFields(s, Id.Climate, false, ClimateFields(fields))
  {
    NoneRenamed(s, fields);
    var renamed := ClimateFields(fields);
    forall f | f in renamed
      ensures RoleField(s.dpts, Id.Climate, false, f, renamed[f]) && renamed[f] in s.groups && renamed[f] in s.dpts
    {
      var o := if f.OnOffAddress? then Address else if f.OnOffStateAddress? then StateAddress else f;
      assert o in fields && renamed[f] == fields[o];
      FilledRoleField(s.dpts, Id.Climate, false, f, renamed[f], o);
    }
  }

  lemma FanFieldsFrom(s: State, fields: Fields)
    requires AllFilled(s, fields) && FanStepAddress in fields
    ensures AllRoleFields(s, Id.Fan, false, FanFields(fields))
  {
    NoneRenamed(s, fields);
    var renamed := FanFields(fields);
    forall f | f in renamed
      ensures RoleField(s.dpts, Id.Fan, false, f, renamed[f]) && renamed[f] in s.groups && renamed[f] in s.dpts
    {
      var o := if f.SwitchAddress? then Address else if f.SwitchStateAddress? then StateAddress
               else if f.Address? then FanStepAddress else if f.StateAddress? then FanStepStateAddress else f;
      assert o in fields && renamed[f] == fields[o];
      FilledRoleField(s.dpts, Id.Fan, false, f, renamed[f], o);
    }
  }

  // ------------------------------------------------------------------------ verdicts

  ghost predicate VerdictSound(s: State, verdict: Verdict, name: string, source: Source) {
    match verdict
    case Refused(issue) => issue != ConflictingType
    case Ignored => true
    case Entity(platform, settings) =>
      settings.fields.Keys <= Allowed(platform) ==>
        && Sound(s.groups, s.dpts, Candidate(platform, name, settings, source))
        && settings.fields.Values <= s.groups.Keys
  }

  predicate FromRoles(source: Source) { source.FunctionRole? || source.NameRole? }

  lemma ValuesIn(s: State, fields: Fields)
    requires forall f :: f in fields ==> fields[f] in s.groups
    ensures fields.Values <= s.groups.Keys
  {
  }

  lemma FanStagesAgree(s: State, settings: Settings)
    requires |FanStages(s, settings.fields)| <= 1
    requires settings.fanStep == (FanStages(s, settings.fields) == {true})
    ensures FanAgrees(s.dpts, settings)
  {
    var stages := FanStages(s, settings.fields);
    forall f | f in {FanSpeedAddress, FanSpeedStateAddress} && f in settings.fields
      ensures settings.fanStep <==> HasTypeIn(s.dpts, settings.fields[f], {FAN_STAGE})
    {
      var stage := HasType(s, settings.fields[f], {FAN_STAGE});
      assert stage in stages;
      OnlyOne(stages, stage);
    }
    if settings.fanStep { assert true in stages; }
  }

  lemma OnlyOne<T>(s: set<T>, x: T)
    requires |s| <= 1 && x in s
    ensures s == {x}
  {
    assert |s - {x}| == 0;
  }

  lemma Assemble(s: State, c: Candidate, f: Field)
    requires AllRoleFields(s, c.platform, c.settings.impulse, c.settings.fields) && FromRoles(c.source)
    requires FanAgrees(s.dpts, c.settings) && ColorAgrees(s.dpts, c.settings)
    requires c.settings.fields.Keys <= Shape(c.platform)
    requires c.platform.Climate? ==> CLIMATE_REQUIRED <= c.settings.fields.Keys
    requires c.platform.Scene? ==> c.settings.scene.Some? && 1 <= c.settings.scene.value <= 64
    requires IsPrimary(f) && f in c.settings.fields && Identified(c.platform, c.settings.fields)
    requires c.platform.Climate? ==> TargetTemperatureAddress in c.settings.fields
    ensures Sound(s.groups, s.dpts, c) && Uses(c) <= s.groups.Keys
  {
    hide Allowed;
    hide Shape;
    hide RoleField;
    RolesAdmitted(s, c);
    PrimaryFound(c, f);
    ValuesIn(s, c.settings.fields);
  }

  lemma RolesAdmitted(s: State, c: Candidate)
    requires AllRoleFields(s, c.platform, c.settings.impulse, c.settings.fields) && FromRoles(c.source)
    ensures Admitted(s.groups, s.dpts, c)
  {
  }

  lemma NoColor(dpts: map<Ga, Type>, fields: Fields, allowed: set<Field>)
    requires fields.Keys <= allowed && ColorTemperatureAddress !in allowed && ColorTemperatureStateAddress !in allowed
    ensures ColorAgrees(dpts, Plain(fields))
  {
  }

  lemma NoFan(dpts: map<Ga, Type>, fields: Fields, allowed: set<Field>)
    requires fields.Keys <= allowed && FanSpeedAddress !in allowed && FanSpeedStateAddress !in allowed
    ensures FanAgrees(dpts, Plain(fields))
  {
  }

  lemma ClimateNeedsKept(fields: Fields)
    requires CLIMATE_NEEDS <= fields.Keys
    ensures CLIMATE_NEEDS <= ClimateFields(fields).Keys
  {
  }

  lemma ClimateColor(dpts: map<Ga, Type>, settings: Settings)
    requires settings.fields.Keys <= Allowed(Id.Climate) && settings.color.None?
    ensures ColorAgrees(dpts, settings)
  {
    NoColor(dpts, settings.fields, Allowed(Id.Climate));
  }

  lemma ClimateEntitySound(s: State, renamed: Fields, fanStep: bool, name: string, source: Source)
    requires AllRoleFields(s, Id.Climate, false, renamed) && FromRoles(source)
    requires CLIMATE_NEEDS <= renamed.Keys <= Allowed(Id.Climate)
    requires |FanStages(s, renamed)| <= 1 && fanStep == (FanStages(s, renamed) == {true})
    ensures var c := Candidate(Id.Climate, name, Plain(renamed).(fanStep := fanStep), source);
      Sound(s.groups, s.dpts, c) && Uses(c) <= s.groups.Keys
  {
    var settings := Plain(renamed).(fanStep := fanStep);
    FanStagesAgree(s, settings);
    ClimateColor(s.dpts, settings);
    Assemble(s, Candidate(Id.Climate, name, settings, source), TargetTemperatureAddress);
  }

  lemma ClimateVerdictSound(s: State, fields: Fields, renamed: Fields, fanStep: bool, name: string, source: Source)
    requires AllFilled(s, fields) && FromRoles(source)
    requires renamed == ClimateFields(fields) && CLIMATE_NEEDS <= renamed.Keys
    requires |FanStages(s, renamed)| <= 1 && fanStep == (FanStages(s, renamed) == {true})
    ensures VerdictSound(s, Entity(Id.Climate, Plain(renamed).(fanStep := fanStep)), name, source)
  {
    if renamed.Keys <= Allowed(Id.Climate) {
      ClimateFieldsFrom(s, fields);
      ClimateEntitySound(s, renamed, fanStep, name, source);
    }
  }

  lemma JudgeClimateSound(s: State, fields: Fields, name: string, source: Source)
    requires AllFilled(s, fields) && FromRoles(source)
    ensures VerdictSound(s, JudgeClimate(s, fields), name, source)
  {
    var renamed := ClimateFields(fields);
    var stages := FanStages(s, renamed);
    if CLIMATE_NEEDS <= fields.Keys && |stages| <= 1 {
      ClimateNeedsKept(fields);
      ClimateVerdictSound(s, fields, renamed, stages == {true}, name, source);
      assert JudgeClimate(s, fields) == Entity(Id.Climate, Plain(renamed).(fanStep := stages == {true}));
    }
  }

  /** A platform without fan speeds and colours has nothing to agree on. */
  lemma NothingToAgree(dpts: map<Ga, Type>, platform: Platform, fields: Fields)
    requires fields.Keys <= Allowed(platform) && (platform.Fan? || platform.Cover? || platform.Scene?)
    ensures FanAgrees(dpts, Plain(fields)) && ColorAgrees(dpts, Plain(fields))
  {
    NoColor(dpts, fields, Allowed(platform));
    NoFan(dpts, fields, Allowed(platform));
  }

  lemma JudgeFanSound(s: State, fields: Fields, name: string, source: Source)
    requires AllFilled(s, fields) && FromRoles(source) && FanStepAddress in fields
    ensures VerdictSound(s, JudgeFan(fields), name, source)
  {
    FanFieldsFrom(s, fields);
    FanHasAddress(fields);
    FanEntitySound(s, FanFields(fields), name, source);
  }

  lemma FanEntitySound(s: State, renamed: Fields, name: string, source: Source)
    requires AllRoleFields(s, Id.Fan, false, renamed) && FromRoles(source) && Address in renamed
    ensures VerdictSound(s, Entity(Id.Fan, Plain(renamed)), name, source)
  {
    hide Allowed;
    hide FanAgrees;
    hide ColorAgrees;
    hide Sound;
    hide AllRoleFields;
    if renamed.Keys <= Allowed(Id.Fan) {
      NothingToAgree(s.dpts, Id.Fan, renamed);
      Assemble(s, Candidate(Id.Fan, name, Plain(renamed), source), Address);
    }
  }

  lemma FanHasAddress(fields: Fields)
    requires FanStepAddress in fields
    ensures Address in FanFields(fields)
  {
  }

  lemma LightColorAgrees(s: State, kind: Kind, fields: Fields)
    requires JudgeLight(s, kind, fields).Entity?
    ensures ColorAgrees(s.dpts, Plain(fields).(color := ColorModeOf(s, fields)))
  {
  }

  lemma LightFanAgrees(dpts: map<Ga, Type>, settings: Settings, platform: Platform)
    requires settings.fields.Keys <= Allowed(platform) && (platform.Light? || platform.Switch?) && !settings.fanStep
    ensures FanAgrees(dpts, settings)
  {
  }

  lemma JudgeLightSound(s: State, kind: Kind, fields: Fields, name: string, source: Source)
    requires AllFilled(s, fields) && FromRoles(source) && Address in fields
    ensures VerdictSound(s, JudgeLight(s, kind, fields), name, source)
  {
    var platform := if kind.LightKind? then Id.Light else Id.Switch;
    var settings := Plain(fields).(color := ColorModeOf(s, fields));
    if JudgeLight(s, kind, fields).Entity? {
      LightColorAgrees(s, kind, fields);
      LightEntitySound(s, platform, settings, name, source);
    }
  }

  lemma LightEntitySound(s: State, platform: Platform, settings: Settings, name: string, source: Source)
    requires AllFilled(s, settings.fields) && FromRoles(source) && Address in settings.fields
    requires (platform.Light? || platform.Switch?) && !settings.impulse && !settings.fanStep
    requires ColorAgrees(s.dpts, settings)
    ensures VerdictSound(s, Entity(platform, settings), name, source)
  {
    hide Allowed;
    hide FanAgrees;
    hide ColorAgrees;
    hide Sound;
    if settings.fields.Keys <= Allowed(platform) {
      OwnFields(s, platform, settings.fields);
      LightFanAgrees(s.dpts, settings, platform);
      Assemble(s, Candidate(platform, name, settings, source), Address);
    }
  }

  lemma JudgeCoverSound(s: State, fields: Fields, name: string, source: Source)
    requires AllFilled(s, fields) && FromRoles(source)
    requires MoveLongAddress in fields || PositionAddress in fields
    ensures VerdictSound(s, Entity(Id.Cover, Plain(fields)), name, source)
  {
    OwnFields(s, Id.Cover, fields);
    CoverEntitySound(s, fields, if MoveLongAddress in fields then MoveLongAddress else PositionAddress, name, source);
  }

  lemma CoverEntitySound(s: State, fields: Fields, primary: Field, name: string, source: Source)
    requires AllRoleFields(s, Id.Cover, false, fields) && FromRoles(source)
    requires IsPrimary(primary) && primary in fields && Identified(Id.Cover, fields)
    ensures VerdictSound(s, Entity(Id.Cover, Plain(fields)), name, source)
  {
    hide Allowed;
    hide FanAgrees;
    hide ColorAgrees;
    hide Sound;
    hide AllRoleFields;
    if fields.Keys <= Allowed(Id.Cover) {
      NothingToAgree(s.dpts, Id.Cover, fields);
      Assemble(s, Candidate(Id.Cover, name, Plain(fields), source), primary);
    }
  }

  lemma SettingsAgree(dpts: map<Ga, Type>, fields: Fields, scene: Option<int>)
    requires FanAgrees(dpts, Plain(fields)) && ColorAgrees(dpts, Plain(fields))
    ensures FanAgrees(dpts, Plain(fields).(scene := scene)) && ColorAgrees(dpts, Plain(fields).(scene := scene))
  {
  }

  lemma JudgeSceneSound(s: State, fields: Fields, scene: int, name: string, source: Source)
    requires AllFilled(s, fields) && FromRoles(source) && Address in fields && 1 <= scene <= 64
    ensures VerdictSound(s, Entity(Id.Scene, Plain(fields).(scene := Some(scene))), name, source)
  {
    hide Allowed;
    hide FanAgrees;
    hide ColorAgrees;
    hide Sound;
    if fields.Keys <= Allowed(Id.Scene) {
      OwnFields(s, Id.Scene, fields);
      NothingToAgree(s.dpts, Id.Scene, fields);
      SettingsAgree(s.dpts, fields, Some(scene));
      Assemble(s, Candidate(Id.Scene, name, Plain(fields).(scene := Some(scene)), source), Address);
    }
  }

  lemma JudgeSound(s: State, kind: Kind, fields: Fields, scene: Option<int>, name: string, source: Source)
    requires AllFilled(s, fields) && FromRoles(source)
    ensures VerdictSound(s, Judge(s, kind, fields, scene), name, source)
  {
    if kind.ClimateKind? || TargetTemperatureAddress in fields {
      JudgeClimateSound(s, fields, name, source);
    } else if kind.CoverKind? || MoveLongAddress in fields {
      if MoveLongAddress in fields || PositionAddress in fields { JudgeCoverSound(s, fields, name, source); }
    } else if kind.SceneKind? {
      if Address in fields && scene.Some? && 1 <= scene.value <= 64 {
        JudgeSceneSound(s, fields, scene.value, name, source);
      }
    } else if FanStepAddress in fields {
      JudgeFanSound(s, fields, name, source);
    } else if Address in fields {
      JudgeLightSound(s, kind, fields, name, source);
    }
  }

  // ------------------------------------------------------------------------ groups

  lemma ConcludeStep(s: State, name: string, verdict: Verdict, mentioned: set<Ga>, source: Source)
    requires Inv(s) && VerdictSound(s, verdict, name, source)
    ensures Step(s, Conclude(s, name, verdict, mentioned, source), false)
  {
    match verdict
    case Refused(issue) => RefuseStep(s, mentioned, issue);
    case Ignored =>
    case Entity(platform, settings) =>
      if settings.fields.Keys <= Allowed(platform) {
        AddStep(s, Candidate(platform, name, settings, source));
      } else {
        RefuseStep(s, mentioned, IncompatibleRoles);
      }
  }

  lemma ButtonSound(s: State, name: string, fields: Fields, f: Field, source: Source)
    requires AllFilled(s, fields) && FromRoles(source) && f in fields && f in IMPULSES
    ensures Sound(s.groups, s.dpts, ButtonFor(name, fields, f, source))
    ensures Uses(ButtonFor(name, fields, f, source)) <= s.groups.Keys
  {
    var c := ButtonFor(name, fields, f, source);
    FilledRoleField(s.dpts, Id.Button, false, Address, fields[f], f);
    Assemble(s, c, Address);
  }

  lemma ImpulseFields(s: State, c: Candidate, fields: Fields)
    requires WALL <= fields.Keys && c.settings.color.None? && !c.settings.fanStep
    requires c.settings.fields ==
      map[MoveLongAddress := fields[MoveLongAddress], StopAddress := fields[MoveShortAddress]]
    ensures FanAgrees(s.dpts, c.settings) && ColorAgrees(s.dpts, c.settings)
    ensures c.settings.fields.Keys <= Shape(Id.Cover)
  {
  }

  lemma ImpulseRoles(s: State, fields: Fields)
    requires AllFilled(s, fields) && WALL <= fields.Keys
    ensures AllRoleFields(s, Id.Cover, true,
      map[MoveLongAddress := fields[MoveLongAddress], StopAddress := fields[MoveShortAddress]])
  {
    FilledRoleField(s.dpts, Id.Cover, true, MoveLongAddress, fields[MoveLongAddress], MoveLongAddress);
    FilledRoleField(s.dpts, Id.Cover, true, StopAddress, fields[MoveShortAddress], MoveShortAddress);
  }

  lemma ImpulseCoverSound(s: State, name: string, fields: Fields, source: Source)
    requires AllFilled(s, fields) && FromRoles(source)
    requires WALL <= fields.Keys && fields[MoveLongAddress] in s.groups
    ensures Sound(s.groups, s.dpts, ImpulseCover(s, name, fields, source))
    ensures Uses(ImpulseCover(s, name, fields, source)) <= s.groups.Keys
  {
    var c := ImpulseCover(s, name, fields, source);
    ImpulseRoles(s, fields);
    ImpulseFields(s, c, fields);
    CoverAssembled(s, c);
  }

  lemma CoverAssembled(s: State, c: Candidate)
    requires AllRoleFields(s, Id.Cover, c.settings.impulse, c.settings.fields) && FromRoles(c.source)
    requires c.platform.Cover? && FanAgrees(s.dpts, c.settings) && ColorAgrees(s.dpts, c.settings)
    requires c.settings.fields.Keys <= Shape(Id.Cover) && MoveLongAddress in c.settings.fields
    ensures Sound(s.groups, s.dpts, c) && Uses(c) <= s.groups.Keys
  {
    hide Shape;
    hide FanAgrees;
    hide ColorAgrees;
    hide Sound;
    hide AllRoleFields;
    Assemble(s, c, MoveLongAddress);
  }

  lemma FilledAcross(s: State, t: State, fields: Fields)
    requires AllFilled(s, fields) && Grows(s, t)
    ensures AllFilled(t, fields)
  {
    forall f | f in fields ensures FilledBy(t.dpts, fields[f], f) {
      assert FilledBy(s.dpts, fields[f], f);
    }
  }

  lemma ThreeButtons(s: State, name: string, fields: Fields, source: Source)
    requires Inv(s) && AllFilled(s, fields) && FromRoles(source) && IMPULSES <= fields.Keys
    ensures Step(s, Add(Add(Add(s, ButtonFor(name, fields, OpenImpulseAddress, source)),
                            ButtonFor(name, fields, CloseImpulseAddress, source)),
                        ButtonFor(name, fields, StopImpulseAddress, source)), false)
  {
    var open := ButtonFor(name, fields, OpenImpulseAddress, source);
    var close := ButtonFor(name, fields, CloseImpulseAddress, source);
    var stop := ButtonFor(name, fields, StopImpulseAddress, source);
    ButtonSound(s, name, fields, OpenImpulseAddress, source);
    AddStep(s, open);
    var s1 := Add(s, open);
    FilledAcross(s, s1, fields);
    ButtonSound(s1, name, fields, CloseImpulseAddress, source);
    AddStep(s1, close);
    var s2 := Add(s1, close);
    FilledAcross(s1, s2, fields);
    ButtonSound(s2, name, fields, StopImpulseAddress, source);
    AddStep(s2, stop);
    StepTrans(s, s1, s2, false);
    StepTrans(s, s2, Add(s2, stop), false);
  }

  lemma ImpulsesStep(s: State, name: string, fields: Fields, mentioned: set<Ga>, source: Source)
    requires Inv(s) && AllFilled(s, fields) && FromRoles(source)
    ensures Step(s, Impulses(s, name, fields, mentioned, source), false)
  {
    var wall := fields.Keys * WALL;
    var rest := fields - WALL;
    if rest.Keys == IMPULSES && wall == WALL && fields[MoveLongAddress] in s.groups {
      var kept := s.(notExposed := s.notExposed + rest.Values, reserved := s.reserved + rest.Values);
      SettleStep(s, rest.Values, rest.Values);
      FilledAcross(s, kept, fields);
      ImpulseCoverSound(kept, name, fields, source);
      AddStep(kept, ImpulseCover(kept, name, fields, source));
      StepTrans(s, kept, Add(kept, ImpulseCover(kept, name, fields, source)), false);
    } else {
      var settled := set f | f in wall :: fields[f];
      var kept := s.(notExposed := s.notExposed + settled, reserved := s.reserved + settled);
      SettleStep(s, settled, settled);
      FilledAcross(s, kept, fields);
      if rest.Keys != IMPULSES {
        RefuseStep(kept, mentioned, IncompatibleRoles);
        StepTrans(s, kept, Refuse(kept, mentioned, IncompatibleRoles), false);
      } else {
        assert IMPULSES <= fields.Keys;
        ThreeButtons(kept, name, fields, source);
        StepTrans(s, kept, Impulses(s, name, fields, mentioned, source), false);
      }
    }
  }

  lemma {:induction false} CollectIssue(s: State, refs: seq<Ref>, fields: Fields)
    requires Collect(s, refs, fields).Failure?
    ensures Collect(s, refs, fields).error != ConflictingType
    decreases |refs|
  {
    if RoleEntry(refs[0].role).None? {
      CollectIssue(s, refs[1..], fields);
    } else {
      var entry := RoleEntry(refs[0].role).value;
      if Problem(s, refs[0].address, entry, fields).None? {
        CollectIssue(s, refs[1..], fields[entry.field := refs[0].address]);
      }
    }
  }

  /** Joining a function's or a name's addresses keeps the invariant and unblocks nothing. */
  lemma GroupStep(
    s: State, name: string, kind: Kind, refs: seq<Ref>, scene: Option<int>, source: Source)
    requires Inv(s) && FromRoles(source)
    ensures Step(s, JoinGroup(s, name, kind, refs, scene, source), false)
  {
    var mentioned := Mentioned(s, refs);
    match Collect(s, refs, map[])
    case Failure(issue) =>
      CollectIssue(s, refs, map[]);
      RefuseStep(s, mentioned, issue);
    case Success(fields) =>
      CollectFills(s, refs, map[]);
      if fields.Keys * IMPULSES != {} {
        ImpulsesStep(s, name, fields, mentioned, source);
      } else {
        JudgeSound(s, kind, fields, scene, name, source);
        ConcludeStep(s, name, Judge(s, kind, fields, scene), mentioned, source);
      }
  }
}
