/** The planner's passes, one after another: what holds after a whole run on any project. */
module KnxPlannerRuns {
  import opened Common
  import Id = KnxIdentity
  import opened KnxPlannerModel
  import opened KnxPlannerPasses
  import opened KnxPlannerSoundness

  // ----------------------------------------------------------------------- load

  lemma {:induction false} GatherIssues(records: seq<Record>, s: State)
    requires forall a :: a in s.issues ==> s.issues[a] != ConflictingType
    requires s.candidates == [] && s.dpts == map[] && BlockedTold(s)
    ensures var t := Gather(records, s);
      && (forall a :: a in t.issues ==> t.issues[a] != ConflictingType)
      && t.candidates == [] && t.dpts == map[] && BlockedTold(t)
    decreases |records|
  {
    if records != [] {
      var r := records[0];
      var next :=
        if r.address.None? || r.address.value == "0/0/0" then s.(issues := s.issues[r.key := InvalidGroupAddress])
        else
          var a := r.address.value;
          if a in s.groups && s.groups[a] != r.group then
            s.(issues := s.issues[a := DuplicateMetadata], blocked := s.blocked + {a})
          else s.(groups := s.groups[a := r.group]);
      GatherIssues(records[1..], next);
    }
  }

  /** A loaded project is typed or blocked everywhere, and only untyped addresses are in conflict. */
  lemma LoadEstablishes(records: seq<Record>)
    ensures Inv(Load(records)) && TypedOrBlocked(Load(records))
  {
    GatherIssues(records, NOTHING);
  }

  // ------------------------------------------------------------------- functions

  lemma NoteStep(s: State, issues: map<Ga, Issue>, notExposed: set<Ga>, unresolved: set<Ga>)
    requires Inv(s)
    requires forall a :: a in issues && issues[a] == ConflictingType ==> a in s.issues && s.issues[a] == ConflictingType
    requires s.issues.Keys <= issues.Keys
    ensures Step(s, s.(issues := issues, notExposed := notExposed, unresolved := unresolved), false)
  {
    CandidatesStay(s, s.(issues := issues, notExposed := notExposed, unresolved := unresolved));
  }

  lemma MemberNotes(s: State, f: Function, m: Member)
    ensures var t := MemberStep(s, f, m).0;
      && t == s.(issues := t.issues, notExposed := t.notExposed, unresolved := t.unresolved)
      && s.issues.Keys <= t.issues.Keys
      && forall a :: a in t.issues && t.issues[a] == ConflictingType ==> a in s.issues && s.issues[a] == ConflictingType
  {
    hide RefsFor;
    hide RoleEntry;
    hide NamedRole;
    hide IsWallMember;
  }

  lemma MemberKeeps(s: State, f: Function, m: Member)
    requires Inv(s)
    ensures Step(s, MemberStep(s, f, m).0, false)
  {
    hide MemberStep;
    var t := MemberStep(s, f, m).0;
    MemberNotes(s, f, m);
    NoteStep(s, t.issues, t.notExposed, t.unresolved);
  }

  lemma {:induction false} MembersKeep(s: State, f: Function, members: seq<Member>, refs: seq<Ref>)
    requires Inv(s)
    ensures Step(s, Members(s, f, members, refs).0, false)
    decreases |members|
  {
    if members != [] {
      var (next, more) := MemberStep(s, f, members[0]);
      MemberKeeps(s, f, members[0]);
      MembersKeep(next, f, members[1..], refs + more);
      StepTrans(s, next, Members(s, f, members, refs).0, false);
    }
  }

  lemma {:induction false} FunctionsKeep(s: State, functions: seq<Function>)
    requires Inv(s)
    ensures Step(s, Functions(s, functions), false)
    decreases |functions|
  {
    if functions != [] {
      var f := functions[0];
      var (next, refs) := Members(s, f, f.members, []);
      MembersKeep(s, f, f.members, []);
      GroupStep(next, f.name, f.kind, refs, f.scene, FunctionRole);
      var joined := JoinGroup(next, f.name, f.kind, refs, f.scene, FunctionRole);
      StepTrans(s, next, joined, false);
      FunctionsKeep(joined, functions[1..]);
      StepTrans(s, joined, Functions(s, functions), false);
    }
  }

  // -------------------------------------------------------------------- channels

  lemma RelaxKeeps(s: State, a: Ga, tag: Tag)
    requires Inv(s)
    ensures Step(s, Relax(s, a, tag), false)
  {
    var t := Relax(s, a, tag);
    assert t.dpts.Keys <= s.groups.Keys;
    assert Grows(s, t);
    CandidatesStay(s, t);
  }

  lemma BindKeeps(s: State, a: Ga, tag: Tag, types: set<Type>, anchor: set<string>)
    requires Inv(s)
    ensures var (t, ok) := Bind(s, a, tag, types, anchor);
      && Step(s, t, false)
      && (ok ==> HasType(t, a, types) && a !in t.blocked)
  {
    var (t, ok) := Bind(s, a, tag, types, anchor);
    if anchor != KeysOf(s, a, IsFeedback(tag)) {
      NoteStep(s, t.issues, t.notExposed, t.unresolved);
    } else {
      var relaxed := Relax(s, a, tag);
      RelaxKeeps(s, a, tag);
      NoteStep(relaxed, t.issues, t.notExposed, t.unresolved);
      StepTrans(s, relaxed, t, false);
    }
  }

  /** Every bound field holds an address of a type its tag admits. */
  ghost predicate TagsFilled(s: State, dialect: Dialect, fields: Fields) {
    forall f :: f in fields ==> fields[f] in s.dpts && TaggedField(dialect, f, s.dpts[fields[f]])
  }

  lemma TagsStay(s: State, t: State, dialect: Dialect, fields: Fields)
    requires TagsFilled(s, dialect, fields) && Grows(s, t)
    ensures TagsFilled(t, dialect, fields)
  {
  }

  lemma BindFills(s: State, dialect: Dialect, tag: Tag, a: Ga, fields: Fields)
    requires TagsFilled(s, dialect, fields) && TagEntry(dialect, tag).Some?
    requires HasType(s, a, TagEntry(dialect, tag).value.types)
    ensures TagsFilled(s, dialect, fields[TagEntry(dialect, tag).value.field := a])
  {
    assert FillsTag(dialect, tag, TagEntry(dialect, tag).value.field, s.dpts[a]);
  }

  lemma BlockKeeps(s: State, addresses: set<Ga>)
    requires Inv(s)
    ensures Step(s, BlockAll(s, addresses), false)
  {
    CandidatesStay(s, BlockAll(s, addresses));
  }

  lemma {:induction false} BindSingleKeeps(
    s: State, dialect: Dialect, roles: map<Tag, seq<Ga>>, tags: seq<Tag>, anchor: set<string>, fields: Fields)
    requires Inv(s) && TagsFilled(s, dialect, fields)
    ensures var (t, r) := BindSingle(s, dialect, roles, tags, anchor, fields);
      Step(s, t, false) && TagsFilled(t, dialect, r)
    decreases |tags|
  {
    if tags != [] {
      var tag, addresses := tags[0], Dialected(roles, tags[0]);
      var entry := TagEntry(dialect, tag);
      var result := BindSingle(s, dialect, roles, tags, anchor, fields).0;
      if addresses == [] || entry.None? {
        BindSingleKeeps(s, dialect, roles, tags[1..], anchor, fields);
      } else if |addresses| != 1 {
        var next := BlockAll(s, Elements(addresses));
        BlockKeeps(s, Elements(addresses));
        TagsStay(s, next, dialect, fields);
        BindSingleKeeps(next, dialect, roles, tags[1..], anchor, fields);
        StepTrans(s, next, result, false);
      } else {
        var (next, ok) := Bind(s, addresses[0], tag, entry.value.types, anchor);
        BindKeeps(s, addresses[0], tag, entry.value.types, anchor);
        TagsStay(s, next, dialect, fields);
        if ok { BindFills(next, dialect, tag, addresses[0], fields); }
        BindSingleKeeps(next, dialect, roles, tags[1..], anchor,
                        if ok then fields[entry.value.field := addresses[0]] else fields);
        StepTrans(s, next, result, false);
      }
    }
  }

  ghost predicate AllTagsFilled(s: State, dialect: Dialect, bound: Bindings) {
    forall c :: c in bound ==> TagsFilled(s, dialect, bound[c])
  }

  lemma AllTagsStay(s: State, t: State, dialect: Dialect, bound: Bindings)
    requires AllTagsFilled(s, dialect, bound) && Grows(s, t)
    ensures AllTagsFilled(t, dialect, bound)
  {
    forall c | c in bound ensures TagsFilled(t, dialect, bound[c]) { TagsStay(s, t, dialect, bound[c]); }
  }

  lemma {:induction false} BindClaimsKeep(
    s: State, dialect: Dialect, anchors: map<Ga, string>, claims: map<Ga, seq<Ga>>, commands: seq<Ga>, tag: Tag,
    bound: Bindings)
    requires Inv(s) && AllTagsFilled(s, dialect, bound) && TagEntry(dialect, tag).Some?
    ensures var (t, r) := BindClaims(s, anchors, claims, commands, tag, TagEntry(dialect, tag).value, bound);
      Step(s, t, false) && AllTagsFilled(t, dialect, r) && r.Keys == bound.Keys
    decreases |commands|
  {
    hide Bind;
    if commands != [] {
      var c := commands[0];
      var entry := TagEntry(dialect, tag).value;
      var result := BindClaims(s, anchors, claims, commands, tag, entry, bound).0;
      if c !in claims || c !in anchors || claims[c] == [] {
        BindClaimsKeep(s, dialect, anchors, claims, commands[1..], tag, bound);
      } else if |claims[c]| != 1 {
        var next := s.(issues := SetDefaults(s.issues, Elements(claims[c]), AmbiguousRole));
        NoteStep(s, next.issues, next.notExposed, next.unresolved);
        AllTagsStay(s, next, dialect, bound);
        BindClaimsKeep(next, dialect, anchors, claims, commands[1..], tag, bound);
        StepTrans(s, next, result, false);
      } else {
        var (next, ok) := Bind(s, claims[c][0], tag, entry.types, {anchors[c]});
        BindKeeps(s, claims[c][0], tag, entry.types, {anchors[c]});
        AllTagsStay(s, next, dialect, bound);
        if ok && c in bound { BindFills(next, dialect, tag, claims[c][0], bound[c]); }
        BindClaimsKeep(next, dialect, anchors, claims, commands[1..], tag,
                       if ok && c in bound then bound[c := bound[c][entry.field := claims[c][0]]] else bound);
        StepTrans(s, next, result, false);
      }
    }
  }

  lemma {:induction false} BindTagsKeep(
    s: State, dialect: Dialect, anchors: map<Ga, string>, roles: map<Tag, seq<Ga>>, commands: seq<Ga>,
    tags: seq<Tag>, bound: Bindings)
    requires Inv(s) && AllTagsFilled(s, dialect, bound)
    ensures var (t, r) := BindTags(s, dialect, anchors, roles, commands, tags, bound);
      Step(s, t, false) && AllTagsFilled(t, dialect, r) && r.Keys == bound.Keys
    decreases |tags|
  {
    if tags != [] {
      var tag, addresses := tags[0], Dialected(roles, tags[0]);
      if TagEntry(dialect, tag).None? {
        BindTagsKeep(s, dialect, anchors, roles, commands, tags[1..], bound);
      } else {
        var claims, told := ClaimsFor(s, anchors, addresses, tag), Told(s, anchors, addresses, tag);
        NoteStep(s, told.issues, told.notExposed, told.unresolved);
        AllTagsStay(s, told, dialect, bound);
        BindClaimsKeep(told, dialect, anchors, claims, commands, tag, bound);
        var (next, more) := BindClaims(told, anchors, claims, commands, tag, TagEntry(dialect, tag).value, bound);
        StepTrans(s, told, next, false);
        BindTagsKeep(next, dialect, anchors, roles, commands, tags[1..], more);
        StepTrans(s, next, BindTags(s, dialect, anchors, roles, commands, tags, bound).0, false);
      }
    }
  }

  lemma AnchorsAre(s: State, commands: seq<Ga>)
    ensures forall c :: c in Distinct(AllAnchors(s, commands)) ==> c in commands && HasType(s, c, {BIT})
  {
  }

  lemma UnboundFilled(s: State, dialect: Dialect, anchors: map<Ga, string>)
    ensures AllTagsFilled(s, dialect, Unbound(anchors)) && Unbound(anchors).Keys == anchors.Keys
  {
  }

  lemma BindMultiKeeps(s: State, dialect: Dialect, commands: seq<Ga>, roles: map<Tag, seq<Ga>>)
    requires Inv(s)
    ensures var (t, bound) := BindMulti(s, dialect, commands, roles);
      && Step(s, t, false) && AllTagsFilled(t, dialect, bound)
      && bound.Keys == Distinct(AllAnchors(s, commands)).Keys
  {
    var apart := Distinct(AllAnchors(s, commands));
    var next := BlockAll(s, DoubledOf(AllAnchors(s, commands)));
    BlockKeeps(s, DoubledOf(AllAnchors(s, commands)));
    UnboundFilled(next, dialect, apart);
    BindTagsKeep(next, dialect, apart, roles, commands, TagOrder(dialect), Unbound(apart));
    StepTrans(s, next, BindMulti(s, dialect, commands, roles).0, false);
  }

  // -------------------------------------------------------- finishing a channel

  lemma SubsetFilled(s: State, dialect: Dialect, fields: Fields, some: Fields)
    requires TagsFilled(s, dialect, fields)
    requires forall f :: f in some ==> f in fields && some[f] == fields[f]
    ensures TagsFilled(s, dialect, some)
  {
  }

  lemma CommandFills(s: State, fields: Fields, command: Ga)
    requires TagsFilled(s, LightDialect, fields) && HasType(s, command, {BIT})
    ensures TagsFilled(s, LightDialect, fields[Address := command])
  {
    assert FillsTag(LightDialect, Sw, Address, BIT);
  }

  lemma LightTags(f: Field, t: Type)
    requires TaggedField(LightDialect, f, t)
    ensures f in Allowed(Id.Light)
  {
    var tag :| FillsTag(LightDialect, tag, f, t);
  }

  lemma ClimateTags(f: Field, t: Type)
    requires TaggedField(ClimateDialect, f, t)
    ensures f in Allowed(Id.Climate) && !f.OnOffAddress?
  {
    var tag :| FillsTag(ClimateDialect, tag, f, t);
  }

  lemma LightShape(s: State, fields: Fields)
    requires TagsFilled(s, LightDialect, fields)
    ensures fields.Keys <= Allowed(Id.Light)
    ensures fields.Values <= s.dpts.Keys
  {
    forall f | f in fields ensures f in Allowed(Id.Light) { LightTags(f, s.dpts[fields[f]]); }
  }

  /** The fields a light or a switch is left with once its channel is proven. */
  function LightFields(s: State, lightName: bool, bound: Fields): Fields {
    var paired := DropOrphans(bound);
    SameEncoding(s, if IsLight(lightName, paired) then paired
                    else map f | f in paired && (f.Address? || f.StateAddress?) :: paired[f])
  }

  predicate IsLight(lightName: bool, paired: Fields) {
    lightName || BrightnessAddress in paired || ColorTemperatureAddress in paired
  }

  lemma LightFieldsFrom(s: State, lightName: bool, bound: Fields)
    requires Address in bound
    ensures var fields := LightFields(s, lightName, bound);
      && Address in fields
      && (forall f :: f in fields ==> f in bound && fields[f] == bound[f])
      && (!IsLight(lightName, DropOrphans(bound)) ==> fields.Keys <= Allowed(Id.Switch))
      && (ColorTemperatureStateAddress in fields ==>
            && ColorTemperatureAddress in fields
            && SameType(s, fields[ColorTemperatureAddress], fields[ColorTemperatureStateAddress]))
  {
  }

  lemma ChannelFields(s: State, platform: Platform, fields: Fields)
    requires TagsFilled(s, DialectOf(platform), fields)
    ensures forall f :: f in fields ==> ChannelField(s.dpts, platform, f, fields[f])
  {
  }

  lemma LightColor(s: State, settings: Settings)
    requires settings.color == ColorModeOf(s, settings.fields)
    requires ColorTemperatureStateAddress in settings.fields ==>
      && ColorTemperatureAddress in settings.fields
      && SameType(s, settings.fields[ColorTemperatureAddress], settings.fields[ColorTemperatureStateAddress])
    ensures ColorAgrees(s.dpts, settings)
  {
  }

  lemma LightFan(dpts: map<Ga, Type>, settings: Settings, platform: Platform)
    requires settings.fields.Keys <= Allowed(platform) && (platform.Light? || platform.Switch?) && !settings.fanStep
    ensures FanAgrees(dpts, settings)
  {
  }

  lemma LightSound(s: State, c: Candidate)
    requires TagsFilled(s, LightDialect, c.settings.fields) && (c.platform.Light? || c.platform.Switch?)
    requires c.source.ObjectChannel? && Address in c.settings.fields
    requires FanAgrees(s.dpts, c.settings) && ColorAgrees(s.dpts, c.settings)
    requires c.settings.fields.Keys <= Allowed(c.platform)
    ensures Sound(s.groups, s.dpts, c)
  {
    ChannelFields(s, c.platform, c.settings.fields);
    PrimaryFound(c, Address);
  }

  lemma LightCandidate(s: State, name: string, lightName: bool, whole: Fields) returns (c: Candidate)
    requires Inv(s) && TagsFilled(s, LightDialect, whole) && Address in whole
    ensures Sound(s.groups, s.dpts, c) && Uses(c) <= s.groups.Keys
    ensures var fields := LightFields(s, lightName, whole);
      c == Candidate(if IsLight(lightName, DropOrphans(whole)) then Id.Light else Id.Switch, name,
                     Plain(fields).(color := ColorModeOf(s, fields)), ObjectChannel)
  {
    LightFieldsFrom(s, lightName, whole);
    var fields := LightFields(s, lightName, whole);
    var platform := if IsLight(lightName, DropOrphans(whole)) then Id.Light else Id.Switch;
    c := Candidate(platform, name, Plain(fields).(color := ColorModeOf(s, fields)), ObjectChannel);
    SubsetFilled(s, LightDialect, whole, fields);
    LightShape(s, fields);
    LightColor(s, c.settings);
    LightFan(s.dpts, c.settings, platform);
    LightSound(s, c);
  }

  lemma StepSame(s: State)
    requires Inv(s)
    ensures Step(s, s, false)
  {
  }

  lemma FinishLightKeeps(s: State, name: string, lightName: bool, bound: Fields, command: Ga)
    requires Inv(s) && TagsFilled(s, LightDialect, bound) && HasType(s, command, {BIT})
    ensures Step(s, FinishLight(s, name, lightName, bound[Address := command]), false)
  {
    hide FinishLight;
    hide Add;
    hide Step;
    hide LightFields;
    hide IsLight;
    hide DropOrphans;
    hide ColorModeOf;
    hide TagsFilled;
    hide Sound;
    var whole := bound[Address := command];
    CommandFills(s, bound, command);
    var c := LightCandidate(s, name, lightName, whole);
    AddStep(s, c);
    FinishLightIs(s, name, lightName, whole, c);
    StepSame(s);
  }

  lemma FinishLightIs(s: State, name: string, lightName: bool, whole: Fields, c: Candidate)
    requires var fields := LightFields(s, lightName, whole);
      c == Candidate(if IsLight(lightName, DropOrphans(whole)) then Id.Light else Id.Switch, name,
                     Plain(fields).(color := ColorModeOf(s, fields)), ObjectChannel)
    ensures FinishLight(s, name, lightName, whole) == if |LightFields(s, lightName, whole)| == 1 then s else Add(s, c)
  {
  }

  lemma ClimateShape(s: State, fields: Fields, command: Ga)
    requires TagsFilled(s, ClimateDialect, fields) && HasType(s, command, {BIT})
    ensures var whole := fields[OnOffAddress := command];
      && whole.Keys <= Allowed(Id.Climate) && whole.Values <= s.dpts.Keys
      && forall f :: f in whole ==> ChannelField(s.dpts, Id.Climate, f, whole[f])
  {
    forall f | f in fields ensures f in Allowed(Id.Climate) && !f.OnOffAddress? {
      ClimateTags(f, s.dpts[fields[f]]);
    }
  }

  lemma ClimateSound(s: State, c: Candidate)
    requires c.platform.Climate? && c.source.ObjectChannel? && c.settings.color.None?
    requires forall f :: f in c.settings.fields ==> ChannelField(s.dpts, Id.Climate, f, c.settings.fields[f])
    requires c.settings.fields.Keys <= Allowed(Id.Climate) && CLIMATE_REQUIRED <= c.settings.fields.Keys
    requires OnOffAddress in c.settings.fields && FanAgrees(s.dpts, c.settings)
    ensures Sound(s.groups, s.dpts, c)
  {
    hide FanAgrees;
    hide ColorAgrees;
    hide ChannelField;
    hide Allowed;
    ClimateColor(s.dpts, c.settings);
    PrimaryFound(c, OnOffAddress);
  }

  /** A fan whose addresses disagree is left out; what stays agrees. */
  lemma ClimateFan(s: State, bound: Fields)
    ensures var stages := FanStages(s, bound);
      var fields := if |stages| > 1 then bound - {FanSpeedAddress, FanSpeedStateAddress} else bound;
      FanAgrees(s.dpts, Plain(fields).(fanStep := stages == {true}))
  {
    var stages := FanStages(s, bound);
    if |stages| <= 1 {
      FanStagesAgree(s, Plain(bound).(fanStep := stages == {true}));
    } else {
      assert |{true}| == 1;
      assert stages != {true};
    }
  }

  function ClimateUnit(s: State, name: string, whole: Fields): Candidate {
    var stages := FanStages(s, whole);
    var fields := if |stages| > 1 then whole - {FanSpeedAddress, FanSpeedStateAddress} else whole;
    Candidate(Id.Climate, name, Plain(fields).(fanStep := stages == {true}), ObjectChannel)
  }

  lemma ClimateUnitFields(s: State, name: string, whole: Fields)
    requires TemperatureAddress in whole && TargetTemperatureStateAddress in whole && OnOffAddress in whole
    ensures var fields := ClimateUnit(s, name, whole).settings.fields;
      && (forall f :: f in fields ==> f in whole && fields[f] == whole[f])
      && CLIMATE_REQUIRED <= fields.Keys && OnOffAddress in fields && fields.Values <= whole.Values
  {
  }

  lemma ClimateUnitSound(s: State, name: string, whole: Fields)
    requires whole.Keys <= Allowed(Id.Climate) && whole.Values <= s.groups.Keys
    requires forall f :: f in whole ==> ChannelField(s.dpts, Id.Climate, f, whole[f])
    requires TemperatureAddress in whole && TargetTemperatureStateAddress in whole && OnOffAddress in whole
    ensures Sound(s.groups, s.dpts, ClimateUnit(s, name, whole)) && Uses(ClimateUnit(s, name, whole)) <= s.groups.Keys
  {
    hide Allowed;
    hide FanAgrees;
    hide Sound;
    hide ChannelField;
    ClimateFan(s, whole);
    ClimateUnitFields(s, name, whole);
    ClimateSound(s, ClimateUnit(s, name, whole));
  }

  lemma FinishClimateKeeps(s: State, name: string, bound: Fields, command: Ga)
    requires Inv(s) && TagsFilled(s, ClimateDialect, bound) && HasType(s, command, {BIT})
    ensures Step(s, FinishClimate(s, name, bound[OnOffAddress := command]), false)
  {
    hide Sound;
    hide ChannelField;
    hide Allowed;
    var whole := bound[OnOffAddress := command];
    ClimateShape(s, bound, command);
    if TemperatureAddress in whole && TargetTemperatureStateAddress in whole {
      ClimateUnitSound(s, name, whole);
      AddStep(s, ClimateUnit(s, name, whole));
    }
  }

  lemma FinishKeeps(s: State, dialect: Dialect, prefix: Prefix, command: Ga, fields: Fields)
    requires Inv(s) && TagsFilled(s, dialect, fields) && HasType(s, command, {BIT})
    ensures Step(s, Finish(s, dialect, prefix, command, fields), false)
  {
    if dialect.LightDialect? {
      FinishLightKeeps(s, prefix.name, prefix.light, fields, command);
    } else {
      FinishClimateKeeps(s, prefix.name, fields, command);
    }
  }

  lemma {:induction false} FinishAllKeeps(
    s: State, dialect: Dialect, prefix: Prefix, commands: seq<Ga>, bound: Bindings)
    requires Inv(s) && AllTagsFilled(s, dialect, bound)
    requires forall c :: c in bound ==> HasType(s, c, {BIT})
    ensures Step(s, FinishAll(s, dialect, prefix, commands, bound), false)
    decreases |commands|
  {
    if commands != [] {
      var c := commands[0];
      var next := if c in bound then Finish(s, dialect, prefix, c, bound[c]) else s;
      if c in bound { FinishKeeps(s, dialect, prefix, c, bound[c]); }
      AllTagsStay(s, next, dialect, bound);
      FinishAllKeeps(next, dialect, prefix, commands[1..], bound);
      StepTrans(s, next, FinishAll(s, dialect, prefix, commands, bound), false);
    }
  }

  lemma ChannelStepKeeps(s: State, dialect: Dialect, prefix: Prefix, commands: seq<Ga>, roles: map<Tag, seq<Ga>>)
    requires Inv(s)
    ensures Step(s, ChannelStep(s, dialect, prefix, commands, roles), false)
  {
    if |commands| > 1 {
      var (next, bound) := BindMulti(s, dialect, commands, roles);
      BindMultiKeeps(s, dialect, commands, roles);
      AnchorsAre(s, commands);
      FinishAllKeeps(next, dialect, prefix, commands, bound);
      StepTrans(s, next, FinishAll(next, dialect, prefix, commands, bound), false);
    } else if commands != [] && Anchors(s, commands[0]) {
      var keys := KeysOf(s, commands[0], false);
      var (next, fields) := BindSingle(s, dialect, roles, TagOrder(dialect), keys, map[]);
      BindSingleKeeps(s, dialect, roles, TagOrder(dialect), keys, map[]);
      FinishKeeps(next, dialect, prefix, commands[0], fields);
      StepTrans(s, next, Finish(next, dialect, prefix, commands[0], fields), false);
    }
  }

  lemma {:induction false} ChannelsKeep(
    s: State, begun: State, order: seq<Ga>, dialect: Dialect, prefixes: seq<Prefix>)
    requires Inv(s)
    ensures Step(s, Channels(s, begun, order, dialect, prefixes), false)
    decreases |prefixes|
  {
    if prefixes != [] {
      var p := prefixes[0];
      var commands, roles := TaggedAs(begun, order, dialect, p.key, Sw), RolesAt(begun, order, dialect, p.key);
      ChannelStepKeeps(s, dialect, p, commands, roles);
      var next := ChannelStep(s, dialect, p, commands, roles);
      ChannelsKeep(next, begun, order, dialect, prefixes[1..]);
      StepTrans(s, next, Channels(s, begun, order, dialect, prefixes), false);
    }
  }

  // ---------------------------------------------------------------------- scenes

  lemma SceneSound(s: State, name: string, a: Ga, number: int)
    requires a in s.groups && Recallable(s.groups[a]) && 1 <= number <= 64
    ensures Sound(s.groups, s.dpts, SceneFor(name, a, number)) && Uses(SceneFor(name, a, number)) == {a}
  {
    var c := SceneFor(name, a, number);
    PrimaryFound(c, Address);
  }

  lemma AddSceneKeeps(s: State, name: string, a: Ga, number: int)
    requires Inv(s) && a in s.groups && Recallable(s.groups[a]) && 1 <= number <= 64
    ensures Step(s, Add(s, SceneFor(name, a, number)), false) && a in Add(s, SceneFor(name, a, number)).used
  {
    SceneSound(s, name, a, number);
    AddStep(s, SceneFor(name, a, number));
  }

  predicate ValidNumbers(numbers: seq<int>) { forall n :: n in numbers ==> 1 <= n <= 64 }

  lemma ValidTail(numbers: seq<int>)
    requires numbers != [] && ValidNumbers(numbers)
    ensures 1 <= numbers[0] <= 64 && ValidNumbers(numbers[1..])
  {
    assert numbers[0] in numbers;
    forall n | n in numbers[1..] ensures 1 <= n <= 64 {
      assert n in numbers;
    }
  }

  lemma {:induction false} AddScenesKeep(s: State, name: string, a: Ga, numbers: seq<int>)
    requires Inv(s) && a in s.groups && Recallable(s.groups[a]) && ValidNumbers(numbers)
    ensures Step(s, AddScenes(s, name, a, numbers), false)
    ensures numbers != [] ==> a in AddScenes(s, name, a, numbers).used
    decreases |numbers|
  {
    if numbers != [] {
      ValidTail(numbers);
      AddSceneKeeps(s, name, a, numbers[0]);
      var next := Add(s, SceneFor(name, a, numbers[0]));
      AddScenesKeep(next, name, a, numbers[1..]);
      StepTrans(s, next, AddScenes(s, name, a, numbers), false);
    }
  }

  lemma UnblockKeeps(s: State, a: Ga)
    requires Inv(s) && a in s.groups
    ensures Grows(s, Unblock(s, a)) && Inv(Unblock(s, a))
  {
    CandidatesStay(s, Unblock(s, a));
  }

  lemma SceneStepKeeps(s: State, a: Ga)
    requires Inv(s)
    ensures Step(s, SceneStep(s, a), true)
  {
    if SceneStep(s, a) != s {
      var next := if a in s.blocked then Unblock(s, a) else s;
      UnblockKeeps(s, a);
      var numbers := s.groups[a].scene.numbers.value;
      AddScenesKeep(next, s.groups[a].name, a, numbers);
    }
  }

  lemma {:induction false} ScenesKeep(s: State, order: seq<Ga>)
    requires Inv(s)
    ensures Step(s, Scenes(s, order), true)
    decreases |order|
  {
    if order != [] {
      SceneStepKeeps(s, order[0]);
      ScenesKeep(SceneStep(s, order[0]), order[1..]);
      StepTrans(s, SceneStep(s, order[0]), Scenes(s, order), true);
    }
  }

  // ------------------------------------------------------ names, fallback, notes

  lemma {:induction false} NamedGroupsKeep(s: State, begun: State, order: seq<Ga>, prefixes: seq<Prefix>)
    requires Inv(s)
    ensures Step(s, NamedGroups(s, begun, order, prefixes), false)
    decreases |prefixes|
  {
    if prefixes != [] {
      var p := prefixes[0];
      var kind := if p.light then LightKind else OtherKind;
      var refs := NamedAs(begun, order, p.key);
      GroupStep(s, p.name, kind, refs, None, NameRole);
      var next := JoinGroup(s, p.name, kind, refs, None, NameRole);
      NamedGroupsKeep(next, begun, order, prefixes[1..]);
      StepTrans(s, next, NamedGroups(s, begun, order, prefixes), false);
    }
  }

  lemma ReadTypes(g: Group, t: Type)
    ensures (Read(g, t).Status? || Read(g, t).Measure?) ==> IsReadType(t)
    ensures Read(g, t).Command? ==> t == BIT && HasWrite(g)
    ensures Read(g, t).Unsure? ==> Read(g, t).issue != ConflictingType
  {
  }

  lemma OneFieldSound(s: State, c: Candidate, f: Field, a: Ga)
    requires c.settings.fields == map[f := a] && (f.Address? || f.StateAddress?) && a in s.groups
    requires c.settings.color.None? && !c.settings.fanStep && f in Shape(c.platform)
    requires !c.platform.Climate? && !c.platform.Scene? && Admitted(s.groups, s.dpts, c)
    requires Identified(c.platform, c.settings.fields)
    ensures Sound(s.groups, s.dpts, c) && Uses(c) <= s.groups.Keys
  {
    PrimaryFound(c, f);
    ValuesIn(s, c.settings.fields);
  }

  lemma ReadingKeeps(s: State, a: Ga, platform: Platform, f: Field, settings: Settings, source: Source)
    requires Inv(s) && a in s.dpts && settings.fields == map[f := a] && settings.color.None? && !settings.fanStep
    requires
      || ((platform.Sensor? || platform.BinarySensor?) && f.StateAddress? && source.Telemetry?
          && IsReadType(s.dpts[a]) && (platform.Sensor? ==> settings.reading == Some(s.dpts[a])))
      || (platform.Switch? && f.Address? && source.ObjectFlags? && s.dpts[a] == BIT && HasWrite(s.groups[a]))
    ensures Step(s, Add(s, Candidate(platform, s.groups[a].name, settings, source)), false)
  {
    var c := Candidate(platform, s.groups[a].name, settings, source);
    assert settings.fields.Keys == {f};
    OneFieldSound(s, c, f, a);
    AddStep(s, c);
  }

  lemma FallbackStepKeeps(s: State, a: Ga)
    requires Inv(s)
    ensures Step(s, FallbackStep(s, a), false)
  {
    if Available(s, a) && a !in s.blocked && a in s.dpts {
      var g, t := s.groups[a], FallbackStep(s, a);
      ReadTypes(g, s.dpts[a]);
      match Read(g, s.dpts[a])
      case Unsure(_) => NoteStep(s, t.issues, t.notExposed, t.unresolved);
      case Status =>
        ReadingKeeps(s, a, Id.BinarySensor, StateAddress,
                     Plain(map[StateAddress := a]).(unread := !HasRead(g)), Telemetry);
      case Command => ReadingKeeps(s, a, Id.Switch, Address, Plain(map[Address := a]), ObjectFlags);
      case Measure =>
        ReadingKeeps(s, a, Id.Sensor, StateAddress,
                     Plain(map[StateAddress := a]).(reading := Some(s.dpts[a]),
                                                    unread := g.objects != [] && !HasRead(g)), Telemetry);
    }
  }

  lemma {:induction false} FallbackKeeps(s: State, order: seq<Ga>)
    requires Inv(s)
    ensures Step(s, Fallback(s, order), false)
    decreases |order|
  {
    if order != [] {
      FallbackStepKeeps(s, order[0]);
      FallbackKeeps(FallbackStep(s, order[0]), order[1..]);
      StepTrans(s, FallbackStep(s, order[0]), Fallback(s, order), false);
    }
  }

  lemma ExplainKeeps(s: State, members: set<Ga>, issue: Issue)
    requires Inv(s) && issue != ConflictingType
    ensures Step(s, Explain(s, members, issue), false)
  {
    var t := Explain(s, members, issue);
    NoteStep(s, t.issues, t.notExposed, t.unresolved);
  }

  lemma AnnotateKeeps(s: State)
    requires Inv(s)
    ensures Step(s, Annotate(s), false)
  {
    var t := Explain(s, s.notExposed, NotExposedRole);
    ExplainKeeps(s, s.notExposed, NotExposedRole);
    ExplainKeeps(t, s.unresolved, UnresolvedRole);
    StepTrans(s, t, Annotate(s), false);
  }

  // ------------------------------------------------------------------- whole runs

  /** Every pass starts with each free address typed or blocked. */
  lemma PassesStartTyped(records: seq<Record>, script: Script)
    ensures var s1 := Functions(Load(records), script.functions);
      var s2 := Channels(s1, s1, script.order, ClimateDialect, script.climates);
      var s3 := Channels(s2, s2, script.order, LightDialect, script.lights);
      var s4 := Scenes(s3, script.order);
      var s5 := NamedGroups(s4, s4, script.order, script.names);
      && TypedOrBlocked(Load(records)) && TypedOrBlocked(s1) && TypedOrBlocked(s2) && TypedOrBlocked(s3)
      && TypedOrTaken(s4) && TypedOrTaken(s5)
      && Inv(s1) && Inv(s2) && Inv(s3) && Inv(s4) && Inv(s5)
  {
    LoadEstablishes(records);
    var s0 := Load(records);
    FunctionsKeep(s0, script.functions);
    var s1 := Functions(s0, script.functions);
    StepKeepsTyped(s0, s1);
    ChannelsKeep(s1, s1, script.order, ClimateDialect, script.climates);
    var s2 := Channels(s1, s1, script.order, ClimateDialect, script.climates);
    StepKeepsTyped(s1, s2);
    ChannelsKeep(s2, s2, script.order, LightDialect, script.lights);
    var s3 := Channels(s2, s2, script.order, LightDialect, script.lights);
    StepKeepsTyped(s2, s3);
    ScenesKeep(s3, script.order);
    var s4 := Scenes(s3, script.order);
    StepKeepsTaken(s3, s4, true);
    NamedGroupsKeep(s4, s4, script.order, script.names);
    StepKeepsTaken(s4, NamedGroups(s4, s4, script.order, script.names), false);
  }

  /** After a whole run every candidate is sound for the final types. */
  lemma RunKeepsInvariant(records: seq<Record>, script: Script)
    ensures Inv(PlanProject(records, script)) && TypedOrTaken(PlanProject(records, script))
  {
    PassesStartTyped(records, script);
    var s1 := Functions(Load(records), script.functions);
    var s2 := Channels(s1, s1, script.order, ClimateDialect, script.climates);
    var s3 := Channels(s2, s2, script.order, LightDialect, script.lights);
    var s4 := Scenes(s3, script.order);
    var s5 := NamedGroups(s4, s4, script.order, script.names);
    FallbackKeeps(s5, script.order);
    var s6 := Fallback(s5, script.order);
    StepKeepsTaken(s5, s6, false);
    AnnotateKeeps(s6);
    StepKeepsTaken(s6, Annotate(s6), false);
  }

  lemma {:induction false} AcceptedAre(s: State, rest: seq<Candidate>, claimed: set<Claim>)
    ensures forall c :: c in Accepted(s, rest, claimed) ==>
      c in rest && Live(s, c) && !Contested(s, c) && ClaimOf(c) !in claimed
    ensures forall i, j :: 0 <= i < j < |Accepted(s, rest, claimed)| ==>
      ClaimOf(Accepted(s, rest, claimed)[i]) != ClaimOf(Accepted(s, rest, claimed)[j])
  {
    if rest != [] {
      var c := rest[0];
      var taken := Live(s, c) && !Contested(s, c) && ClaimOf(c) !in claimed;
      var more := if taken then claimed + {ClaimOf(c)} else claimed;
      AcceptedAre(s, rest[1..], more);
      var tail := Accepted(s, rest[1..], more);
      forall i, j | 0 <= i < j < |Accepted(s, rest, claimed)|
        ensures ClaimOf(Accepted(s, rest, claimed)[i]) != ClaimOf(Accepted(s, rest, claimed)[j])
      {
        if taken && i == 0 {
          assert tail[j - 1] in tail;
        } else if taken {
          assert ClaimOf(tail[i - 1]) != ClaimOf(tail[j - 1]);
        }
      }
    }
  }

  /** A claim nobody contests is planned, by a candidate like every other one with that claim. */
  lemma {:induction false} UncontestedAccepted(s: State, rest: seq<Candidate>, claimed: set<Claim>, c: Candidate)
    requires c in rest && Live(s, c) && !Contested(s, c) && ClaimOf(c) !in claimed
    requires forall d :: d in rest ==> d in s.candidates
    ensures exists d :: d in Accepted(s, rest, claimed) && ClaimOf(d) == ClaimOf(c) && Alike(c, d)
  {
    var d := rest[0];
    assert d in rest && d in s.candidates;
    if Live(s, d) && !Contested(s, d) && ClaimOf(d) !in claimed {
      assert d in Accepted(s, rest, claimed);
      if ClaimOf(d) != ClaimOf(c) {
        UncontestedAccepted(s, rest[1..], claimed + {ClaimOf(d)}, c);
        var e :| e in Accepted(s, rest[1..], claimed + {ClaimOf(d)}) && ClaimOf(e) == ClaimOf(c) && Alike(c, e);
        assert e in Accepted(s, rest, claimed);
      } else {
        assert Alike(c, d);
      }
    } else {
      assert c != d;
      UncontestedAccepted(s, rest[1..], claimed, c);
    }
  }

  /**
    For every project: each planned entity touches no blocked address, its fields hold addresses whose
    exact types the tables admit, a climate has its required temperatures, fan and colour modes follow the
    types of command and state, and no two entities claim one address.
   */
  lemma PlannedEntitiesAreSound(records: seq<Record>, script: Script)
    requires Conclusion(PlanProject(records, script)).Success?
    ensures var s := PlanProject(records, script);
      var entities := Conclusion(s).value.entities;
      && |entities| <= MAX_ENTITIES
      && (forall c :: c in entities ==>
            Sound(s.groups, s.dpts, c) && Uses(c) <= s.groups.Keys && Uses(c) !! s.blocked)
      && (forall i, j :: 0 <= i < j < |entities| ==> ClaimOf(entities[i]) != ClaimOf(entities[j]))
  {
    RunKeepsInvariant(records, script);
    AcceptedAre(PlanProject(records, script), PlanProject(records, script).candidates, {});
  }

  lemma GrowsTrans(s: State, t: State, u: State)
    requires Grows(s, t) && Grows(t, u)
    ensures Grows(s, u)
  {
  }

  /** Over a whole run the project stays the one that was loaded. */
  lemma RunGrows(records: seq<Record>, script: Script)
    ensures Grows(Load(records), PlanProject(records, script))
  {
    hide Grows;
    hide Inv;
    hide TypedOrBlocked;
    hide TypedOrTaken;
    PassesStartTyped(records, script);
    var s0 := Load(records);
    LoadEstablishes(records);
    var s1 := Functions(s0, script.functions);
    FunctionsKeep(s0, script.functions);
    var s2 := Channels(s1, s1, script.order, ClimateDialect, script.climates);
    ChannelsKeep(s1, s1, script.order, ClimateDialect, script.climates);
    GrowsTrans(s0, s1, s2);
    var s3 := Channels(s2, s2, script.order, LightDialect, script.lights);
    ChannelsKeep(s2, s2, script.order, LightDialect, script.lights);
    GrowsTrans(s0, s2, s3);
    var s4 := Scenes(s3, script.order);
    ScenesKeep(s3, script.order);
    GrowsTrans(s0, s3, s4);
    var s5 := NamedGroups(s4, s4, script.order, script.names);
    NamedGroupsKeep(s4, s4, script.order, script.names);
    GrowsTrans(s0, s4, s5);
    var s6 := Fallback(s5, script.order);
    FallbackKeeps(s5, script.order);
    GrowsTrans(s0, s5, s6);
    AnnotateKeeps(s6);
    GrowsTrans(s0, s6, Annotate(s6));
  }

  /** Where a record ends up in the state: under its address, or as a bad one under its key. */
  function PlaceOf(r: Record): Ga {
    if r.address.None? || r.address.value == "0/0/0" then r.key else r.address.value
  }

  lemma {:induction false} GatheredAll(records: seq<Record>, s: State)
    ensures var t := Gather(records, s);
      && s.groups.Keys <= t.groups.Keys && s.issues.Keys <= t.issues.Keys
      && forall r :: r in records ==> PlaceOf(r) in t.groups || PlaceOf(r) in t.issues
    decreases |records|
  {
    if records != [] {
      var r := records[0];
      assert records == [r] + records[1..];
      var next :=
        if r.address.None? || r.address.value == "0/0/0" then s.(issues := s.issues[r.key := InvalidGroupAddress])
        else
          var a := r.address.value;
          if a in s.groups && s.groups[a] != r.group then
            s.(issues := s.issues[a := DuplicateMetadata], blocked := s.blocked + {a})
          else s.(groups := s.groups[a := r.group]);
      GatheredAll(records[1..], next);
    }
  }

  /** What is blocked is never planned, and is reported for the reason recorded when it was blocked. */
  lemma BlockedIsReported(s: State, a: Ga)
    requires BlockedTold(s) && Conclusion(s).Success? && a in s.blocked
    ensures var outcome := Conclusion(s).value;
      a !in UsedBy(outcome.entities) && a in s.issues && a in outcome.skipped && outcome.skipped[a] == s.issues[a]
  {
    AcceptedAre(s, s.candidates, {});
    assert a !in ContestedAddresses(s);
  }

  /**
    No record of a project is lost, whatever the passes do: its address is used by an entity or reported, never both;
    a blocked address is reported for its recorded reason, and one of contested claims for that.
   */
  lemma NoAddressIsLost(records: seq<Record>, script: Script)
    requires Conclusion(PlanProject(records, script)).Success?
    ensures var s := PlanProject(records, script);
      var outcome := Conclusion(s).value;
      && (forall r :: r in records ==> PlaceOf(r) in UsedBy(outcome.entities) + outcome.skipped.Keys)
      && UsedBy(outcome.entities) !! outcome.skipped.Keys
      && (forall a :: a in s.blocked ==>
            a !in UsedBy(outcome.entities) && a in s.issues && a in outcome.skipped && outcome.skipped[a] == s.issues[a])
      && (forall c, a :: c in s.candidates && Live(s, c) && Contested(s, c) && a in Uses(c) ==>
            a in UsedBy(outcome.entities) || (a in outcome.skipped && outcome.skipped[a] == ConflictingClaim))
  {
    hide PlanProject;
    var s, loaded := PlanProject(records, script), Load(records);
    RunKeepsInvariant(records, script);
    RunGrows(records, script);
    GatheredAll(records, NOTHING);
    forall a | a in s.blocked
      ensures var outcome := Conclusion(s).value;
        a !in UsedBy(outcome.entities) && a in s.issues && a in outcome.skipped && outcome.skipped[a] == s.issues[a]
    {
      BlockedIsReported(s, a);
    }
    ContestedIsReported(s);
    forall r | r in records ensures PlaceOf(r) in s.groups || PlaceOf(r) in s.issues {
      assert PlaceOf(r) in loaded.groups || PlaceOf(r) in loaded.issues;
    }
  }

  lemma ContestedIsReported(s: State)
    requires Conclusion(s).Success?
    ensures var outcome := Conclusion(s).value;
      forall c, a :: c in s.candidates && Live(s, c) && Contested(s, c) && a in Uses(c) ==>
        a in UsedBy(outcome.entities) || (a in outcome.skipped && outcome.skipped[a] == ConflictingClaim)
  {
    hide Contested;
    hide Accepted;
    forall c, a | c in s.candidates && Live(s, c) && Contested(s, c) && a in Uses(c)
      ensures a in ContestedAddresses(s)
    {
    }
  }

  // ------------------------------------------------- when a switch is a switch bit

  lemma {:induction false} CollectedStays(s: State, refs: seq<Ref>, fields: Fields, f: Field)
    requires Collect(s, refs, fields).Success? && f in fields
    ensures f in Collect(s, refs, fields).value && Collect(s, refs, fields).value[f] == fields[f]
    decreases |refs|
  {
    if refs != [] {
      if RoleEntry(refs[0].role).None? {
        CollectedStays(s, refs[1..], fields, f);
      } else {
        var entry := RoleEntry(refs[0].role).value;
        assert Problem(s, refs[0].address, entry, fields).None?;
        CollectedStays(s, refs[1..], fields[entry.field := refs[0].address], f);
      }
    }
  }

  predicate NamesScene(refs: seq<Ref>) { exists r :: r in refs && r.role.RecallScene? }

  lemma AddressRoles(role: Role, t: Type)
    requires Fills(role, Address, t)
    ensures if role.RecallScene? then t in SCENE_TYPES else t == BIT
  {
  }

  lemma NamesSceneCons(refs: seq<Ref>)
    requires refs != []
    ensures NamesScene(refs) <==> refs[0].role.RecallScene? || NamesScene(refs[1..])
  {
    assert refs == [refs[0]] + refs[1..];
  }

  /**
    The `address` a group joins is a one-bit switch exactly when no member has the scene role: with one,
    it is a scene address, whatever the entity made of it.
   */
  lemma {:induction false} AddressIsSwitchBitExactly(s: State, refs: seq<Ref>, fields: Fields)
    requires Collect(s, refs, fields).Success? && Address in Collect(s, refs, fields).value && Address !in fields
    ensures var a := Collect(s, refs, fields).value[Address];
      if NamesScene(refs) then HasType(s, a, SCENE_TYPES) else HasType(s, a, {BIT})
    decreases |refs|
  {
    if refs != [] {
      NamesSceneCons(refs);
      var role, a := refs[0].role, refs[0].address;
      if RoleEntry(role).None? {
        AddressIsSwitchBitExactly(s, refs[1..], fields);
      } else {
        var entry := RoleEntry(role).value;
        assert Problem(s, a, entry, fields).None?;
        var next := fields[entry.field := a];
        if entry.field.Address? {
          CollectedStays(s, refs[1..], next, Address);
          assert Fills(role, Address, s.dpts[a]);
          AddressRoles(role, s.dpts[a]);
          AddressSettled(s, refs[1..], next);
        } else {
          AddressIsSwitchBitExactly(s, refs[1..], next);
        }
      }
    }
  }

  /** Once the address is taken, further members with its field agree with it. */
  lemma {:induction false} AddressSettled(s: State, refs: seq<Ref>, fields: Fields)
    requires Collect(s, refs, fields).Success? && Address in fields && HasType(s, fields[Address], SCENE_TYPES + {BIT})
    ensures NamesScene(refs) ==> HasType(s, fields[Address], SCENE_TYPES)
    decreases |refs|
  {
    if refs != [] {
      NamesSceneCons(refs);
      var role, a := refs[0].role, refs[0].address;
      if RoleEntry(role).None? {
        AddressSettled(s, refs[1..], fields);
      } else {
        var entry := RoleEntry(role).value;
        assert Problem(s, a, entry, fields).None?;
        AddressSettled(s, refs[1..], fields[entry.field := a]);
      }
    }
  }

  /** So a function with one writable scene member and no scene kind becomes a switch on a scene address. */
  lemma SceneMemberMakesSwitch(s: State, name: string, a: Ga)
    requires a in s.groups && a !in s.blocked && HasType(s, a, SCENE_TYPES)
    requires s.groups[a].objects == [] || HasWrite(s.groups[a])
    ensures JoinGroup(s, name, OtherKind, [Ref(RecallScene, a)], None, FunctionRole) ==
      Add(s, Candidate(Id.Switch, name, Plain(map[Address := a]), FunctionRole))
  {
    var refs := [Ref(RecallScene, a)];
    assert refs[1..] == [];
    assert Collect(s, refs, map[]) == Success(map[Address := a]) by {
      assert Problem(s, a, RoleEntry(RecallScene).value, map[]).None?;
      assert Collect(s, refs, map[]) == Collect(s, refs[1..], map[][Address := a]);
    }
    var fields: Fields := map[Address := a];
    assert fields.Keys == {Address};
    assert fields.Keys * IMPULSES == {};
    assert Judge(s, OtherKind, fields, None) == Entity(Id.Switch, Plain(fields));
  }

  // ------------------------------------------------- a project with such a function

  const SCENE_GA: Ga := "1/1/1"

  /** An address of type 17.001 and nothing else. */
  function SceneGroup(): Group {
    Group(Some(Some(Dpt(17, Some(1)))), [], "Movie", None, None, None, None, false,
          SceneData(false, None, None, false), None, "")
  }

  function SceneRecords(): seq<Record> { [Record("1", Some(SCENE_GA), SceneGroup())] }

  /** One function of no special kind whose only member has the scene role. */
  function SceneScript(): Script {
    Script([Function("movie", "Movie", OtherKind, [Member(RecallScene, Some(SCENE_GA), SCENE_GA)], None)],
           [], [], [], [SCENE_GA])
  }

  lemma SceneLoaded()
    ensures var s := Load(SceneRecords());
      && s.groups == map[SCENE_GA := SceneGroup()] && s.dpts == map[SCENE_GA := Type(17, 1)] && s.issues == map[]
      && s.blocked == {} && s.used == {} && s.reserved == {} && s.candidates == []
      && s.notExposed == {} && s.unresolved == {}
  {
    var g, d := SceneGroup(), Dpt(17, Some(1));
    var gathered := Gather(SceneRecords(), NOTHING);
    assert SceneRecords()[1..] == [] && SCENE_GA != "0/0/0";
    assert gathered.groups == map[SCENE_GA := g];
    assert ObjectChoices(g.objects) == {} && Choices(g) == {Some(d)};
    assert Decides(g) && Exacts(g) == {d} && Mains(g) == {17};
    assert Resolve(g) == Success(Type(17, 1)) by { assert Only({d}) == d; }
    var r := Resolutions(gathered.groups);
    assert r == map[SCENE_GA := Resolve(g)];
    assert TypesMissing(r, r.Keys) == map[] && TypesFound(r, r.Keys) == map[SCENE_GA := Type(17, 1)];
  }

  /** From this project the planner makes a switch on the scene address. */
  lemma SceneProjectPlansSwitch()
    ensures var s := PlanProject(SceneRecords(), SceneScript());
      && s.dpts == map[SCENE_GA := Type(17, 1)]
      && Conclusion(s).Success?
      && Conclusion(s).value.entities == [Candidate(Id.Switch, "Movie", Plain(map[Address := SCENE_GA]), FunctionRole)]
  {
    var loaded, script := Load(SceneRecords()), SceneScript();
    var c := Candidate(Id.Switch, "Movie", Plain(map[Address := SCENE_GA]), FunctionRole);
    SceneLoaded();
    SceneFunctionJoins(loaded);
    SceneIsTaken(Add(loaded, c), c);
    SceneConcludes(Add(loaded, c), c);
    hide Annotate;
    hide Conclusion;
    hide Load;
    hide Functions;
    hide Scenes;
    hide Fallback;
  }

  lemma {:induction false} SceneFunctionJoins(s: State)
    requires s.groups == map[SCENE_GA := SceneGroup()] && s.dpts == map[SCENE_GA := Type(17, 1)] && s.blocked == {}
    ensures Functions(s, SceneScript().functions) ==
      Add(s, Candidate(Id.Switch, "Movie", Plain(map[Address := SCENE_GA]), FunctionRole))
  {
    var functions := SceneScript().functions;
    var f, refs := functions[0], [Ref(RecallScene, SCENE_GA)];
    SceneMemberMakesSwitch(s, "Movie", SCENE_GA);
    SceneMembers(s, f);
    hide JoinGroup;
    hide Members;
    hide Add;
    assert functions[1..] == [];
    assert Functions(s, functions) == Functions(JoinGroup(s, "Movie", OtherKind, refs, None, FunctionRole), functions[1..]);
  }

  lemma {:induction false} SceneMembers(s: State, f: Function)
    requires f.members == [Member(RecallScene, Some(SCENE_GA), SCENE_GA)]
    ensures Members(s, f, f.members, []) == (s, [Ref(RecallScene, SCENE_GA)])
  {
    var none, refs: seq<Ref> := [], [Ref(RecallScene, SCENE_GA)];
    assert none + refs == refs;
    assert MemberStep(s, f, f.members[0]) == (s, refs);
    hide MemberStep;
    assert f.members[1..] == [];
    assert Members(s, f, f.members[1..], refs) == (s, refs);
  }

  /** An address in use is left alone by the later passes. */
  lemma {:induction false} SceneIsTaken(s: State, c: Candidate)
    requires SCENE_GA in s.used
    ensures Scenes(s, [SCENE_GA]) == s && Fallback(s, [SCENE_GA]) == s
  {
    var order := [SCENE_GA];
    assert order[1..] == [];
  }

  lemma SceneConcludes(s: State, c: Candidate)
    requires s.candidates == [c] && s.blocked == {} && s.notExposed == {} && s.unresolved == {}
    ensures Annotate(s) == s.(issues := Annotate(s).issues)
    ensures Conclusion(Annotate(s)).Success? && Conclusion(Annotate(s)).value.entities == [c]
  {
    var t := Annotate(s);
    assert t.candidates[1..] == [];
    assert Live(t, c);
    assert !Contested(t, c);
    var none: seq<Candidate> := [];
    assert Accepted(t, t.candidates[1..], {} + {ClaimOf(c)}) == none;
    assert [c] + none == [c];
  }
}
