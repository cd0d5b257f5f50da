/** The planner itself: one object whose passes update shared state in place. */
module KnxPlanner {
  import opened Common
  import Id = KnxIdentity
  import opened KnxPlannerModel
  import opened KnxPlannerPasses
  import opened KnxPlannerSoundness
  import opened KnxPlannerRuns
  import opened KnxTypeLookups

  lemma NoneFound(r: Resolved)
    ensures TypesFound(r, {}) == map[] && TypesMissing(r, {}) == map[]
  {
  }

  lemma OneMore(r: Resolved, done: set<Ga>, a: Ga)
    requires done <= r.Keys && a in r
    ensures TypesFound(r, done + {a}) ==
      if r[a].Success? then TypesFound(r, done)[a := r[a].value] else TypesFound(r, done)
    ensures TypesMissing(r, done + {a}) ==
      if r[a].Failure? then TypesMissing(r, done)[a := r[a].error] else TypesMissing(r, done)
  {
  }

  class Planner {
    var groups: map<Ga, Group>
    var dpts: map<Ga, Type>
    var issues: map<Ga, Issue>
    var blocked: set<Ga>
    var used: set<Ga>
    var reserved: set<Ga>
    var candidates: seq<Candidate>
    var notExposed: set<Ga>
    var unresolved: set<Ga>

    function Now(): State
      reads this
    {
      State(groups, dpts, issues, blocked, used, reserved, candidates, notExposed, unresolved)
    }

    /** Read a project and find every address's exact type. */
    constructor (records: seq<Record>)
      ensures Now() == Load(records)
      ensures Inv(Now()) && TypedOrBlocked(Now())
    {
      groups, dpts, issues := map[], map[], map[];
      blocked, used, reserved := {}, {}, {};
      candidates, notExposed, unresolved := [], {}, {};
      new;
      for i := 0 to |records|
        invariant Gather(records[i..], Now()) == Gather(records, NOTHING)
      {
        assert records[i..][1..] == records[i + 1..];
        var r := records[i];
        if r.address.None? || r.address.value == "0/0/0" {
          issues := issues[r.key := InvalidGroupAddress];
        } else if r.address.value in groups && groups[r.address.value] != r.group {
          issues := issues[r.address.value := DuplicateMetadata];
          blocked := blocked + {r.address.value};
        } else {
          groups := groups[r.address.value := r.group];
        }
      }
      assert records[|records|..] == [];
      ghost var gathered := Now();
      assert gathered == Gather(records, NOTHING);
      GatherIssues(records, NOTHING);
      FindTypes(gathered);
      LoadEstablishes(records);
    }

    method FindType(a: Ga)
      requires a in groups
      modifies this`dpts, this`issues, this`blocked
      ensures match Resolve(groups[a])
        case Success(t) => dpts == old(dpts)[a := t] && issues == old(issues) && blocked == old(blocked)
        case Failure(issue) => dpts == old(dpts) && issues == old(issues)[a := issue] && blocked == old(blocked) + {a}
    {
      hide Resolve;
      match Resolve(groups[a])
      case Success(t) => dpts := dpts[a := t];
      case Failure(issue) =>
        issues := issues[a := issue];
        blocked := blocked + {a};
    }

    /** Resolve the datapoint type of every address, in any order. */
    method FindTypes(ghost gathered: State)
      requires Now() == gathered && dpts == map[]
      modifies this`dpts, this`issues, this`blocked
      ensures Now() == Typed(gathered)
    {
      hide Resolve;
      hide TypesFound;
      hide TypesMissing;
      ghost var r := Resolutions(groups);
      var left := groups.Keys;
      NoneFound(r);
      assert r.Keys - left == {};
      while left != {}
        invariant left <= r.Keys
        invariant dpts == TypesFound(r, r.Keys - left)
        invariant issues == gathered.issues + TypesMissing(r, r.Keys - left)
        invariant blocked == gathered.blocked + TypesMissing(r, r.Keys - left).Keys
        decreases left
      {
        var a :| a in left;
        OneMore(r, r.Keys - left, a);
        assert r.Keys - (left - {a}) == r.Keys - left + {a};
        left := left - {a};
        FindType(a);
      }
      assert r.Keys - left == r.Keys;
    }

    method AddCandidate(c: Candidate)
      modifies this`candidates, this`used
      ensures Now() == Add(old(Now()), c)
    {
      candidates := candidates + [c];
      used := used + Uses(c);
    }

    method RefuseAll(mentioned: set<Ga>, issue: Issue)
      modifies this`blocked, this`issues
      ensures Now() == Refuse(old(Now()), mentioned, issue)
    {
      blocked := blocked + mentioned;
      issues := SetDefaults(issues, mentioned, issue);
    }

    /** Fill fields from roles; stop at the first address that does not fit. */
    method CollectFields(refs: seq<Ref>) returns (r: Result<Fields, Issue>)
      requires RefsTyped(Now(), refs)
      ensures r == Collect(Now(), refs, map[])
    {
      var fields: Fields := map[];
      for i := 0 to |refs|
        invariant Collect(Now(), refs[i..], fields) == Collect(Now(), refs, map[])
      {
        assert refs[i..][1..] == refs[i + 1..];
        var role, a := refs[i].role, refs[i].address;
        var entry := RoleEntry(role);
        if entry.Some? {
          if a !in groups || a in blocked { return Failure(InvalidFunctionAddress); }
          assert refs[i] in refs;
          if dpts[a] !in entry.value.types { return Failure(TypeMismatch); }
          if entry.value.field in fields && fields[entry.value.field] != a { return Failure(AmbiguousRole); }
          if IsCommandField(entry.value.field) && groups[a].objects != [] && !HasWrite(groups[a]) {
            return Failure(NotWritable);
          }
          fields := fields[entry.value.field := a];
        }
      }
      assert refs[|refs|..] == [];
      r := Success(fields);
    }

    method JoinImpulses(name: string, fields: Fields, mentioned: set<Ga>, source: Source)
      modifies this
      ensures Now() == Impulses(old(Now()), name, fields, mentioned, source)
    {
      var wall, rest := fields.Keys * WALL, fields - WALL;
      if rest.Keys == IMPULSES && wall == WALL && fields[MoveLongAddress] in groups {
        var cover := ImpulseCover(Now(), name, fields, source);
        notExposed, reserved := notExposed + rest.Values, reserved + rest.Values;
        AddCandidate(cover);
      } else {
        var settled := set f | f in wall :: fields[f];
        notExposed, reserved := notExposed + settled, reserved + settled;
        if rest.Keys != IMPULSES {
          RefuseAll(mentioned, IncompatibleRoles);
        } else {
          AddCandidate(ButtonFor(name, fields, OpenImpulseAddress, source));
          AddCandidate(ButtonFor(name, fields, CloseImpulseAddress, source));
          AddCandidate(ButtonFor(name, fields, StopImpulseAddress, source));
        }
      }
    }

    /** The kinds of fan its addresses are. */
    method FanMode(fields: Fields) returns (stages: set<bool>)
      requires FieldsTyped(Now(), fields)
      ensures stages == FanStages(Now(), fields)
    {
      stages := {};
      if FanSpeedAddress in fields { stages := stages + {dpts[fields[FanSpeedAddress]] == FAN_STAGE}; }
      if FanSpeedStateAddress in fields { stages := stages + {dpts[fields[FanSpeedStateAddress]] == FAN_STAGE}; }
    }

    /** Whether the colour feedback uses the command's encoding. */
    method SameColor(fields: Fields) returns (same: bool)
      requires FieldsTyped(Now(), fields) && ColorTemperatureAddress in fields && ColorTemperatureStateAddress in fields
      ensures same == SameType(Now(), fields[ColorTemperatureAddress], fields[ColorTemperatureStateAddress])
    {
      same := dpts[fields[ColorTemperatureAddress]] == dpts[fields[ColorTemperatureStateAddress]];
    }

    method ColorMode(fields: Fields) returns (mode: Option<ColorMode>)
      requires FieldsTyped(Now(), fields)
      ensures mode == ColorModeOf(Now(), fields)
    {
      mode := None;
      if ColorTemperatureAddress in fields {
        mode := Some(if dpts[fields[ColorTemperatureAddress]] == SCALING then Relative else Absolute);
      }
    }

    method WeighClimate(fields: Fields) returns (v: Verdict)
      requires FieldsTyped(Now(), fields)
      ensures v == JudgeClimate(Now(), fields)
    {
      if CLIMATE_NEEDS <= fields.Keys {
        var renamed := ClimateFields(fields);
        var stages := FanMode(renamed);
        v := if |stages| > 1 then Refused(TypeMismatch)
             else Entity(Id.Climate, Plain(renamed).(fanStep := stages == {true}));
      } else if TargetTemperatureAddress in fields || TargetTemperatureStateAddress in fields {
        v := Refused(IncompleteClimate);
      } else {
        v := Ignored;
      }
    }

    method WeighLight(kind: Kind, fields: Fields) returns (v: Verdict)
      requires FieldsTyped(Now(), fields)
      ensures v == JudgeLight(Now(), kind, fields)
    {
      if ColorTemperatureStateAddress in fields {
        if ColorTemperatureAddress !in fields { return Refused(TypeMismatch); }
        var same := SameColor(fields);
        if !same { return Refused(TypeMismatch); }
      }
      if !kind.LightKind? && (BrightnessAddress in fields || ColorTemperatureAddress in fields) { return Ignored; }
      var color := ColorMode(fields);
      v := Entity(if kind.LightKind? then Id.Light else Id.Switch, Plain(fields).(color := color));
    }

    /** What the fields of one group make, looking at their types where the kind asks for it. */
    method Weigh(kind: Kind, fields: Fields, scene: Option<int>) returns (v: Verdict)
      requires FieldsTyped(Now(), fields)
      ensures v == Judge(Now(), kind, fields, scene)
    {
      if kind.ClimateKind? || TargetTemperatureAddress in fields {
        v := WeighClimate(fields);
      } else if kind.CoverKind? || MoveLongAddress in fields {
        v := if MoveLongAddress in fields || PositionAddress in fields then Entity(Id.Cover, Plain(fields)) else Ignored;
      } else if kind.SceneKind? {
        v := if Address in fields && scene.Some? && 1 <= scene.value <= 64
             then Entity(Id.Scene, Plain(fields).(scene := scene))
             else Refused(MissingSceneNumber);
      } else if FanStepAddress in fields {
        v := JudgeFan(fields);
      } else if Address in fields {
        v := WeighLight(kind, fields);
      } else {
        v := Ignored;
      }
    }

    /** Join one function's or one name's addresses into an entity, or say why not. */
    method Join(name: string, kind: Kind, refs: seq<Ref>, scene: Option<int>, source: Source)
      requires Inv(Now()) && RefsTyped(Now(), refs) && FromRoles(source)
      modifies this
      ensures Now() == JoinGroup(old(Now()), name, kind, refs, scene, source)
      ensures Step(old(Now()), Now(), false)
    {
      GroupStep(Now(), name, kind, refs, scene, source);
      var mentioned := Mentioned(Now(), refs);
      var collected := CollectFields(refs);
      match collected
      case Failure(issue) => RefuseAll(mentioned, issue);
      case Success(fields) =>
        if fields.Keys * IMPULSES != {} {
          JoinImpulses(name, fields, mentioned, source);
        } else {
          CollectedTyped(Now(), refs, map[]);
          var verdict := Weigh(kind, fields, scene);
          match verdict
          case Refused(issue) => RefuseAll(mentioned, issue);
          case Ignored =>
          case Entity(platform, settings) =>
            if settings.fields.Keys <= Allowed(platform) {
              AddCandidate(Candidate(platform, name, settings, source));
            } else {
              RefuseAll(mentioned, IncompatibleRoles);
            }
        }
    }

    method MemberRefs(f: Function) returns (refs: seq<Ref>)
      requires Inv(Now())
      modifies this`issues, this`notExposed, this`unresolved
      ensures (Now(), refs) == Members(old(Now()), f, f.members, [])
      ensures Step(old(Now()), Now(), false)
    {
      MembersKeep(Now(), f, f.members, []);
      refs := [];
      for i := 0 to |f.members|
        invariant Members(Now(), f, f.members[i..], refs) == Members(old(Now()), f, f.members, [])
      {
        assert f.members[i..][1..] == f.members[i + 1..];
        var m := f.members[i];
        var more := [];
        if m.address.None? {
          more := RefsFor(Now(), m.role, m.text);
          issues := issues[m.text := MissingFunctionAddress];
        } else {
          var a := m.address.value;
          if m.role.NotExposed? {
            notExposed := notExposed + {a};
          } else if RoleEntry(m.role).None? && !m.role.TempRoomSetpoint? {
            var named := NamedRole(Now(), f, a);
            if named.Some? {
              more := RefsFor(Now(), named.value, a);
            } else if IsWallMember(Now(), f, a) {
              notExposed := notExposed + {a};
            } else {
              unresolved := unresolved + {a};
            }
          } else {
            more := RefsFor(Now(), m.role, a);
          }
        }
        refs := refs + more;
      }
      assert f.members[|f.members|..] == [];
    }

    method JoinFunctions(functions: seq<Function>)
      requires Inv(Now()) && TypedOrBlocked(Now())
      modifies this
      ensures Now() == Functions(old(Now()), functions)
      ensures Inv(Now()) && TypedOrBlocked(Now())
    {
      for i := 0 to |functions|
        invariant Functions(Now(), functions[i..]) == Functions(old(Now()), functions)
        invariant Inv(Now()) && TypedOrBlocked(Now())
      {
        assert functions[i..][1..] == functions[i + 1..];
        var f := functions[i];
        var refs := MemberRefs(f);
        Join(f.name, f.kind, refs, f.scene, FunctionRole);
      }
      assert functions[|functions|..] == [];
    }

    /** Prove that an address shares a command's channel and has its tag's type; may lift a feedback conflict. */
    method BindOptional(a: Ga, tag: Tag, types: set<Type>, anchor: set<string>) returns (ok: bool)
      requires Inv(Now())
      modifies this`dpts, this`blocked, this`issues
      ensures (Now(), ok) == Bind(old(Now()), a, tag, types, anchor)
      ensures Step(old(Now()), Now(), false)
    {
      BindKeeps(Now(), a, tag, types, anchor);
      if anchor != KeysOf(Now(), a, IsFeedback(tag)) {
        issues := SetDefault(issues, a, UnprovenChannel);
        return false;
      }
      if Relaxes(Now(), a, tag) {
        dpts := dpts[a := STATE_BIT];
        blocked := blocked - {a};
        issues := issues - {a};
      }
      if a in blocked || !HasType(Now(), a, types) {
        issues := SetDefault(issues, a, TypeMismatch);
        return false;
      }
      ok := true;
    }

    method BlockDoubled(addresses: set<Ga>)
      modifies this`blocked, this`issues
      ensures Now() == BlockAll(old(Now()), addresses)
    {
      blocked := blocked + addresses;
      issues := SetAll(issues, addresses, AmbiguousRole);
    }

    /** One command under a name: bind each tag's only address to it. */
    method BindOneCommand(dialect: Dialect, roles: map<Tag, seq<Ga>>, anchor: set<string>) returns (fields: Fields)
      requires Inv(Now())
      modifies this`dpts, this`blocked, this`issues
      ensures (Now(), fields) == BindSingle(old(Now()), dialect, roles, TagOrder(dialect), anchor, map[])
      ensures Step(old(Now()), Now(), false)
    {
      BindSingleKeeps(Now(), dialect, roles, TagOrder(dialect), anchor, map[]);
      var tags := TagOrder(dialect);
      fields := map[];
      for i := 0 to |tags|
        invariant BindSingle(Now(), dialect, roles, tags[i..], anchor, fields) ==
          BindSingle(old(Now()), dialect, roles, tags, anchor, map[])
        invariant Inv(Now())
      {
        assert tags[i..][1..] == tags[i + 1..];
        var addresses, entry := Dialected(roles, tags[i]), TagEntry(dialect, tags[i]);
        if addresses != [] && entry.Some? {
          if |addresses| != 1 {
            BlockKeeps(Now(), Elements(addresses));
            BlockDoubled(Elements(addresses));
          } else {
            var ok := BindOptional(addresses[0], tags[i], entry.value.types, anchor);
            if ok { fields := fields[entry.value.field := addresses[0]]; }
          }
        }
      }
      assert tags[|tags|..] == [];
    }

    /** The channel of each command that has one. */
    method FindAnchors(commands: seq<Ga>) returns (anchors: map<Ga, string>)
      ensures anchors == AllAnchors(Now(), commands)
    {
      anchors := map[];
      for i := 0 to |commands|
        invariant anchors == AllAnchors(Now(), commands[..i])
      {
        assert commands[..i + 1] == commands[..i] + [commands[i]];
        if Anchors(Now(), commands[i]) { anchors := anchors[commands[i] := AnchorOf(Now(), commands[i])]; }
      }
      assert commands[..|commands|] == commands;
    }

    /** Bind each command's only claimant of one tag. */
    method BindAllClaims(
      dialect: Dialect, anchors: map<Ga, string>, claims: map<Ga, seq<Ga>>, commands: seq<Ga>, tag: Tag, entry: Entry,
      before: Bindings) returns (bound: Bindings)
      requires Inv(Now())
      modifies this`dpts, this`blocked, this`issues
      ensures (Now(), bound) == BindClaims(old(Now()), anchors, claims, commands, tag, entry, before)
    {
      bound := before;
      for i := 0 to |commands|
        invariant BindClaims(Now(), anchors, claims, commands[i..], tag, entry, bound) ==
          BindClaims(old(Now()), anchors, claims, commands, tag, entry, before)
        invariant Inv(Now())
      {
        assert commands[i..][1..] == commands[i + 1..];
        var c := commands[i];
        if c in claims && c in anchors && claims[c] != [] {
          if |claims[c]| != 1 {
            NoteStep(Now(), SetDefaults(issues, Elements(claims[c]), AmbiguousRole), notExposed, unresolved);
            issues := SetDefaults(issues, Elements(claims[c]), AmbiguousRole);
          } else {
            var ok := BindOptional(claims[c][0], tag, entry.types, {anchors[c]});
            if ok && c in bound { bound := bound[c := bound[c][entry.field := claims[c][0]]]; }
          }
        }
      }
      assert commands[|commands|..] == [];
    }

    /** Bind one tag's addresses to the commands whose channels they prove. */
    method BindTag(
      dialect: Dialect, anchors: map<Ga, string>, addresses: seq<Ga>, commands: seq<Ga>, tag: Tag, entry: Entry,
      before: Bindings) returns (bound: Bindings)
      requires Inv(Now()) && AllTagsFilled(Now(), dialect, before) && TagEntry(dialect, tag) == Some(entry)
      modifies this`dpts, this`blocked, this`issues
      ensures (Now(), bound) ==
        BindClaims(Told(old(Now()), anchors, addresses, tag), anchors,
                   ClaimsFor(old(Now()), anchors, addresses, tag), commands, tag, entry, before)
      ensures Inv(Now()) && AllTagsFilled(Now(), dialect, bound)
    {
      var claims := ClaimsFor(Now(), anchors, addresses, tag);
      ghost var began := Now();
      issues := SetDefaults(issues, Unowned(Now(), anchors, addresses, tag), UnprovenChannel);
      NoteStep(began, issues, notExposed, unresolved);
      AllTagsStay(began, Now(), dialect, before);
      BindClaimsKeep(Now(), dialect, anchors, claims, commands, tag, before);
      bound := BindAllClaims(dialect, anchors, claims, commands, tag, entry, before);
    }

    /** Bind tag after tag. */
    method BindAllTags(
      dialect: Dialect, anchors: map<Ga, string>, commands: seq<Ga>, roles: map<Tag, seq<Ga>>) returns (bound: Bindings)
      requires Inv(Now())
      modifies this`dpts, this`blocked, this`issues
      ensures (Now(), bound) ==
        BindTags(old(Now()), dialect, anchors, roles, commands, TagOrder(dialect), Unbound(anchors))
    {
      var tags := TagOrder(dialect);
      bound := Unbound(anchors);
      UnboundFilled(Now(), dialect, anchors);
      for i := 0 to |tags|
        invariant BindTags(Now(), dialect, anchors, roles, commands, tags[i..], bound) ==
          BindTags(old(Now()), dialect, anchors, roles, commands, tags, Unbound(anchors))
        invariant Inv(Now()) && AllTagsFilled(Now(), dialect, bound)
      {
        assert tags[i..][1..] == tags[i + 1..];
        var addresses, entry := Dialected(roles, tags[i]), TagEntry(dialect, tags[i]);
        if entry.Some? {
          bound := BindTag(dialect, anchors, addresses, commands, tags[i], entry.value, bound);
        }
      }
      assert tags[|tags|..] == [];
    }

    /** Several commands under one name: split the optional addresses by channel. */
    method BindCommands(dialect: Dialect, commands: seq<Ga>, roles: map<Tag, seq<Ga>>) returns (bound: Bindings)
      requires Inv(Now())
      modifies this`dpts, this`blocked, this`issues
      ensures (Now(), bound) == BindMulti(old(Now()), dialect, commands, roles)
      ensures Step(old(Now()), Now(), false)
    {
      BindMultiKeeps(Now(), dialect, commands, roles);
      var anchors := FindAnchors(commands);
      BlockKeeps(Now(), DoubledOf(anchors));
      BlockDoubled(DoubledOf(anchors));
      bound := BindAllTags(dialect, Distinct(anchors), commands, roles);
    }

    /** A light or a switch, once its channel is proven; a bare command stays for the later passes. */
    method FinishOutput(name: string, lightName: bool, bound: Fields)
      requires FieldsTyped(Now(), bound)
      modifies this`candidates, this`used
      ensures Now() == FinishLight(old(Now()), name, lightName, bound)
    {
      var paired := DropOrphans(bound);
      var light := lightName || BrightnessAddress in paired || ColorTemperatureAddress in paired;
      var kept := if light then paired else map f | f in paired && (f.Address? || f.StateAddress?) :: paired[f];
      var fields := kept;
      if ColorTemperatureAddress in kept && ColorTemperatureStateAddress in kept {
        var same := SameColor(kept);
        if !same { fields := kept - {ColorTemperatureStateAddress}; }
      }
      var color := ColorMode(fields);
      if |fields| != 1 {
        AddCandidate(Candidate(if light then Id.Light else Id.Switch, name, Plain(fields).(color := color), ObjectChannel));
      }
    }

    /** A climate entity, when both required temperatures are proven. */
    method FinishUnit(name: string, bound: Fields)
      requires FieldsTyped(Now(), bound)
      modifies this`candidates, this`used
      ensures Now() == FinishClimate(old(Now()), name, bound)
    {
      if TemperatureAddress in bound && TargetTemperatureStateAddress in bound {
        var stages := FanMode(bound);
        var fields := if |stages| > 1 then bound - {FanSpeedAddress, FanSpeedStateAddress} else bound;
        AddCandidate(Candidate(Id.Climate, name, Plain(fields).(fanStep := stages == {true}), ObjectChannel));
      }
    }

    method FinishOne(dialect: Dialect, prefix: Prefix, command: Ga, fields: Fields)
      requires command in dpts && FieldsTyped(Now(), fields)
      modifies this`candidates, this`used
      ensures Now() == Finish(old(Now()), dialect, prefix, command, fields)
    {
      if dialect.LightDialect? {
        FinishOutput(prefix.name, prefix.light, fields[Address := command]);
      } else {
        FinishUnit(prefix.name, fields[OnOffAddress := command]);
      }
    }

    /** One name prefix with its commands and optional addresses. */
    method JoinChannel(dialect: Dialect, prefix: Prefix, commands: seq<Ga>, roles: map<Tag, seq<Ga>>)
      requires Inv(Now())
      modifies this
      ensures Now() == ChannelStep(old(Now()), dialect, prefix, commands, roles)
      ensures Step(old(Now()), Now(), false)
    {
      ChannelStepKeeps(Now(), dialect, prefix, commands, roles);
      ChannelLooksUp(Now(), dialect, prefix, commands, roles);
      if |commands| > 1 {
        var bound := BindCommands(dialect, commands, roles);
        ghost var split := Now();
        for i := 0 to |commands|
          invariant FinishAll(Now(), dialect, prefix, commands[i..], bound) ==
            FinishAll(split, dialect, prefix, commands, bound)
          invariant FinishingLooks(Now(), dialect, prefix, commands[i..], bound)
        {
          assert commands[i..][1..] == commands[i + 1..];
          if commands[i] in bound { FinishOne(dialect, prefix, commands[i], bound[commands[i]]); }
        }
        assert commands[|commands|..] == [];
      } else if commands != [] && Anchors(Now(), commands[0]) {
        var fields := BindOneCommand(dialect, roles, KeysOf(Now(), commands[0], false));
        FinishOne(dialect, prefix, commands[0], fields);
      }
    }

    /** The abbreviated and the climate convention, name by name. */
    method JoinChannels(order: seq<Ga>, dialect: Dialect, prefixes: seq<Prefix>)
      requires Inv(Now()) && TypedOrBlocked(Now())
      modifies this
      ensures Now() == Channels(old(Now()), old(Now()), order, dialect, prefixes)
      ensures Inv(Now()) && TypedOrBlocked(Now())
    {
      var begun := Now();
      for i := 0 to |prefixes|
        invariant Channels(Now(), begun, order, dialect, prefixes[i..]) ==
          Channels(begun, begun, order, dialect, prefixes)
        invariant Inv(Now()) && TypedOrBlocked(Now())
      {
        assert prefixes[i..][1..] == prefixes[i + 1..];
        var p := prefixes[i];
        JoinChannel(dialect, p, TaggedAs(begun, order, dialect, p.key, Sw), RolesAt(begun, order, dialect, p.key));
      }
      assert prefixes[|prefixes|..] == [];
    }

    /** Scenes an archive names through its senders' parameters; may lift a conflict of scene types. */
    method ReadScenes(order: seq<Ga>)
      requires Inv(Now()) && TypedOrTaken(Now())
      modifies this
      ensures Now() == Scenes(old(Now()), order)
      ensures Inv(Now()) && TypedOrTaken(Now())
    {
      for i := 0 to |order|
        invariant Scenes(Now(), order[i..]) == Scenes(old(Now()), order)
        invariant Inv(Now()) && TypedOrTaken(Now())
      {
        assert order[i..][1..] == order[i + 1..];
        var a := order[i];
        SceneStepKeeps(Now(), a);
        ghost var before := Now();
        if Available(Now(), a) && SendsScenes(groups[a]) && Recallable(groups[a])
           && (a !in blocked || (a in issues && issues[a] == ConflictingType))
        {
          if a in blocked {
            blocked := blocked - {a};
            issues := issues - {a};
          }
          ghost var lifted := Now();
          var numbers := groups[a].scene.numbers.value;
          for k := 0 to |numbers|
            invariant groups == before.groups
            invariant AddScenes(Now(), groups[a].name, a, numbers[k..]) ==
              AddScenes(lifted, groups[a].name, a, numbers)
          {
            assert numbers[k..][1..] == numbers[k + 1..];
            AddCandidate(SceneFor(groups[a].name, a, numbers[k]));
          }
          assert numbers[|numbers|..] == [];
        }
        assert Now() == SceneStep(before, a);
      }
      assert order[|order|..] == [];
    }

    /** Addresses whose whole names say what they are. */
    method JoinNames(order: seq<Ga>, prefixes: seq<Prefix>)
      requires Inv(Now()) && TypedOrTaken(Now())
      modifies this
      ensures Now() == NamedGroups(old(Now()), old(Now()), order, prefixes)
      ensures Inv(Now()) && TypedOrTaken(Now())
    {
      var begun := Now();
      for i := 0 to |prefixes|
        invariant NamedGroups(Now(), begun, order, prefixes[i..]) == NamedGroups(begun, begun, order, prefixes)
        invariant Step(begun, Now(), false)
      {
        assert prefixes[i..][1..] == prefixes[i + 1..];
        var p := prefixes[i];
        var refs := NamedAs(begun, order, p.key);
        NamedRefsTyped(begun, Now(), order, p.key);
        ghost var before := Now();
        Join(p.name, if p.light then LightKind else OtherKind, refs, None, NameRole);
        StepTrans(begun, before, Now(), false);
      }
      assert prefixes[|prefixes|..] == [];
    }

    /** What an address proves on its own. */
    method FallBack(order: seq<Ga>)
      requires Inv(Now()) && TypedOrTaken(Now())
      modifies this
      ensures Now() == Fallback(old(Now()), order)
      ensures Inv(Now()) && TypedOrTaken(Now())
    {
      for i := 0 to |order|
        invariant Fallback(Now(), order[i..]) == Fallback(old(Now()), order)
        invariant Inv(Now()) && TypedOrTaken(Now())
      {
        assert order[i..][1..] == order[i + 1..];
        var a := order[i];
        FallbackStepKeeps(Now(), a);
        ghost var before := Now();
        if Available(Now(), a) && a !in blocked {
          var g, t := groups[a], dpts[a];
          match Read(g, t)
          case Unsure(issue) => issues := issues[a := issue];
          case Status =>
            AddCandidate(Candidate(Id.BinarySensor, g.name,
                                   Plain(map[StateAddress := a]).(unread := !HasRead(g)), Telemetry));
          case Command => AddCandidate(Candidate(Id.Switch, g.name, Plain(map[Address := a]), ObjectFlags));
          case Measure =>
            AddCandidate(Candidate(Id.Sensor, g.name,
                                   Plain(map[StateAddress := a]).(reading := Some(t),
                                                                  unread := g.objects != [] && !HasRead(g)),
                                   Telemetry));
        }
        assert Now() == FallbackStep(before, a);
      }
      assert order[|order|..] == [];
    }

    method ExplainMembers(members: set<Ga>, issue: Issue)
      modifies this`issues
      ensures Now() == Explain(old(Now()), members, issue)
    {
      issues := SetAll(issues, (set a | a in members && IsGeneric(Now(), a)), issue);
    }

    /** All passes in their order. */
    method Run(script: Script)
      requires Inv(Now()) && TypedOrBlocked(Now())
      modifies this
      ensures forall records :: old(Now()) == Load(records) ==> Now() == PlanProject(records, script)
      ensures Inv(Now())
    {
      JoinFunctions(script.functions);
      JoinChannels(script.order, ClimateDialect, script.climates);
      JoinChannels(script.order, LightDialect, script.lights);
      ReadScenes(script.order);
      JoinNames(script.order, script.names);
      FallBack(script.order);
      AnnotateKeeps(Now());
      ExplainMembers(notExposed, NotExposedRole);
      ExplainMembers(unresolved, UnresolvedRole);
    }

    /** Keep every claim nobody contests. */
    method Accept() returns (entities: seq<Candidate>)
      ensures entities == Accepted(Now(), candidates, {})
    {
      entities := [];
      var claimed: set<Claim> := {};
      for i := 0 to |candidates|
        invariant entities + Accepted(Now(), candidates[i..], claimed) == Accepted(Now(), candidates, {})
      {
        assert candidates[i..][1..] == candidates[i + 1..];
        var c := candidates[i];
        if Live(Now(), c) && !Contested(Now(), c) && ClaimOf(c) !in claimed {
          AcceptedNext(Now(), candidates[i..], claimed, entities);
          entities := entities + [c];
          claimed := claimed + {ClaimOf(c)};
        }
      }
      assert candidates[|candidates|..] == [];
    }
  }

  lemma {:induction false} AcceptedNext(s: State, rest: seq<Candidate>, claimed: set<Claim>, before: seq<Candidate>)
    requires rest != [] && Live(s, rest[0]) && !Contested(s, rest[0]) && ClaimOf(rest[0]) !in claimed
    ensures before + Accepted(s, rest, claimed) ==
      before + [rest[0]] + Accepted(s, rest[1..], claimed + {ClaimOf(rest[0])})
  {
  }
}
