/** What impulse addresses, proven channels and single addresses become, told from what they are. */
module KnxEntityLaws {
  import opened Common
  import Id = KnxIdentity
  import opened KnxPlannerModel
  import opened KnxPlannerPasses
  import opened KnxGroupVerdicts

  // ------------------------------------------------------------------------ impulses

  predicate HasImpulses(fields: Fields) {
    OpenImpulseAddress in fields && CloseImpulseAddress in fields && StopImpulseAddress in fields
  }

  /** Beside the impulses there are at most the wall buttons' two addresses. */
  predicate OnlyWall(fields: Fields) {
    fields.Keys <= {OpenImpulseAddress, CloseImpulseAddress, StopImpulseAddress, MoveLongAddress, MoveShortAddress}
  }

  predicate HasWall(fields: Fields) { MoveLongAddress in fields && MoveShortAddress in fields }

  function Button(name: string, text: string, a: Ga, source: Source): Candidate {
    Candidate(Id.Button, name + text, Settings(map[Address := a], None, false, None, None, false, None, false), source)
  }

  /** The wall buttons' addresses are not to become anything on their own. */
  function Aside(s: State, fields: Fields): State {
    var wall := set f | f in fields && (f.MoveLongAddress? || f.MoveShortAddress?) :: fields[f];
    s.(notExposed := s.notExposed + wall, reserved := s.reserved + wall)
  }

  /**
    A dry-contact curtain. All three impulses with both wall addresses are one cover on the wall addresses, and the
    impulses are set aside; with one of them or none they are three buttons, open, close, stop; anything else is refused.
   */
  ghost predicate ImpulsesBecome(s: State, t: State, name: string, fields: Fields, mentioned: set<Ga>, source: Source) {
    if HasImpulses(fields) && OnlyWall(fields) && HasWall(fields) then
      var hidden := {fields[OpenImpulseAddress], fields[CloseImpulseAddress], fields[StopImpulseAddress]};
      Planned(s.(notExposed := s.notExposed + hidden, reserved := s.reserved + hidden), t, Id.Cover, name,
              Settings(map[MoveLongAddress := fields[MoveLongAddress], StopAddress := fields[MoveShortAddress]], None,
                       false, None,
                       if fields[MoveLongAddress] in s.groups then s.groups[fields[MoveLongAddress]].travel else None,
                       true, None, false), source)
    else if HasImpulses(fields) && OnlyWall(fields) then
      t == Aside(s, fields).(
        candidates := s.candidates + [Button(name, " 開", fields[OpenImpulseAddress], source),
                                      Button(name, " 關", fields[CloseImpulseAddress], source),
                                      Button(name, " 停", fields[StopImpulseAddress], source)],
        used := s.used + {fields[OpenImpulseAddress], fields[CloseImpulseAddress], fields[StopImpulseAddress]})
    else Barred(Aside(s, fields), t, mentioned, IncompatibleRoles)
  }

  lemma ImpulsesBecomeExactly(s: State, name: string, fields: Fields, mentioned: set<Ga>, source: Source)
    requires MoveLongAddress in fields ==> fields[MoveLongAddress] in s.groups
    ensures ImpulsesBecome(s, Impulses(s, name, fields, mentioned, source), name, fields, mentioned, source)
  {
    var wall, rest := fields.Keys * WALL, fields - WALL;
    ImpulseShape(fields);
    var settled := set f | f in wall :: fields[f];
    assert settled == set f | f in fields && (f.MoveLongAddress? || f.MoveShortAddress?) :: fields[f];
    if HasImpulses(fields) && OnlyWall(fields) && HasWall(fields) {
      assert rest.Values == {fields[OpenImpulseAddress], fields[CloseImpulseAddress], fields[StopImpulseAddress]};
    } else if HasImpulses(fields) && OnlyWall(fields) {
      ButtonsAre(Aside(s, fields), name, fields, source);
    } else {
      RefuseBars(Aside(s, fields), mentioned, IncompatibleRoles);
    }
  }

  /** Good members with an impulse among them become that, or the whole group is refused. */
  lemma ImpulseGroupBecomesExactly(
    s: State, name: string, kind: Kind, refs: seq<Ref>, scene: Option<int>, source: Source, fields: Fields)
    requires Good(s, refs) && Fills(refs, fields) && fields.Keys * IMPULSES != {}
    ensures ImpulsesBecome(s, JoinGroup(s, name, kind, refs, scene, source), name, fields,
                           set r | r in refs && r.address in s.groups :: r.address, source)
  {
    CollectExactly(s, refs);
    var found := Collect(s, refs, map[]).value;
    FilledOnce(refs, fields, found);
    FilledKnown(s, refs, fields);
    ImpulsesBecomeExactly(s, name, fields, Mentioned(s, refs), source);
    hide Good;
    hide Fills;
    hide Impulses;
    hide ImpulsesBecome;
  }

  lemma FilledKnown(s: State, refs: seq<Ref>, fields: Fields)
    requires Good(s, refs) && Fills(refs, fields)
    ensures forall f :: f in fields ==> fields[f] in s.groups
  {
    hide RoleEntry;
    forall f | f in fields ensures fields[f] in s.groups {
      var r :| r in refs && IsMember(r) && FieldOf(r) == f;
      assert Fits(s, r);
    }
  }

  lemma ImpulseShape(fields: Fields)
    ensures (fields - WALL).Keys == IMPULSES <==> HasImpulses(fields) && OnlyWall(fields)
    ensures fields.Keys * WALL == WALL <==> HasWall(fields)
  {
    var rest := fields - WALL;
    if HasImpulses(fields) && OnlyWall(fields) {
      forall f ensures f in rest <==> f in IMPULSES { }
    }
    if rest.Keys == IMPULSES {
      assert OpenImpulseAddress in rest.Keys && CloseImpulseAddress in rest.Keys && StopImpulseAddress in rest.Keys;
      forall f | f in fields ensures f in rest.Keys || f in WALL { }
    }
    if HasWall(fields) { assert fields.Keys * WALL == WALL; }
    if fields.Keys * WALL == WALL { assert MoveLongAddress in fields.Keys * WALL && MoveShortAddress in fields.Keys * WALL; }
  }

  lemma OneValue(a: Ga)
    ensures map[Address := a].Values == {a}
  {
    assert map[Address := a][Address] == a;
  }

  lemma ButtonsAre(s: State, name: string, fields: Fields, source: Source)
    requires HasImpulses(fields)
    ensures Add(Add(Add(s, ButtonFor(name, fields, OpenImpulseAddress, source)),
                    ButtonFor(name, fields, CloseImpulseAddress, source)), ButtonFor(name, fields, StopImpulseAddress, source))
      == s.(candidates := s.candidates + [Button(name, " 開", fields[OpenImpulseAddress], source),
                                          Button(name, " 關", fields[CloseImpulseAddress], source),
                                          Button(name, " 停", fields[StopImpulseAddress], source)],
            used := s.used + {fields[OpenImpulseAddress], fields[CloseImpulseAddress], fields[StopImpulseAddress]})
  {
    var a := Button(name, " 開", fields[OpenImpulseAddress], source);
    var b := Button(name, " 關", fields[CloseImpulseAddress], source);
    var c := Button(name, " 停", fields[StopImpulseAddress], source);
    assert ButtonFor(name, fields, OpenImpulseAddress, source) == a;
    assert ButtonFor(name, fields, CloseImpulseAddress, source) == b;
    assert ButtonFor(name, fields, StopImpulseAddress, source) == c;
    OneValue(fields[OpenImpulseAddress]);
    OneValue(fields[CloseImpulseAddress]);
    OneValue(fields[StopImpulseAddress]);
    assert s.candidates + [a] + [b] + [c] == s.candidates + [a, b, c];
  }

  // ------------------------------------------------------------------ proven channels

  /** What a light keeps of its channel: a feedback only with its command, a colour's only in the command's type. */
  ghost predicate LightKeeps(s: State, bound: Fields, f: Field) {
    && f in bound
    && (f.BrightnessStateAddress? ==> BrightnessAddress in bound)
    && (f.ColorTemperatureStateAddress? ==> ColorAlike(s, bound))
  }

  predicate DimsOrColors(bound: Fields) { BrightnessAddress in bound || ColorTemperatureAddress in bound }

  /** What an output keeps: a light as above, a switch its command and state. */
  ghost predicate OutputKeeps(s: State, lightName: bool, bound: Fields, f: Field) {
    LightKeeps(s, bound, f) && (lightName || DimsOrColors(bound) || f.Address? || f.StateAddress?)
  }

  function Restricted(bound: Fields, keys: set<Field>): Fields { map f | f in bound && f in keys :: bound[f] }

  /**
    A proven command becomes a light when its name or a dimming or colour address says so, and a switch otherwise, of
    exactly the addresses that go together; with no other address than its command it is left to the later passes.
   */
  ghost predicate OutputBecomes(s: State, t: State, name: string, lightName: bool, bound: Fields) {
    var kept := Restricted(bound, set f | f in bound && OutputKeeps(s, lightName, bound, f));
    var platform := if lightName || DimsOrColors(bound) then Id.Light else Id.Switch;
    if |kept| == 1 then t == s
    else
      Planned(s, t, platform, name,
              Settings(kept,
                       if ColorTemperatureAddress in bound then
                         Some(if bound[ColorTemperatureAddress] in s.dpts
                                 && s.dpts[bound[ColorTemperatureAddress]] == Type(5, 1)
                              then Relative else Absolute)
                       else None,
                       false, None, None, false, None, false),
              ObjectChannel)
  }

  lemma OutputBecomesExactly(s: State, name: string, lightName: bool, bound: Fields)
    ensures OutputBecomes(s, FinishLight(s, name, lightName, bound), name, lightName, bound)
  {
    var kept := Restricted(bound, set f | f in bound && OutputKeeps(s, lightName, bound, f));
    FinishedFields(s, lightName, bound);
    ColorsAre(s, bound);
    assert !DimsOrColors(bound) && !lightName ==> ColorTemperatureAddress !in bound;
    hide SameEncoding;
    hide DropOrphans;
  }

  function FinishedOf(s: State, lightName: bool, bound: Fields): Fields {
    var paired := DropOrphans(bound);
    SameEncoding(s, if lightName || BrightnessAddress in paired || ColorTemperatureAddress in paired then paired
                    else map f | f in paired && (f.Address? || f.StateAddress?) :: paired[f])
  }

  lemma FinishedFields(s: State, lightName: bool, bound: Fields)
    ensures var paired := DropOrphans(bound);
      && (BrightnessAddress in paired <==> BrightnessAddress in bound)
      && (ColorTemperatureAddress in paired <==> ColorTemperatureAddress in bound)
      && FinishedOf(s, lightName, bound) == Restricted(bound, set f | f in bound && OutputKeeps(s, lightName, bound, f))
      && (ColorTemperatureAddress in FinishedOf(s, lightName, bound) <==> ColorTemperatureAddress in bound)
      && (ColorTemperatureAddress in bound ==>
            FinishedOf(s, lightName, bound)[ColorTemperatureAddress] == bound[ColorTemperatureAddress])
  {
    var kept := Restricted(bound, set f | f in bound && OutputKeeps(s, lightName, bound, f));
    var finished := FinishedOf(s, lightName, bound);
    forall f ensures (f in finished <==> f in kept) && (f in finished ==> finished[f] == kept[f]) {
      PairedIs(bound, f);
    }
    PairedIs(bound, BrightnessAddress);
    PairedIs(bound, ColorTemperatureAddress);
  }

  lemma PairedIs(bound: Fields, f: Field)
    ensures var paired := DropOrphans(bound);
      && (f in paired <==> f in bound && (f.BrightnessStateAddress? ==> BrightnessAddress in bound)
                           && (f.ColorTemperatureStateAddress? ==> ColorTemperatureAddress in bound))
      && (f in paired ==> paired[f] == bound[f])
  {
  }

  /**
    A proven command becomes a climate exactly with room temperature and target feedback; a fan whose command and state
    disagree is left out of it.
   */
  ghost predicate UnitBecomes(s: State, t: State, name: string, bound: Fields) {
    var fan := {FanSpeedAddress, FanSpeedStateAddress};
    if TemperatureAddress in bound && TargetTemperatureStateAddress in bound then
      Planned(s, t, Id.Climate, name,
              Settings(if FanAlike(s, bound) then bound else bound - fan, None,
                       FanAlike(s, bound) && (IsStage(s, bound, FanSpeedAddress) || IsStage(s, bound, FanSpeedStateAddress)),
                       None, None, false, None, false),
              ObjectChannel)
    else t == s
  }

  lemma UnitBecomesExactly(s: State, name: string, bound: Fields)
    ensures UnitBecomes(s, FinishClimate(s, name, bound), name, bound)
  {
    var stages := FanStages(s, bound);
    TwoAtMost(stages);
    if FanAlike(s, bound) {
      assert !(true in stages && false in stages);
    } else {
      assert true in stages && false in stages;
      assert |{true}| == 1;
      assert stages != {true};
    }
    hide FanStages;
  }

  // ----------------------------------------------------------------- single addresses

  predicate Writes(g: Group) { exists o :: o in g.objects && o.flags.communication.Yes? && o.flags.write.Yes? }

  predicate Reads(g: Group) { exists o :: o in g.objects && o.flags.communication.Yes? && o.flags.read.Yes? }

  predicate Sends(g: Group) { exists o :: o in g.objects && o.flags.communication.Yes? && o.flags.transmit.Yes? }

  /** It reports: something sends it, and nothing takes it as a command or its name says feedback. */
  predicate Reports(g: Group) { Sends(g) && (!Writes(g) || g.feedbackName) }

  predicate IsSceneType(t: Type) { t == Type(17, 1) || t == Type(18, 1) }

  /** A state: by its type, by a name that says feedback with no object, or a bit that reports. */
  predicate IsState(g: Group, t: Type) {
    || t == Type(1, 11)
    || (t == Type(1, 1) && g.feedbackName && g.objects == [])
    || (t.main == 1 && t.sub in [1, 2, 5, 9, 18, 19, 22] && Reports(g))
  }

  predicate IsCommand(g: Group, t: Type) { t == Type(1, 1) && Writes(g) && !g.feedbackName && !IsState(g, t) }

  /** Measured values need no proof; others that something reports. */
  predicate IsValue(g: Group, t: Type) {
    || (t.main == 9 && t.sub in [1, 2, 3, 4, 5, 6, 7, 8, 10, 11, 20, 21, 22, 23, 24, 25, 26, 27, 28, 29, 30])
    || (Reports(g)
        && ((t.main == 5 && t.sub in [1, 3, 4, 5, 6, 10])
            || (t.main == 7 && t.sub in [1, 2, 3, 4, 5, 6, 600])
            || (t.main == 12 && t.sub == 1)
            || (t.main == 13 && t.sub in [1, 10, 13])
            || (t.main == 14 && t.sub in [56, 76])))
  }

  predicate Free(s: State, a: Ga) {
    a in s.groups && a !in s.used && a !in s.reserved && a !in s.blocked && a in s.dpts
  }

  lemma FlagsAre(g: Group)
    ensures HasWrite(g) == Writes(g) && HasRead(g) == Reads(g) && HasTransmit(g) == Sends(g)
  {
    if Writes(g) { var o :| o in g.objects && o.flags.communication.Yes? && o.flags.write.Yes?; assert Sets(o, o.flags.write); }
    if Reads(g) { var o :| o in g.objects && o.flags.communication.Yes? && o.flags.read.Yes?; assert Sets(o, o.flags.read); }
    if Sends(g) {
      var o :| o in g.objects && o.flags.communication.Yes? && o.flags.transmit.Yes?;
      assert Sets(o, o.flags.transmit);
    }
  }

  lemma ReadsAs(g: Group, t: Type)
    ensures IsSceneType(t) ==> Read(g, t) == Unsure(MissingSceneNumber)
    ensures IsState(g, t) ==> Read(g, t) == Status
    ensures IsCommand(g, t) ==> Read(g, t) == Command
    ensures IsValue(g, t) ==> Read(g, t) == Measure
    ensures !IsSceneType(t) && !IsState(g, t) && !IsCommand(g, t) && !IsValue(g, t) ==>
      Read(g, t) == Unsure(InsufficientMetadata)
  {
    FlagsAre(g);
    hide HasWrite;
    hide HasTransmit;
    hide Writes;
    hide Sends;
  }

  /** A single address becomes a state, a switch, a value or nothing, each exactly when its condition holds. */
  lemma AddressBecomesExactly(s: State, a: Ga)
    ensures var t := FallbackStep(s, a);
      if !Free(s, a) then t == s
      else
        var g, d := s.groups[a], s.dpts[a];
        && (IsSceneType(d) ==> t == s.(issues := s.issues[a := MissingSceneNumber]))
        && (IsState(g, d) ==>
              Planned(s, t, Id.BinarySensor, g.name,
                      Settings(map[StateAddress := a], None, false, None, None, false, None, !Reads(g)), Telemetry))
        && (IsCommand(g, d) ==>
              Planned(s, t, Id.Switch, g.name, Settings(map[Address := a], None, false, None, None, false, None, false),
                      ObjectFlags))
        && (IsValue(g, d) ==>
              Planned(s, t, Id.Sensor, g.name,
                      Settings(map[StateAddress := a], None, false, None, None, false, Some(d),
                               g.objects != [] && !Reads(g)), Telemetry))
        && (!IsSceneType(d) && !IsState(g, d) && !IsCommand(g, d) && !IsValue(g, d) ==>
              t == s.(issues := s.issues[a := InsufficientMetadata]))
  {
    if Free(s, a) {
      var g, d := s.groups[a], s.dpts[a];
      ReadsAs(g, d);
      FlagsAre(g);
      hide Read;
      hide HasRead;
      hide Reads;
      hide IsState;
      hide IsCommand;
      hide IsValue;
    }
  }

  // ----------------------------------------------------------------- the role tables

  /** The tables once more, by field: which roles fill it, and from which types. */
  function RolesFor(f: Field): seq<Role> {
    match f
    case Address => [SwitchOnOff, RecallScene]
    case StateAddress => [InfoOnOff, StatusOnOff]
    case BrightnessAddress => [AbsoluteSetvalueControl, DimmingValue, BrightnessValue]
    case BrightnessStateAddress => [ActualDimmingValue, InfoDimmingValue]
    case MoveLongAddress => [MoveUpDown]
    case MoveShortAddress => [StopStepUpDown]
    case StopAddress => [Stop]
    case PositionAddress => [Position, PositionValue]
    case PositionStateAddress => [CurrentAbsolutePositionBlindsPercentage, PositionState]
    case AngleAddress => [Angle]
    case AngleStateAddress => [CurrentAbsolutePositionSlatPercentage]
    case ColorTemperatureAddress => [ColorTemperature]
    case ColorTemperatureStateAddress => [ColorTemperatureState]
    case TemperatureAddress => [TempRoom, Temperature]
    case TargetTemperatureAddress => [TargetTemperature]
    case TargetTemperatureStateAddress => [TargetTemperatureState]
    case ControllerModeAddress => [ControllerMode]
    case ControllerModeStateAddress => [ControllerModeState]
    case OperationModeAddress => [OperationMode, HvacMode]
    case OperationModeStateAddress => [OperationModeState]
    case FanSpeedAddress => [FanSpeed]
    case FanSpeedStateAddress => [FanSpeedState]
    case FanStepAddress => [FanStep]
    case FanStepStateAddress => [FanStepState]
    case OpenImpulseAddress => [ImpulseOpen]
    case CloseImpulseAddress => [ImpulseClose]
    case StopImpulseAddress => [ImpulseStop]
    case _ => []
  }

  function TypesFor(role: Role): seq<(int, int)> {
    match role
    case RecallScene => [(17, 1), (18, 1)]
    case SwitchOnOff | ImpulseOpen | ImpulseStop => [(1, 1)]
    case InfoOnOff | StatusOnOff => [(1, 1), (1, 11)]
    case ImpulseClose => [(1, 1), (1, 8)]
    case MoveUpDown => [(1, 8)]
    case StopStepUpDown => [(1, 7)]
    case Stop => [(1, 10)]
    case ColorTemperature | ColorTemperatureState => [(7, 600), (5, 1)]
    case TempRoom | Temperature | TargetTemperature | TargetTemperatureState => [(9, 1)]
    case ControllerMode | ControllerModeState => [(20, 105)]
    case OperationMode | HvacMode | OperationModeState => [(20, 102)]
    case FanSpeed | FanSpeedState => [(5, 1), (5, 100)]
    case FanStep | FanStepState => [(5, 10)]
    case _ => [(5, 1)]
  }

  lemma RoleHasField(role: Role)
    ensures RoleEntry(role).Some? ==> role in RolesFor(RoleEntry(role).value.field)
  {
    match role
    case _ =>
  }

  predicate IsPlain(f: Field) {
    f.Address? || f.StateAddress? || f.BrightnessAddress? || f.BrightnessStateAddress? || f.MoveLongAddress?
    || f.MoveShortAddress? || f.StopAddress? || f.PositionAddress? || f.PositionStateAddress? || f.AngleAddress?
    || f.AngleStateAddress? || f.ColorTemperatureAddress? || f.ColorTemperatureStateAddress?
  }

  lemma PlainHasRoles(f: Field, role: Role)
    requires role in RolesFor(f) && IsPlain(f)
    ensures RoleEntry(role).Some? && RoleEntry(role).value.field == f
  {
    match f
    case _ =>
  }

  lemma OtherHasRoles(f: Field, role: Role)
    requires role in RolesFor(f) && !IsPlain(f)
    ensures RoleEntry(role).Some? && RoleEntry(role).value.field == f
  {
    match f
    case _ =>
  }

  /** A role fills a field exactly when the table by field says so. */
  lemma RoleTableExactly(role: Role, f: Field)
    ensures (RoleEntry(role).Some? && RoleEntry(role).value.field == f) <==> role in RolesFor(f)
  {
    hide RoleEntry;
    hide RolesFor;
    RoleHasField(role);
    if role in RolesFor(f) {
      if IsPlain(f) { PlainHasRoles(f, role); } else { OtherHasRoles(f, role); }
    }
  }

  lemma RoleTypesExactly(role: Role, t: Type)
    ensures RoleEntry(role).Some? ==> (t in RoleEntry(role).value.types <==> (t.main, t.sub) in TypesFor(role))
  {
    match role
    case _ =>
  }
}
