/**
  The ETS planner's data: group addresses with their parsed names, the role tables, and the state its
  passes share.
 */
module KnxPlannerModel {
  import opened Common
  import Id = KnxIdentity

  type Ga = string

  type Platform = Id.Platform

  /** A declared datapoint type; only one with a sub-number is exact. */
  datatype Dpt = Dpt(main: int, sub: Option<int>)

  /** An exact datapoint type. */
  datatype Type = Type(main: int, sub: int)

  /** A flag is explicitly set, explicitly clear, or missing. */
  datatype Flag = Yes | No | Unset

  datatype Flags = Flags(communication: Flag, read: Flag, write: Flag, transmit: Flag)

  /** A communication object; `channel` identifies its actuator channel when that is known. */
  datatype Object = Object(id: string, flags: Flags, channel: Option<string>, dpts: seq<Option<Dpt>>)

  datatype Role =
    | SwitchOnOff | InfoOnOff | StatusOnOff
    | AbsoluteSetvalueControl | DimmingValue | BrightnessValue | ActualDimmingValue | InfoDimmingValue
    | MoveUpDown | StopStepUpDown | Stop | Position | PositionValue
    | CurrentAbsolutePositionBlindsPercentage | PositionState
    | Angle | CurrentAbsolutePositionSlatPercentage | ColorTemperature | ColorTemperatureState
    | TempRoom | Temperature | TargetTemperature | TargetTemperatureState
    | ControllerMode | ControllerModeState | OperationMode | OperationModeState | HvacMode
    | FanSpeed | FanSpeedState | FanStep | FanStepState
    | RecallScene | ImpulseOpen | ImpulseClose | ImpulseStop
    | TempRoomSetpoint | NotExposed | Unknown

  datatype Field =
    | Address | StateAddress | BrightnessAddress | BrightnessStateAddress
    | MoveLongAddress | MoveShortAddress | StopAddress | PositionAddress | PositionStateAddress
    | AngleAddress | AngleStateAddress | ColorTemperatureAddress | ColorTemperatureStateAddress
    | TemperatureAddress | TargetTemperatureAddress | TargetTemperatureStateAddress
    | ControllerModeAddress | ControllerModeStateAddress | OperationModeAddress | OperationModeStateAddress
    | FanSpeedAddress | FanSpeedStateAddress | FanStepAddress | FanStepStateAddress
    | OpenImpulseAddress | CloseImpulseAddress | StopImpulseAddress
    | OnOffAddress | OnOffStateAddress | SwitchAddress | SwitchStateAddress

  type Fields = map<Field, Ga>

  /** A table entry: the field a role fills and the exact types it accepts. */
  datatype Entry = Entry(field: Field, types: set<Type>)

  const BIT := Type(1, 1)
  const STATE_BIT := Type(1, 11)
  const SCALING := Type(5, 1)
  const FAN_STAGE := Type(5, 100)
  const FAN_STEP := Type(5, 10)
  const CELSIUS := Type(9, 1)
  const KELVIN := Type(7, 600)
  const RELATIVE_KELVIN := Type(3, 7)
  const SCENE_TYPES := {Type(17, 1), Type(18, 1)}

  function RoleEntry(role: Role): Option<Entry> {
    match role
    case SwitchOnOff => Some(Entry(Address, {BIT}))
    case InfoOnOff | StatusOnOff => Some(Entry(StateAddress, {BIT, STATE_BIT}))
    case AbsoluteSetvalueControl | DimmingValue | BrightnessValue => Some(Entry(BrightnessAddress, {SCALING}))
    case ActualDimmingValue | InfoDimmingValue => Some(Entry(BrightnessStateAddress, {SCALING}))
    case MoveUpDown => Some(Entry(MoveLongAddress, {Type(1, 8)}))
    case StopStepUpDown => Some(Entry(MoveShortAddress, {Type(1, 7)}))
    case Stop => Some(Entry(StopAddress, {Type(1, 10)}))
    case Position | PositionValue => Some(Entry(PositionAddress, {SCALING}))
    case CurrentAbsolutePositionBlindsPercentage | PositionState => Some(Entry(PositionStateAddress, {SCALING}))
    case Angle => Some(Entry(AngleAddress, {SCALING}))
    case CurrentAbsolutePositionSlatPercentage => Some(Entry(AngleStateAddress, {SCALING}))
    case ColorTemperature => Some(Entry(ColorTemperatureAddress, {KELVIN, SCALING}))
    case ColorTemperatureState => Some(Entry(ColorTemperatureStateAddress, {KELVIN, SCALING}))
    case TempRoom | Temperature => Some(Entry(TemperatureAddress, {CELSIUS}))
    case TargetTemperature => Some(Entry(TargetTemperatureAddress, {CELSIUS}))
    case TargetTemperatureState => Some(Entry(TargetTemperatureStateAddress, {CELSIUS}))
    case ControllerMode => Some(Entry(ControllerModeAddress, {Type(20, 105)}))
    case ControllerModeState => Some(Entry(ControllerModeStateAddress, {Type(20, 105)}))
    case OperationMode | HvacMode => Some(Entry(OperationModeAddress, {Type(20, 102)}))
    case OperationModeState => Some(Entry(OperationModeStateAddress, {Type(20, 102)}))
    case FanSpeed => Some(Entry(FanSpeedAddress, {SCALING, FAN_STAGE}))
    case FanSpeedState => Some(Entry(FanSpeedStateAddress, {SCALING, FAN_STAGE}))
    case FanStep => Some(Entry(FanStepAddress, {FAN_STEP}))
    case FanStepState => Some(Entry(FanStepStateAddress, {FAN_STEP}))
    case RecallScene => Some(Entry(Address, SCENE_TYPES))
    case ImpulseOpen => Some(Entry(OpenImpulseAddress, {BIT}))
    case ImpulseClose => Some(Entry(CloseImpulseAddress, {BIT, Type(1, 8)}))
    case ImpulseStop => Some(Entry(StopImpulseAddress, {BIT}))
    case TempRoomSetpoint | NotExposed | Unknown => None
  }

  /** Installer abbreviations, which need evidence of a common actuator channel. */
  datatype Tag = Sw | SwFb | Val | ValFb | Ct | CtFb | Mode | ModeFb | FanTag | FanFb | RealFb

  datatype Dialect = LightDialect | ClimateDialect

  function TagEntry(dialect: Dialect, tag: Tag): Option<Entry> {
    match (dialect, tag)
    case (LightDialect, Sw) => Some(Entry(Address, {BIT}))
    case (LightDialect, SwFb) => Some(Entry(StateAddress, {BIT, STATE_BIT}))
    case (LightDialect, Val) => Some(Entry(BrightnessAddress, {SCALING}))
    case (LightDialect, ValFb) => Some(Entry(BrightnessStateAddress, {SCALING}))
    case (LightDialect, Ct) => Some(Entry(ColorTemperatureAddress, {KELVIN, SCALING}))
    case (LightDialect, CtFb) => Some(Entry(ColorTemperatureStateAddress, {KELVIN, SCALING}))
    case (ClimateDialect, SwFb) => Some(Entry(OnOffStateAddress, {BIT, STATE_BIT}))
    case (ClimateDialect, Mode) => Some(Entry(ControllerModeAddress, {Type(20, 105)}))
    case (ClimateDialect, ModeFb) => Some(Entry(ControllerModeStateAddress, {Type(20, 105)}))
    case (ClimateDialect, FanTag) => Some(Entry(FanSpeedAddress, {SCALING, FAN_STAGE}))
    case (ClimateDialect, FanFb) => Some(Entry(FanSpeedStateAddress, {SCALING, FAN_STAGE}))
    case (ClimateDialect, Val) => Some(Entry(TargetTemperatureAddress, {CELSIUS}))
    case (ClimateDialect, ValFb) => Some(Entry(TargetTemperatureStateAddress, {CELSIUS}))
    case (ClimateDialect, RealFb) => Some(Entry(TemperatureAddress, {CELSIUS}))
    case (_, _) => None
  }

  predicate IsFeedback(tag: Tag) { tag in {SwFb, ValFb, CtFb, ModeFb, FanFb, RealFb} }

  /** The tags in the order the planner takes them. */
  function TagOrder(dialect: Dialect): seq<Tag> {
    match dialect
    case LightDialect => [Ct, CtFb, SwFb, Val, ValFb]
    case ClimateDialect => [FanTag, FanFb, Mode, ModeFb, SwFb, Val, ValFb, RealFb]
  }

  /** A name read as a prefix (`key` ignores case) and a role. */
  datatype Named = Named(key: string, name: string, role: Role)

  datatype Tagged = Tagged(key: string, name: string, tag: Tag)

  /** A scene's sender parameters; None where the metadata is not a list of the right kind. */
  datatype SceneData = SceneData(fromSender: bool, numbers: Option<seq<int>>, senders: Option<seq<string>>, wallKey: bool)

  /** What one group address declares; `declared` is None when absent and Some(None) when malformed. */
  datatype Group = Group(
    declared: Option<Option<Dpt>>, objects: seq<Object>, name: string, named: Option<Named>,
    lightTag: Option<Tagged>, climateTag: Option<Tagged>, wallPrefix: Option<string>, feedbackName: bool,
    scene: SceneData, travel: Option<(int, int)>, metadata: string)

  function TagOf(group: Group, dialect: Dialect): Option<Tagged> {
    if dialect.LightDialect? then group.lightTag else group.climateTag
  }

  datatype Issue =
    | InvalidGroupAddress | DuplicateMetadata | ConflictingType | MissingExactType | UnprovenChannel
    | TypeMismatch | AmbiguousRole | InvalidFunctionAddress | NotWritable | IncompatibleRoles
    | IncompleteClimate | MissingSceneNumber | MissingFunctionAddress | InsufficientMetadata
    | NotExposedRole | UnresolvedRole | ConflictingClaim

  datatype ColorMode = Relative | Absolute

  /**
    An entity's settings: its address fields and what follows from types and flags. `impulse` marks a
    dry-contact curtain, `reading` a sensor's value type, `unread` an address that cannot be read back.
   */
  datatype Settings = Settings(
    fields: Fields, color: Option<ColorMode>, fanStep: bool, scene: Option<int>, travel: Option<(int, int)>,
    impulse: bool, reading: Option<Type>, unread: bool)

  function Plain(fields: Fields): Settings { Settings(fields, None, false, None, None, false, None, false) }

  datatype Source = FunctionRole | NameRole | ObjectChannel | SceneSender | Telemetry | ObjectFlags

  datatype Candidate = Candidate(platform: Platform, name: string, settings: Settings, source: Source)

  function Uses(c: Candidate): set<Ga> { c.settings.fields.Values }

  /** What the passes share. */
  datatype State = State(
    groups: map<Ga, Group>, dpts: map<Ga, Type>, issues: map<Ga, Issue>, blocked: set<Ga>, used: set<Ga>,
    reserved: set<Ga>, candidates: seq<Candidate>, notExposed: set<Ga>, unresolved: set<Ga>)

  // ------------------------------------------------------------------ evidence

  predicate Sets(o: Object, flag: Flag) { o.flags.communication.Yes? && flag.Yes? }

  predicate HasRead(g: Group) { exists o :: o in g.objects && Sets(o, o.flags.read) }

  predicate HasWrite(g: Group) { exists o :: o in g.objects && Sets(o, o.flags.write) }

  predicate HasTransmit(g: Group) { exists o :: o in g.objects && Sets(o, o.flags.transmit) }

  /** A command object receives, a feedback object produces; only that object's own flags count. */
  predicate Proves(o: Object, feedback: bool) {
    && o.flags.communication.Yes?
    && if feedback then o.flags.write.No? && o.flags.read.Yes? && o.flags.transmit.Yes?
       else o.flags.write.Yes? && o.flags.transmit.No?
  }

  function ActuatorKeys(g: Group, feedback: bool): set<string> {
    set o | o in g.objects && Proves(o, feedback) && o.channel.Some? :: o.channel.value
  }

  // ---------------------------------------------------------- datapoint types

  function ObjectChoices(objects: seq<Object>): set<Option<Dpt>> {
    set o, d | o in objects && d in o.dpts :: d
  }

  /** Every type something declares for the address; None stands for an unreadable one. */
  function Choices(g: Group): set<Option<Dpt>> {
    (if g.declared.Some? then {g.declared.value} else {}) + ObjectChoices(g.objects)
  }

  function ExactOf(g: Group): set<Dpt> {
    set d | d in Choices(g) && d.Some? && d.value.sub.Some? :: d.value
  }

  function MainsOf(g: Group): set<int> {
    set d | d in Choices(g) && d.Some? :: d.value.main
  }

  /** The object accepts exactly this type, or every type of its main number. */
  predicate Accepts(o: Object, d: Dpt) {
    o.dpts == []
    || (&& (forall x :: x in o.dpts ==> x.Some?)
        && (exists x :: x in o.dpts && (x == Some(d) || x == Some(Dpt(d.main, None)))))
  }

  /** A declared exact type that every object accepts decides. */
  predicate Decides(g: Group) {
    && g.declared.Some? && g.declared.value.Some? && g.declared.value.value.sub.Some?
    && forall o :: o in g.objects ==> Accepts(o, g.declared.value.value)
  }

  function Exacts(g: Group): set<Dpt> {
    if Decides(g) then {g.declared.value.value} else ExactOf(g)
  }

  function Mains(g: Group): set<int> {
    if Decides(g) then {g.declared.value.value.main} else MainsOf(g)
  }

  /** The address's exact type, or why it has none. */
  function Resolve(g: Group): Result<Type, Issue> {
    if None in Choices(g) || |Exacts(g)| != 1 || |Mains(g)| != 1 then
      Failure(if |Exacts(g)| > 1 || |Mains(g)| > 1 then ConflictingType else MissingExactType)
    else
      var d := Only(Exacts(g));
      if d.sub.Some? then Success(Type(d.main, d.sub.value)) else Failure(MissingExactType)
  }

  // -------------------------------------------------------------------- changes

  function SetDefault(issues: map<Ga, Issue>, address: Ga, issue: Issue): map<Ga, Issue> {
    if address in issues then issues else issues[address := issue]
  }

  function SetDefaults(issues: map<Ga, Issue>, addresses: set<Ga>, issue: Issue): map<Ga, Issue> {
    (map a | a in addresses :: issue) + issues
  }

  function SetAll(issues: map<Ga, Issue>, addresses: set<Ga>, issue: Issue): map<Ga, Issue> {
    issues + (map a | a in addresses :: issue)
  }

  function Add(s: State, c: Candidate): State {
    s.(candidates := s.candidates + [c], used := s.used + Uses(c))
  }

  /** Block every address a group mentions and say why, unless something was said before. */
  function Refuse(s: State, mentioned: set<Ga>, issue: Issue): State {
    s.(blocked := s.blocked + mentioned, issues := SetDefaults(s.issues, mentioned, issue))
  }

  function Unblock(s: State, address: Ga): State {
    s.(blocked := s.blocked - {address}, issues := s.issues - {address})
  }

  /** The first of these fields names the entity. */
  const PRIMARY := [
    Address, MoveLongAddress, PositionAddress, TargetTemperatureAddress, OnOffAddress, StateAddress,
    TemperatureAddress]

  function FirstField(fields: Fields, order: seq<Field>): Option<Ga> {
    if order == [] then None
    else if order[0] in fields then Some(fields[order[0]])
    else FirstField(fields, order[1..])
  }

  function Primary(c: Candidate): Option<Ga> { FirstField(c.settings.fields, PRIMARY) }
}
