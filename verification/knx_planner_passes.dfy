/** What each planner pass does to the shared state. */
module KnxPlannerPasses {
  import opened Common
  import Id = KnxIdentity
  import opened KnxPlannerModel

  // ------------------------------------------------------------------------ load

  /** One imported record: its key in the project, and its address when it is a valid one. */
  datatype Record = Record(key: string, address: Option<Ga>, group: Group)

  function Gather(records: seq<Record>, s: State): State
    decreases |records|
  {
    if records == [] then s
    else
      var r := records[0];
      Gather(records[1..],
             if r.address.None? || r.address.value == "0/0/0" then s.(issues := s.issues[r.key := InvalidGroupAddress])
             else
               var a := r.address.value;
               if a in s.groups && s.groups[a] != r.group then
                 s.(issues := s.issues[a := DuplicateMetadata], blocked := s.blocked + {a})
               else s.(groups := s.groups[a := r.group]))
  }

  const NOTHING := State(map[], map[], map[], {}, {}, {}, [], {}, {})

  type Resolved = map<Ga, Result<Type, Issue>>

  function Resolutions(groups: map<Ga, Group>): Resolved { map a | a in groups :: Resolve(groups[a]) }

  function TypesFound(r: Resolved, done: set<Ga>): map<Ga, Type>
    requires done <= r.Keys
  {
    map a | a in done && r[a].Success? :: r[a].value
  }

  function TypesMissing(r: Resolved, done: set<Ga>): map<Ga, Issue>
    requires done <= r.Keys
  {
    map a | a in done && r[a].Failure? :: r[a].error
  }

  /** Every address gets its exact type, or is blocked with the reason it has none. */
  function Typed(s: State): State {
    var r := Resolutions(s.groups);
    s.(dpts := TypesFound(r, r.Keys), issues := s.issues + TypesMissing(r, r.Keys),
       blocked := s.blocked + TypesMissing(r, r.Keys).Keys)
  }

  function Load(records: seq<Record>): State { Typed(Gather(records, NOTHING)) }

  // ---------------------------------------------------------------------- groups

  datatype Ref = Ref(role: Role, address: Ga)

  datatype Kind = ClimateKind | CoverKind | SceneKind | LightKind | OtherKind

  predicate IsStateField(f: Field) {
    f in {StateAddress, BrightnessStateAddress, PositionStateAddress, AngleStateAddress, ColorTemperatureStateAddress,
          TargetTemperatureStateAddress, ControllerModeStateAddress, OperationModeStateAddress,
          FanSpeedStateAddress, FanStepStateAddress}
  }

  predicate IsCommandField(f: Field) { !IsStateField(f) && !f.TemperatureAddress? }

  predicate HasType(s: State, a: Ga, types: set<Type>) { a in s.dpts && s.dpts[a] in types }

  /** Why an address cannot fill a role's field, if it cannot. */
  function Problem(s: State, a: Ga, entry: Entry, fields: Fields): Option<Issue> {
    if a !in s.groups || a in s.blocked then Some(InvalidFunctionAddress)
    else if !HasType(s, a, entry.types) then Some(TypeMismatch)
    else if entry.field in fields && fields[entry.field] != a then Some(AmbiguousRole)
    else if IsCommandField(entry.field) && s.groups[a].objects != [] && !HasWrite(s.groups[a]) then Some(NotWritable)
    else None
  }

  function Collect(s: State, refs: seq<Ref>, fields: Fields): Result<Fields, Issue>
    decreases |refs|
  {
    if refs == [] then Success(fields)
    else if RoleEntry(refs[0].role).None? then Collect(s, refs[1..], fields)
    else
      var entry := RoleEntry(refs[0].role).value;
      match Problem(s, refs[0].address, entry, fields)
      case Some(issue) => Failure(issue)
      case None => Collect(s, refs[1..], fields[entry.field := refs[0].address])
  }

  function Mentioned(s: State, refs: seq<Ref>): set<Ga> {
    set r | r in refs && r.address in s.groups :: r.address
  }

  const IMPULSES := {OpenImpulseAddress, CloseImpulseAddress, StopImpulseAddress}

  const WALL := {MoveLongAddress, MoveShortAddress}

  function Move(fields: Fields, from: Field, to: Field): Fields {
    if from in fields then (fields - {from})[to := fields[from]] else fields
  }

  function ButtonFor(name: string, fields: Fields, f: Field, source: Source): Candidate
    requires f in fields
  {
    Candidate(Id.Button, name + (if f.OpenImpulseAddress? then " 開" else if f.CloseImpulseAddress? then " 關" else " 停"),
              Plain(map[Address := fields[f]]), source)
  }

  function ImpulseCover(s: State, name: string, fields: Fields, source: Source): Candidate
    requires WALL <= fields.Keys && fields[MoveLongAddress] in s.groups
  {
    Candidate(Id.Cover, name,
              Settings(map[MoveLongAddress := fields[MoveLongAddress], StopAddress := fields[MoveShortAddress]],
                       None, false, None, s.groups[fields[MoveLongAddress]].travel, true, None, false),
              source)
  }

  /** A dry-contact curtain: one cover on the wall buttons' addresses, or three buttons, or nothing. */
  function Impulses(s: State, name: string, fields: Fields, mentioned: set<Ga>, source: Source): State {
    var wall := fields.Keys * WALL;
    var rest := fields - WALL;
    if rest.Keys == IMPULSES && wall == WALL && fields[MoveLongAddress] in s.groups then
      Add(s.(notExposed := s.notExposed + rest.Values, reserved := s.reserved + rest.Values),
          ImpulseCover(s, name, fields, source))
    else
      var settled := set f | f in wall :: fields[f];
      var kept := s.(notExposed := s.notExposed + settled, reserved := s.reserved + settled);
      if rest.Keys != IMPULSES then Refuse(kept, mentioned, IncompatibleRoles)
      else
        Add(Add(Add(kept, ButtonFor(name, fields, OpenImpulseAddress, source)),
                ButtonFor(name, fields, CloseImpulseAddress, source)),
            ButtonFor(name, fields, StopImpulseAddress, source))
  }

  /** Whether the fan's addresses agree on being a stage fan, and whether they are one. */
  function FanStages(s: State, fields: Fields): set<bool> {
    set f | f in {FanSpeedAddress, FanSpeedStateAddress} && f in fields :: HasType(s, fields[f], {FAN_STAGE})
  }

  datatype Verdict = Refused(issue: Issue) | Ignored | Entity(platform: Platform, settings: Settings)

  const CLIMATE_NEEDS := {TemperatureAddress, TargetTemperatureAddress, TargetTemperatureStateAddress}

  function ClimateFields(fields: Fields): Fields {
    Move(Move(fields, Address, OnOffAddress), StateAddress, OnOffStateAddress)
  }

  function JudgeClimate(s: State, fields: Fields): Verdict {
    if CLIMATE_NEEDS <= fields.Keys then
      var renamed := ClimateFields(fields);
      if |FanStages(s, renamed)| > 1 then Refused(TypeMismatch)
      else Entity(Id.Climate, Plain(renamed).(fanStep := FanStages(s, renamed) == {true}))
    else if TargetTemperatureAddress in fields || TargetTemperatureStateAddress in fields then
      Refused(IncompleteClimate)
    else Ignored
  }

  function FanFields(fields: Fields): Fields {
    Move(Move(Move(Move(fields, Address, SwitchAddress), StateAddress, SwitchStateAddress), FanStepAddress, Address),
         FanStepStateAddress, StateAddress)
  }

  function JudgeFan(fields: Fields): Verdict { Entity(Id.Fan, Plain(FanFields(fields))) }

  predicate SameType(s: State, a: Ga, b: Ga) { a in s.dpts && b in s.dpts && s.dpts[a] == s.dpts[b] }

  function ColorModeOf(s: State, fields: Fields): Option<ColorMode> {
    if ColorTemperatureAddress !in fields then None
    else Some(if HasType(s, fields[ColorTemperatureAddress], {SCALING}) then Relative else Absolute)
  }

  function JudgeLight(s: State, kind: Kind, fields: Fields): Verdict {
    if ColorTemperatureStateAddress in fields
       && (ColorTemperatureAddress !in fields
           || !SameType(s, fields[ColorTemperatureAddress], fields[ColorTemperatureStateAddress]))
    then Refused(TypeMismatch)
    else if !kind.LightKind? && (BrightnessAddress in fields || ColorTemperatureAddress in fields) then Ignored
    else Entity(if kind.LightKind? then Id.Light else Id.Switch, Plain(fields).(color := ColorModeOf(s, fields)))
  }

  function Judge(s: State, kind: Kind, fields: Fields, scene: Option<int>): Verdict {
    if kind.ClimateKind? || TargetTemperatureAddress in fields then JudgeClimate(s, fields)
    else if kind.CoverKind? || MoveLongAddress in fields then
      if MoveLongAddress in fields || PositionAddress in fields then Entity(Id.Cover, Plain(fields)) else Ignored
    else if kind.SceneKind? then
      if Address in fields && scene.Some? && 1 <= scene.value <= 64
      then Entity(Id.Scene, Plain(fields).(scene := scene))
      else Refused(MissingSceneNumber)
    else if FanStepAddress in fields then JudgeFan(fields)
    else if Address in fields then JudgeLight(s, kind, fields)
    else Ignored
  }

  function Allowed(platform: Platform): set<Field> {
    match platform
    case Light => {Address, StateAddress, BrightnessAddress, BrightnessStateAddress, ColorTemperatureAddress,
                   ColorTemperatureStateAddress}
    case Switch => {Address, StateAddress}
    case Fan => {Address, StateAddress, SwitchAddress, SwitchStateAddress}
    case Cover => {MoveLongAddress, MoveShortAddress, StopAddress, PositionAddress, PositionStateAddress, AngleAddress,
                   AngleStateAddress}
    case Scene => {Address}
    case Climate => {TemperatureAddress, TargetTemperatureAddress, TargetTemperatureStateAddress, OnOffAddress,
                     OnOffStateAddress, ControllerModeAddress, ControllerModeStateAddress, OperationModeAddress,
                     OperationModeStateAddress, FanSpeedAddress, FanSpeedStateAddress}
    case _ => {}
  }

  function Conclude(s: State, name: string, verdict: Verdict, mentioned: set<Ga>, source: Source): State {
    match verdict
    case Refused(issue) => Refuse(s, mentioned, issue)
    case Ignored => s
    case Entity(platform, settings) =>
      if settings.fields.Keys <= Allowed(platform) then Add(s, Candidate(platform, name, settings, source))
      else Refuse(s, mentioned, IncompatibleRoles)
  }

  /** Join the addresses of one function or one name. */
  function JoinGroup(s: State, name: string, kind: Kind, refs: seq<Ref>, scene: Option<int>, source: Source): State {
    match Collect(s, refs, map[])
    case Failure(issue) => Refuse(s, Mentioned(s, refs), issue)
    case Success(fields) =>
      if fields.Keys * IMPULSES != {} then Impulses(s, name, fields, Mentioned(s, refs), source)
      else Conclude(s, name, Judge(s, kind, fields, scene), Mentioned(s, refs), source)
  }

  // ------------------------------------------------------------------- functions

  /** A function's member; `text` stands for it when its address cannot be read. */
  datatype Member = Member(role: Role, address: Option<Ga>, text: string)

  datatype Function = Function(key: string, name: string, kind: Kind, members: seq<Member>, scene: Option<int>)

  /** The role a member's name gives it, when the rest of the name is the function's own. */
  function NamedRole(s: State, f: Function, a: Ga): Option<Role> {
    if a in s.groups && s.groups[a].named.Some? && s.groups[a].named.value.key == f.key
    then Some(s.groups[a].named.value.role)
    else None
  }

  predicate IsWallMember(s: State, f: Function, a: Ga) {
    a in s.groups && s.groups[a].wallPrefix == Some(f.key) && HasType(s, a, {RELATIVE_KELVIN})
  }

  /** TempRoomSetpoint is a command and a state only when the objects prove both. */
  function RefsFor(s: State, role: Role, a: Ga): seq<Ref> {
    if !role.TempRoomSetpoint? then [Ref(role, a)]
    else if a in s.groups && HasWrite(s.groups[a]) && HasRead(s.groups[a])
    then [Ref(TargetTemperature, a), Ref(TargetTemperatureState, a)]
    else []
  }

  function MemberStep(s: State, f: Function, m: Member): (State, seq<Ref>) {
    if m.address.None? then
      (s.(issues := s.issues[m.text := MissingFunctionAddress]), RefsFor(s, m.role, m.text))
    else
      var a := m.address.value;
      if m.role.NotExposed? then (s.(notExposed := s.notExposed + {a}), [])
      else if RoleEntry(m.role).None? && !m.role.TempRoomSetpoint? then
        if NamedRole(s, f, a).Some? then (s, RefsFor(s, NamedRole(s, f, a).value, a))
        else if IsWallMember(s, f, a) then (s.(notExposed := s.notExposed + {a}), [])
        else (s.(unresolved := s.unresolved + {a}), [])
      else (s, RefsFor(s, m.role, a))
  }

  function Members(s: State, f: Function, members: seq<Member>, refs: seq<Ref>): (State, seq<Ref>)
    decreases |members|
  {
    if members == [] then (s, refs)
    else
      var (next, more) := MemberStep(s, f, members[0]);
      Members(next, f, members[1..], refs + more)
  }

  function Functions(s: State, functions: seq<Function>): State
    decreases |functions|
  {
    if functions == [] then s
    else
      var f := functions[0];
      var (next, refs) := Members(s, f, f.members, []);
      Functions(JoinGroup(next, f.name, f.kind, refs, f.scene, FunctionRole), functions[1..])
  }

  // ------------------------------------------------------------------- channels

  function Elements(addresses: seq<Ga>): set<Ga> { set a | a in addresses }

  predicate Available(s: State, a: Ga) { a in s.groups && a !in s.used && a !in s.reserved }

  /** The available addresses whose name has this prefix and tag, in order. */
  function TaggedAs(s: State, order: seq<Ga>, dialect: Dialect, key: string, tag: Tag): seq<Ga> {
    if order == [] then []
    else
      var a := order[0];
      (if Available(s, a) && TagOf(s.groups[a], dialect).Some? && TagOf(s.groups[a], dialect).value.key == key
          && TagOf(s.groups[a], dialect).value.tag == tag then [a] else [])
      + TaggedAs(s, order[1..], dialect, key, tag)
  }

  predicate IsFeedbackMix(g: Group) {
    var choices := set d | d in Choices(g) && d.Some? :: d.value;
    && choices <= {Dpt(1, Some(1)), Dpt(1, Some(2)), Dpt(1, Some(11))}
    && (Dpt(1, Some(1)) in choices || Dpt(1, Some(11)) in choices)
  }

  predicate Relaxes(s: State, a: Ga, tag: Tag) {
    && tag.SwFb? && a in s.groups
    && a in s.issues && s.issues[a] == ConflictingType
    && IsFeedbackMix(s.groups[a])
  }

  /** A proven feedback address may mix one-bit encodings: it is then taken as a state bit. */
  function Relax(s: State, a: Ga, tag: Tag): State {
    if Relaxes(s, a, tag) then Unblock(s.(dpts := s.dpts[a := STATE_BIT]), a) else s
  }

  function KeysOf(s: State, a: Ga, feedback: bool): set<string> {
    if a in s.groups then ActuatorKeys(s.groups[a], feedback) else {}
  }

  function Bind(s: State, a: Ga, tag: Tag, types: set<Type>, anchor: set<string>): (State, bool) {
    if anchor != KeysOf(s, a, IsFeedback(tag)) then
      (s.(issues := SetDefault(s.issues, a, UnprovenChannel)), false)
    else
      var relaxed := Relax(s, a, tag);
      if a in relaxed.blocked || !HasType(relaxed, a, types) then
        (relaxed.(issues := SetDefault(relaxed.issues, a, TypeMismatch)), false)
      else (relaxed, true)
  }

  /** A command switches one output when it is a switch bit with exactly one actuator channel. */
  predicate Anchors(s: State, command: Ga) {
    && command !in s.blocked && HasType(s, command, {BIT})
    && |KeysOf(s, command, false)| == 1
  }

  function AnchorOf(s: State, command: Ga): string
    requires Anchors(s, command)
  {
    Only(KeysOf(s, command, false))
  }

  function Dialected(roles: map<Tag, seq<Ga>>, tag: Tag): seq<Ga> { if tag in roles then roles[tag] else [] }

  /** Addresses nothing tells apart. */
  function BlockAll(s: State, addresses: set<Ga>): State {
    s.(blocked := s.blocked + addresses, issues := SetAll(s.issues, addresses, AmbiguousRole))
  }

  /** One command: each tag binds its only address; two addresses for one tag block both. */
  function BindSingle(
    s: State, dialect: Dialect, roles: map<Tag, seq<Ga>>, tags: seq<Tag>, anchor: set<string>, fields: Fields)
    : (State, Fields)
    decreases |tags|
  {
    if tags == [] then (s, fields)
    else
      var tag, addresses := tags[0], Dialected(roles, tags[0]);
      var entry := TagEntry(dialect, tag);
      if addresses == [] || entry.None? then BindSingle(s, dialect, roles, tags[1..], anchor, fields)
      else if |addresses| != 1 then
        BindSingle(BlockAll(s, Elements(addresses)), dialect, roles, tags[1..], anchor, fields)
      else
        var (next, bound) := Bind(s, addresses[0], tag, entry.value.types, anchor);
        BindSingle(next, dialect, roles, tags[1..], anchor,
                   if bound then fields[entry.value.field := addresses[0]] else fields)
  }

  /** The channel of every command that has one. */
  function AllAnchors(s: State, commands: seq<Ga>): map<Ga, string> {
    map c | c in commands && Anchors(s, c) :: AnchorOf(s, c)
  }

  predicate Doubled(anchors: map<Ga, string>, c: Ga) {
    c in anchors && exists d :: d in anchors && d != c && anchors[d] == anchors[c]
  }

  /** Commands on one channel are indistinguishable: they are blocked. */
  function DoubledOf(anchors: map<Ga, string>): set<Ga> { set c | c in anchors && Doubled(anchors, c) }

  function Distinct(anchors: map<Ga, string>): map<Ga, string> { anchors - DoubledOf(anchors) }

  /** The one command an address's channel belongs to. */
  function Owner(s: State, anchors: map<Ga, string>, a: Ga, tag: Tag): Option<Ga> {
    var keys := KeysOf(s, a, IsFeedback(tag));
    if |keys| != 1 then None
    else
      var matched := set c | c in anchors && anchors[c] == Only(keys);
      if |matched| != 1 then None else Some(Only(matched))
  }

  function Claimants(s: State, anchors: map<Ga, string>, addresses: seq<Ga>, tag: Tag, c: Ga): seq<Ga> {
    if addresses == [] then []
    else (if Owner(s, anchors, addresses[0], tag) == Some(c) then [addresses[0]] else [])
         + Claimants(s, anchors, addresses[1..], tag, c)
  }

  function Unowned(s: State, anchors: map<Ga, string>, addresses: seq<Ga>, tag: Tag): set<Ga> {
    set a | a in addresses && Owner(s, anchors, a, tag).None?
  }

  type Bindings = map<Ga, Fields>

  function ClaimsFor(s: State, anchors: map<Ga, string>, addresses: seq<Ga>, tag: Tag): map<Ga, seq<Ga>> {
    map c | c in anchors :: Claimants(s, anchors, addresses, tag, c)
  }

  function Told(s: State, anchors: map<Ga, string>, addresses: seq<Ga>, tag: Tag): State {
    s.(issues := SetDefaults(s.issues, Unowned(s, anchors, addresses, tag), UnprovenChannel))
  }

  function BindClaims(
    s: State, anchors: map<Ga, string>, claims: map<Ga, seq<Ga>>, commands: seq<Ga>, tag: Tag, entry: Entry,
    bound: Bindings): (State, Bindings)
    decreases |commands|
  {
    if commands == [] then (s, bound)
    else
      var c := commands[0];
      if c !in claims || c !in anchors || claims[c] == [] then
        BindClaims(s, anchors, claims, commands[1..], tag, entry, bound)
      else if |claims[c]| != 1 then
        BindClaims(s.(issues := SetDefaults(s.issues, Elements(claims[c]), AmbiguousRole)),
                   anchors, claims, commands[1..], tag, entry, bound)
      else
        var (next, ok) := Bind(s, claims[c][0], tag, entry.types, {anchors[c]});
        BindClaims(next, anchors, claims, commands[1..], tag, entry,
                   if ok && c in bound then bound[c := bound[c][entry.field := claims[c][0]]] else bound)
  }

  function BindTags(
    s: State, dialect: Dialect, anchors: map<Ga, string>, roles: map<Tag, seq<Ga>>, commands: seq<Ga>,
    tags: seq<Tag>, bound: Bindings): (State, Bindings)
    decreases |tags|
  {
    if tags == [] then (s, bound)
    else
      var tag, addresses := tags[0], Dialected(roles, tags[0]);
      var entry := TagEntry(dialect, tag);
      if entry.None? then BindTags(s, dialect, anchors, roles, commands, tags[1..], bound)
      else
        var (next, more) := BindClaims(Told(s, anchors, addresses, tag), anchors, ClaimsFor(s, anchors, addresses, tag),
                                       commands, tag, entry.value, bound);
        BindTags(next, dialect, anchors, roles, commands, tags[1..], more)
  }

  function Unbound(anchors: map<Ga, string>): Bindings { map c | c in anchors :: map[] }

  /** Several commands share a name: split them by the channels that tell them apart. */
  function BindMulti(s: State, dialect: Dialect, commands: seq<Ga>, roles: map<Tag, seq<Ga>>): (State, Bindings) {
    var anchors := AllAnchors(s, commands);
    BindTags(BlockAll(s, DoubledOf(anchors)), dialect, Distinct(anchors), roles, commands, TagOrder(dialect),
             Unbound(Distinct(anchors)))
  }

  // ------------------------------------------------------- finishing a channel

  function DropOrphans(fields: Fields): Fields {
    var bright := if BrightnessAddress in fields then fields else fields - {BrightnessStateAddress};
    if ColorTemperatureAddress in bright then bright else bright - {ColorTemperatureStateAddress}
  }

  function SameEncoding(s: State, fields: Fields): Fields {
    if ColorTemperatureAddress in fields && ColorTemperatureStateAddress in fields
       && !SameType(s, fields[ColorTemperatureAddress], fields[ColorTemperatureStateAddress])
    then fields - {ColorTemperatureStateAddress}
    else fields
  }

  function FinishLight(s: State, name: string, lightName: bool, bound: Fields): State {
    var paired := DropOrphans(bound);
    var light := lightName || BrightnessAddress in paired || ColorTemperatureAddress in paired;
    var fields := SameEncoding(s, if light then paired
                                  else map f | f in paired && (f.Address? || f.StateAddress?) :: paired[f]);
    if |fields| == 1 then s
    else
      Add(s, Candidate(if light then Id.Light else Id.Switch, name,
                       Plain(fields).(color := ColorModeOf(s, fields)), ObjectChannel))
  }

  function FinishClimate(s: State, name: string, bound: Fields): State {
    if TemperatureAddress !in bound || TargetTemperatureStateAddress !in bound then s
    else
      var stages := FanStages(s, bound);
      var fields := if |stages| > 1 then bound - {FanSpeedAddress, FanSpeedStateAddress} else bound;
      Add(s, Candidate(Id.Climate, name, Plain(fields).(fanStep := stages == {true}), ObjectChannel))
  }

  /** A name prefix as the passes see it: its display name, and whether that names a light. */
  datatype Prefix = Prefix(key: string, name: string, light: bool)

  function Finish(s: State, dialect: Dialect, prefix: Prefix, command: Ga, fields: Fields): State {
    match dialect
    case LightDialect => FinishLight(s, prefix.name, prefix.light, fields[Address := command])
    case ClimateDialect => FinishClimate(s, prefix.name, fields[OnOffAddress := command])
  }

  function FinishAll(s: State, dialect: Dialect, prefix: Prefix, commands: seq<Ga>, bound: Bindings): State
    decreases |commands|
  {
    if commands == [] then s
    else
      FinishAll(if commands[0] in bound then Finish(s, dialect, prefix, commands[0], bound[commands[0]]) else s,
                dialect, prefix, commands[1..], bound)
  }

  function ChannelStep(s: State, dialect: Dialect, prefix: Prefix, commands: seq<Ga>, roles: map<Tag, seq<Ga>>): State {
    if commands == [] then s
    else if |commands| > 1 then
      var (next, bound) := BindMulti(s, dialect, commands, roles);
      FinishAll(next, dialect, prefix, commands, bound)
    else if !Anchors(s, commands[0]) then s
    else
      var (next, fields) :=
        BindSingle(s, dialect, roles, TagOrder(dialect), KeysOf(s, commands[0], false), map[]);
      Finish(next, dialect, prefix, commands[0], fields)
  }

  /** The addresses of every optional tag under one prefix, as they were when the pass began. */
  function RolesAt(begun: State, order: seq<Ga>, dialect: Dialect, key: string): map<Tag, seq<Ga>> {
    map t | t in TagOrder(dialect) :: TaggedAs(begun, order, dialect, key, t)
  }

  function Channels(s: State, begun: State, order: seq<Ga>, dialect: Dialect, prefixes: seq<Prefix>): State
    decreases |prefixes|
  {
    if prefixes == [] then s
    else
      var p := prefixes[0];
      Channels(ChannelStep(s, dialect, p, TaggedAs(begun, order, dialect, p.key, Sw), RolesAt(begun, order, dialect, p.key)),
               begun, order, dialect, prefixes[1..])
  }

  // ------------------------------------------------------------ scene metadata

  predicate Recallable(g: Group) {
    Choices(g) != {} && Choices(g) <= {Some(Dpt(17, Some(1))), Some(Dpt(18, Some(1)))}
  }

  predicate SendsScenes(g: Group) {
    && g.scene.fromSender
    && g.scene.numbers.Some? && g.scene.numbers.value != []
    && (forall n :: n in g.scene.numbers.value ==> 1 <= n <= 64)
    && (forall i, j :: 0 <= i < j < |g.scene.numbers.value| ==> g.scene.numbers.value[i] != g.scene.numbers.value[j])
    && g.scene.senders.Some? && g.scene.senders.value != []
    && (forall id :: id in g.scene.senders.value ==>
          id != "" && exists o :: o in g.objects && o.id == id && Sets(o, o.flags.transmit))
    && (HasWrite(g) || g.scene.wallKey)
  }

  function SceneFor(name: string, a: Ga, number: int): Candidate {
    Candidate(Id.Scene, name, Plain(map[Address := a]).(scene := Some(number)), SceneSender)
  }

  function AddScenes(s: State, name: string, a: Ga, numbers: seq<int>): State
    decreases |numbers|
  {
    if numbers == [] then s
    else AddScenes(Add(s, SceneFor(name, a, numbers[0])), name, a, numbers[1..])
  }

  function SceneStep(s: State, a: Ga): State {
    if !Available(s, a) || !SendsScenes(s.groups[a]) || !Recallable(s.groups[a]) then s
    else if a in s.blocked && !(a in s.issues && s.issues[a] == ConflictingType) then s
    else
      AddScenes(if a in s.blocked then Unblock(s, a) else s, s.groups[a].name, a, s.groups[a].scene.numbers.value)
  }

  function Scenes(s: State, order: seq<Ga>): State
    decreases |order|
  {
    if order == [] then s else Scenes(SceneStep(s, order[0]), order[1..])
  }

  // --------------------------------------------------------------- named groups

  function NamedAs(s: State, order: seq<Ga>, key: string): seq<Ref> {
    if order == [] then []
    else
      var a := order[0];
      (if Available(s, a) && s.groups[a].named.Some? && s.groups[a].named.value.key == key
       then [Ref(s.groups[a].named.value.role, a)] else [])
      + NamedAs(s, order[1..], key)
  }

  function NamedGroups(s: State, begun: State, order: seq<Ga>, prefixes: seq<Prefix>): State
    decreases |prefixes|
  {
    if prefixes == [] then s
    else
      var p := prefixes[0];
      NamedGroups(
        JoinGroup(s, p.name, if p.light then LightKind else OtherKind, NamedAs(begun, order, p.key), None, NameRole),
        begun, order, prefixes[1..])
  }

  // ------------------------------------------------------------------- fallback

  predicate IsMeasurement(t: Type) {
    t.main == 9 && (1 <= t.sub <= 8 || t.sub == 10 || t.sub == 11 || 20 <= t.sub <= 30)
  }

  predicate IsOtherTelemetry(t: Type) {
    match t.main
    case 5 => t.sub == 1 || 3 <= t.sub <= 6 || t.sub == 10
    case 7 => 1 <= t.sub <= 6 || t.sub == 600
    case 12 => t.sub == 1
    case 13 => t.sub == 1 || t.sub == 10 || t.sub == 13
    case 14 => t.sub == 56 || t.sub == 76
    case _ => false
  }

  predicate IsStatusBit(t: Type) {
    t.main == 1 && (t.sub == 1 || t.sub == 2 || t.sub == 5 || t.sub == 9 || t.sub == 18 || t.sub == 19 || t.sub == 22)
  }

  predicate IsTelemetry(g: Group) { HasTransmit(g) && (!HasWrite(g) || g.feedbackName) }

  predicate IsOrphanFeedback(g: Group, t: Type) {
    g.feedbackName && g.objects == [] && (t == BIT || t == STATE_BIT)
  }

  datatype Reading = Unsure(issue: Issue) | Status | Command | Measure

  /** What a type and its objects prove about an address on its own. */
  function Read(g: Group, t: Type): Reading {
    if t in SCENE_TYPES then Unsure(MissingSceneNumber)
    else if t == STATE_BIT || IsOrphanFeedback(g, t) || (IsStatusBit(t) && IsTelemetry(g))
    then Status
    else if t == BIT && HasWrite(g) && !g.feedbackName then Command
    else if IsMeasurement(t) || (IsOtherTelemetry(t) && IsTelemetry(g)) then Measure
    else Unsure(InsufficientMetadata)
  }

  function FallbackStep(s: State, a: Ga): State {
    if !Available(s, a) || a in s.blocked || a !in s.dpts then s
    else
      match Read(s.groups[a], s.dpts[a])
      case Unsure(issue) => s.(issues := s.issues[a := issue])
      case Status =>
        Add(s, Candidate(Id.BinarySensor, s.groups[a].name,
                         Plain(map[StateAddress := a]).(unread := !HasRead(s.groups[a])), Telemetry))
      case Command =>
        Add(s, Candidate(Id.Switch, s.groups[a].name, Plain(map[Address := a]), ObjectFlags))
      case Measure =>
        Add(s, Candidate(Id.Sensor, s.groups[a].name,
                         Plain(map[StateAddress := a]).(
                           reading := Some(s.dpts[a]),
                           unread := s.groups[a].objects != [] && !HasRead(s.groups[a])),
                         Telemetry))
  }

  function Fallback(s: State, order: seq<Ga>): State
    decreases |order|
  {
    if order == [] then s else Fallback(FallbackStep(s, order[0]), order[1..])
  }

  // ----------------------------------------------------------- annotate, result

  predicate IsGeneric(s: State, a: Ga) {
    a !in s.used && (a !in s.issues || s.issues[a] == InsufficientMetadata)
  }

  function Explain(s: State, members: set<Ga>, issue: Issue): State {
    s.(issues := SetAll(s.issues, (set a | a in members && IsGeneric(s, a)), issue))
  }

  function Annotate(s: State): State {
    Explain(Explain(s, s.notExposed, NotExposedRole), s.unresolved, UnresolvedRole)
  }

  /** What an entity claims: its first address, and for a scene its number. */
  datatype Claim = Claim(primary: Option<Ga>, scene: Option<int>)

  function ClaimOf(c: Candidate): Claim { Claim(Primary(c), if c.platform.Scene? then c.settings.scene else None) }

  predicate Live(s: State, c: Candidate) { Uses(c) !! s.blocked }

  predicate Alike(c: Candidate, d: Candidate) { c.platform == d.platform && c.settings == d.settings }

  /** Two candidates with one claim that are not the same entity: neither is trusted. */
  predicate Contested(s: State, c: Candidate) {
    exists d :: d in s.candidates && Live(s, d) && ClaimOf(d) == ClaimOf(c) && !Alike(c, d)
  }

  function Accepted(s: State, rest: seq<Candidate>, claimed: set<Claim>): seq<Candidate> {
    if rest == [] then []
    else if Live(s, rest[0]) && !Contested(s, rest[0]) && ClaimOf(rest[0]) !in claimed then
      [rest[0]] + Accepted(s, rest[1..], claimed + {ClaimOf(rest[0])})
    else Accepted(s, rest[1..], claimed)
  }

  function UsedBy(candidates: seq<Candidate>): set<Ga> { set c, a | c in candidates && a in Uses(c) :: a }

  function ContestedAddresses(s: State): set<Ga> {
    set c, a | c in s.candidates && Live(s, c) && Contested(s, c) && a in Uses(c) :: a
  }

  const MAX_ENTITIES := 2000

  /** The planned entities, and why each other address has none. */
  datatype Outcome = Outcome(entities: seq<Candidate>, skipped: map<Ga, Issue>)

  datatype TooMany = TooMany

  function Conclusion(s: State): Result<Outcome, TooMany> {
    var entities := Accepted(s, s.candidates, {});
    if |entities| > MAX_ENTITIES then Failure(TooMany)
    else
      var issues := SetAll(s.issues, ContestedAddresses(s), ConflictingClaim);
      Success(Outcome(entities, map a | a in s.groups.Keys + issues.Keys && a !in UsedBy(entities)
                                      :: if a in issues then issues[a] else InsufficientMetadata))
  }

  // ---------------------------------------------------------------------- a run

  /** The orders the passes take; they come from sorting and are arbitrary here. */
  datatype Script = Script(
    functions: seq<Function>, climates: seq<Prefix>, lights: seq<Prefix>, names: seq<Prefix>, order: seq<Ga>)

  function PlanProject(records: seq<Record>, script: Script): State {
    var s1 := Functions(Load(records), script.functions);
    var s2 := Channels(s1, s1, script.order, ClimateDialect, script.climates);
    var s3 := Channels(s2, s2, script.order, LightDialect, script.lights);
    var s4 := Scenes(s3, script.order);
    var s5 := NamedGroups(s4, s4, script.order, script.names);
    Annotate(Fallback(s5, script.order))
  }
}
