/** The steps a plan takes before it is written: identity mode, scene choice, and the site's own configuration. */
module KnxPlanSteps {
  import opened Common
  import opened KnxIdentity
  import opened KnxPlan
  import opened KnxManualPlan

  datatype Mode = Custom | Native | Legacy

  /** The identity a deployed entity has now; stored canonical identities follow the project's format. */
  function ManifestIdentity(e: Entity, mode: Mode, format: Format): string {
    if mode.Custom? then e.uniqueId
    else FormatNativeIdentity(if e.canonical.Some? then e.canonical.value else e.uniqueId, format)
  }

  // ------------------------------------------------------- adapt_plan_identity

  function Positions(entities: seq<Entity>): map<Key, nat> {
    if entities == [] then map[]
    else Positions(entities[..|entities| - 1])[KeyOf(entities[|entities| - 1]) := |entities| - 1]
  }

  function Strip(row: Row): Row { row - {"unique_id"} }

  function Renamed(e: Entity, platform: Platform, row: Row, format: Format): Entity
    requires RowIdentity(platform, row, format).Some?
  {
    e.(uniqueId := RowIdentity(platform, row, format).value, canonical := RowIdentity(platform, row, Long))
  }

  function AdaptRow(platform: Platform, row: Row, format: Format, positions: map<Key, nat>, entities: seq<Entity>)
    : Result<seq<Entity>, PlanError>
  {
    if "unique_id" !in row then Failure(MissingRow)
    else
      var key := Key(platform, Str(row["unique_id"]));
      if key !in positions || positions[key] >= |entities| then Failure(MissingRow)
      else if RowIdentity(platform, Strip(row), format).None? then Failure(IdentityUnsupported)
      else
        var i := positions[key];
        Success(entities[i := Renamed(entities[i], platform, Strip(row), format)])
  }

  function AdaptRows(
    platform: Platform, rows: seq<Row>, format: Format, positions: map<Key, nat>, done: seq<Row>, entities: seq<Entity>)
    : Result<(seq<Row>, seq<Entity>), PlanError>
    decreases |rows|
  {
    if rows == [] then Success((done, entities))
    else
      match AdaptRow(platform, rows[0], format, positions, entities)
      case Failure(error) => Failure(error)
      case Success(renamed) =>
        AdaptRows(platform, rows[1..], format, positions, done + [Strip(rows[0])], renamed)
  }

  function AdaptBlocks(config: Config, format: Format, positions: map<Key, nat>, done: Config, entities: seq<Entity>)
    : Result<(Config, seq<Entity>), PlanError>
    decreases |config|
  {
    if config == [] then Success((done, entities))
    else
      match AdaptRows(config[0].platform, config[0].rows, format, positions, [], entities)
      case Failure(error) => Failure(error)
      case Success((rows, renamed)) =>
        AdaptBlocks(config[1..], format, positions, done + [Block(config[0].platform, rows)], renamed)
  }

  /** Give rows and entities the identities Home Assistant will use. */
  function Adapt(plan: Plan, mode: Mode, format: Format): Result<Plan, PlanError> {
    var adapted: Result<(Config, seq<Entity>), PlanError> :=
      if mode.Custom? then Success((plan.config, plan.entities))
      else AdaptBlocks(plan.config, format, Positions(plan.entities), [], plan.entities);
    match adapted
    case Failure(error) => Failure(error)
    case Success((config, entities)) =>
      if IndexedRows(config, format).Failure? then Failure(IndexedRows(config, format).error)
      else Success(plan.(config := config, entities := entities))
  }

  method AdaptPlanIdentity(plan: Plan, mode: Mode, format: Format) returns (r: Result<Plan, PlanError>)
    ensures r == Adapt(plan, mode, format)
  {
    var config, entities := plan.config, plan.entities;
    if !mode.Custom? {
      config := [];
      var metadata := Positions(plan.entities);
      for b := 0 to |plan.config|
        invariant AdaptBlocks(plan.config[b..], format, metadata, config, entities) ==
          AdaptBlocks(plan.config, format, metadata, [], plan.entities)
      {
        var platform, rows, done := plan.config[b].platform, plan.config[b].rows, [];
        assert plan.config[b..][1..] == plan.config[b + 1..];
        ghost var before := entities;
        for i := 0 to |rows|
          invariant AdaptRows(platform, rows[i..], format, metadata, done, entities) ==
            AdaptRows(platform, rows, format, metadata, [], before)
        {
          assert rows[i..][1..] == rows[i + 1..];
          var adapted := AdaptRow(platform, rows[i], format, metadata, entities);
          if adapted.Failure? { return Failure(adapted.error); }
          entities := adapted.value;
          done := done + [Strip(rows[i])];
        }
        config := config + [Block(platform, done)];
      }
    }
    var index := IndexRowsOf(config, format);
    r := if index.Failure? then Failure(index.error) else Success(plan.(config := config, entities := entities));
  }

  // --------------------------------------------------------- select_scenes

  datatype SceneKey = SceneKey(address: string, number: int)

  const NOT_SELECTED := "scene_not_selected"

  function SceneKeyOf(row: Row): Result<SceneKey, PlanError> {
    if "address" !in row || "scene_number" !in row then Failure(MissingRow)
    else if Address(Str(row["address"])).None? || SceneNumber(row).None? then Failure(InvalidScene)
    else Success(SceneKey(Address(Str(row["address"])).value, SceneNumber(row).value))
  }

  datatype Choice = Choice(kept: seq<Row>, dropped: set<Key>, skipped: seq<Skip>)

  function ChooseRow(row: Row, key: SceneKey, excluded: set<SceneKey>, format: Format, so: Choice): Choice {
    var identity := RowKey(Scene, row, format);
    if key !in excluded then so.(kept := so.kept + [row])
    else
      Choice(so.kept, if identity.Some? then so.dropped + {identity.value} else so.dropped,
             so.skipped + [Skip(key.address, NOT_SELECTED)])
  }

  function ChooseRows(rows: seq<Row>, excluded: set<SceneKey>, format: Format, so: Choice): Result<Choice, PlanError>
    decreases |rows|
  {
    if rows == [] then Success(so)
    else
      match SceneKeyOf(rows[0])
      case Failure(error) => Failure(error)
      case Success(key) => ChooseRows(rows[1..], excluded, format, ChooseRow(rows[0], key, excluded, format, so))
  }

  function ReplaceRows(config: Config, platform: Platform, rows: seq<Row>): Config {
    if config == [] then []
    else if config[0].platform == platform then (if rows == [] then [] else [Block(platform, rows)]) + config[1..]
    else [config[0]] + ReplaceRows(config[1..], platform, rows)
  }

  /** Leave the excluded scenes out and say so. */
  function Select(plan: Plan, excluded: set<SceneKey>, format: Format): Result<Plan, PlanError> {
    match ChooseRows(RowsOf(plan.config, Scene), excluded, format, Choice([], {}, []))
    case Failure(error) => Failure(error)
    case Success(choice) =>
      Success(Plan(ReplaceRows(plan.config, Scene, choice.kept), KeepEntities(plan.entities, choice.dropped),
                   plan.skipped + choice.skipped))
  }

  method SelectScenes(plan: Plan, excluded: set<SceneKey>, format: Format) returns (r: Result<Plan, PlanError>)
    ensures r == Select(plan, excluded, format)
  {
    var rows := RowsOf(plan.config, Scene);
    var kept, skipped := [], [];
    var dropped: set<Key> := {};
    for i := 0 to |rows|
      invariant ChooseRows(rows[i..], excluded, format, Choice(kept, dropped, skipped)) ==
        ChooseRows(rows, excluded, format, Choice([], {}, []))
    {
      assert rows[i..][1..] == rows[i + 1..];
      var key := SceneKeyOf(rows[i]);
      if key.Failure? { return Failure(key.error); }
      if key.value !in excluded {
        kept := kept + [rows[i]];
      } else {
        var identity := RowKey(Scene, rows[i], format);
        if identity.Some? { dropped := dropped + {identity.value}; }
        skipped := skipped + [Skip(key.value.address, NOT_SELECTED)];
      }
    }
    r := Success(Plan(ReplaceRows(plan.config, Scene, kept), KeepEntities(plan.entities, dropped),
                      plan.skipped + skipped));
  }

  // ------------------------------------------------------- filter_existing

  /** The part of the previous deployment that says which rows are ours. */
  datatype Previous = Previous(mode: Mode, entities: seq<Entity>)

  function Owned(previous: Option<Previous>, format: Format): set<Key> {
    if previous.None? then {}
    else
      set e | e in previous.value.entities :: Key(e.platform, ManifestIdentity(e, previous.value.mode, format))
  }

  predicate IsOwned(platform: Platform, row: Row, owned: set<Key>, format: Format) {
    RowKey(platform, row, format).Some? && RowKey(platform, row, format).value in owned
  }

  function UnownedRows(platform: Platform, rows: seq<Row>, owned: set<Key>, format: Format): seq<Row> {
    if rows == [] then []
    else (if IsOwned(platform, rows[0], owned, format) then [] else [rows[0]])
         + UnownedRows(platform, rows[1..], owned, format)
  }

  function AddressesOf(rows: seq<Row>): set<string> {
    if rows == [] then {} else RowAddresses(rows[0]) + AddressesOf(rows[1..])
  }

  /** Addresses somebody else configured. */
  function ManualAddresses(existing: Config, owned: set<Key>, format: Format): set<string> {
    if existing == [] then {}
    else AddressesOf(UnownedRows(existing[0].platform, existing[0].rows, owned, format))
         + ManualAddresses(existing[1..], owned, format)
  }

  function UiAddresses(ui: set<string>): set<string> { set t, a | t in ui && a in Canonical(t) :: a }

  function Unowned(existing: Config, owned: set<Key>, format: Format): Config {
    if existing == [] then []
    else [Block(existing[0].platform, UnownedRows(existing[0].platform, existing[0].rows, owned, format))]
         + Unowned(existing[1..], owned, format)
  }

  function LastWith(entities: seq<Entity>, key: Key): Option<Entity> {
    if entities == [] then None
    else if KeyOf(entities[|entities| - 1]) == key then Some(entities[|entities| - 1])
    else LastWith(entities[..|entities| - 1], key)
  }

  datatype Emission = Emission(config: Config, entities: seq<Entity>, reported: set<string>)

  function EmitRows(
    platform: Platform, rows: seq<Row>, entities: seq<Entity>, manual: set<string>, format: Format, so: Emission)
    : Result<Emission, PlanError>
    decreases |rows|
  {
    if rows == [] then Success(so)
    else
      var collisions := RowAddresses(rows[0]) * manual;
      if collisions != {} then
        EmitRows(platform, rows[1..], entities, manual, format, so.(reported := so.reported + collisions))
      else
        var key := RowKey(platform, rows[0], format);
        if key.None? || LastWith(entities, key.value).None? then Failure(MissingRow)
        else
          EmitRows(platform, rows[1..], entities, manual, format,
                   Emission(AddRows(so.config, platform, [rows[0]]),
                            so.entities + [LastWith(entities, key.value).value], so.reported))
  }

  function EmitBlocks(config: Config, entities: seq<Entity>, manual: set<string>, format: Format, so: Emission)
    : Result<Emission, PlanError>
    decreases |config|
  {
    if config == [] then Success(so)
    else
      match EmitRows(config[0].platform, config[0].rows, entities, manual, format, so)
      case Failure(error) => Failure(error)
      case Success(next) => EmitBlocks(config[1..], entities, manual, format, next)
  }

  function Manual(existing: Config, previous: Option<Previous>, ui: set<string>, format: Format): set<string> {
    UiAddresses(ui) + ManualAddresses(existing, Owned(previous, format), format)
  }

  function Filter(plan: Plan, existing: Config, previous: Option<Previous>, ui: set<string>, format: Format)
    : Result<(Emission, Config), PlanError>
  {
    match IndexedRows(existing, format)
    case Failure(error) => Failure(error)
    case Success(_) =>
      match EmitBlocks(plan.config, plan.entities, Manual(existing, previous, ui, format), format, Emission([], [], {}))
      case Failure(error) => Failure(error)
      case Success(emission) =>
        Success((emission, Extend(Unowned(existing, Owned(previous, format), format), emission.config)))
  }

  method CollectManual(existing: Config, previous: Option<Previous>, ui: set<string>, format: Format)
    returns (manual: set<string>)
    ensures manual == Manual(existing, previous, ui, format)
  {
    var owned := Owned(previous, format);
    manual := UiAddresses(ui);
    for b := 0 to |existing|
      invariant manual + ManualAddresses(existing[b..], owned, format) == Manual(existing, previous, ui, format)
    {
      assert existing[b..][1..] == existing[b + 1..];
      manual := manual + AddressesOf(UnownedRows(existing[b].platform, existing[b].rows, owned, format));
    }
  }

  /** One platform's rows; `skipped` grows by what is reported. */
  method EmitPlatform(
    platform: Platform, rows: seq<Row>, wanted: seq<Entity>, manual: set<string>, format: Format,
    so: Emission, before: seq<Skip>)
    returns (r: Result<Emission, PlanError>, skipped: seq<Skip>)
    requires so.reported <= SkippedSet(before)
    ensures r == EmitRows(platform, rows, wanted, manual, format, so)
    ensures before <= skipped
    ensures r.Success? ==> so.reported <= r.value.reported
    ensures r.Success? ==> SkippedSet(skipped) == SkippedSet(before) + r.value.reported
  {
    skipped := before;
    var next := so;
    for i := 0 to |rows|
      invariant EmitRows(platform, rows[i..], wanted, manual, format, next) ==
        EmitRows(platform, rows, wanted, manual, format, so)
      invariant before <= skipped && so.reported <= next.reported
      invariant SkippedSet(skipped) == SkippedSet(before) + next.reported
    {
      assert rows[i..][1..] == rows[i + 1..];
      var collisions := RowAddresses(rows[i]) * manual;
      if collisions != {} {
        skipped := Report(skipped, collisions);
        next := next.(reported := next.reported + collisions);
      } else {
        var key := RowKey(platform, rows[i], format);
        if key.None? || LastWith(wanted, key.value).None? { return Failure(MissingRow), skipped; }
        next := Emission(AddRows(next.config, platform, [rows[i]]),
                         next.entities + [LastWith(wanted, key.value).value], next.reported);
      }
    }
    r := Success(next);
  }

  method EmitPlan(plan: Plan, manual: set<string>, format: Format)
    returns (r: Result<Emission, PlanError>, skipped: seq<Skip>)
    ensures r == EmitBlocks(plan.config, plan.entities, manual, format, Emission([], [], {}))
    ensures plan.skipped <= skipped
    ensures r.Success? ==> SkippedSet(skipped) == SkippedSet(plan.skipped) + r.value.reported
  {
    var next := Emission([], [], {});
    skipped := plan.skipped;
    for b := 0 to |plan.config|
      invariant EmitBlocks(plan.config[b..], plan.entities, manual, format, next) ==
        EmitBlocks(plan.config, plan.entities, manual, format, Emission([], [], {}))
      invariant plan.skipped <= skipped && SkippedSet(skipped) == SkippedSet(plan.skipped) + next.reported
    {
      assert plan.config[b..][1..] == plan.config[b + 1..];
      var step;
      step, skipped :=
        EmitPlatform(plan.config[b].platform, plan.config[b].rows, plan.entities, manual, format, next, skipped);
      if step.Failure? { return Failure(step.error), skipped; }
      next := step.value;
    }
    r := Success(next);
  }

  /** The order among addresses reported for one row is left open. */
  method FilterExisting(plan: Plan, existing: Config, previous: Option<Previous>, ui: set<string>, format: Format)
    returns (r: Result<(Plan, Config), PlanError>)
    ensures match Filter(plan, existing, previous, ui, format)
      case Failure(error) => r == Failure(error)
      case Success((emission, combined)) =>
        && r.Success?
        && r.value.0.config == emission.config && r.value.0.entities == emission.entities
        && r.value.1 == combined
        && plan.skipped <= r.value.0.skipped
        && SkippedSet(r.value.0.skipped) == SkippedSet(plan.skipped) + emission.reported
  {
    var index := IndexRowsOf(existing, format);
    if index.Failure? { return Failure(index.error); }
    var manual := CollectManual(existing, previous, ui, format);
    var emission, skipped := EmitPlan(plan, manual, format);
    if emission.Failure? { return Failure(emission.error); }
    r := Success((Plan(emission.value.config, emission.value.entities, skipped),
                  Extend(Unowned(existing, Owned(previous, format), format), emission.value.config)));
  }

  method Report(skipped: seq<Skip>, addresses: set<string>) returns (r: seq<Skip>)
    ensures skipped <= r && SkippedSet(r) == SkippedSet(skipped) + addresses
  {
    r := skipped;
    var left := addresses;
    while left != {}
      invariant skipped <= r && left <= addresses
      invariant SkippedSet(r) == SkippedSet(skipped) + (addresses - left)
      decreases left
    {
      var a :| a in left;
      SkippedCons(Skip(a, PRESERVED), r);
      r := r + [Skip(a, PRESERVED)];
      left := left - {a};
    }
  }
}
