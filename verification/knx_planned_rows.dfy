/** From planned entities to configuration rows: where the mapper's result meets the plan algebra. */
module KnxPlannedRows {
  import opened Common
  import Id = KnxIdentity
  import P = KnxPlan
  import T = KnxPlanTheorems
  import opened KnxPlannerModel
  import opened KnxPlannerPasses
  import opened KnxPlannerSoundness
  import opened KnxPlannerRuns

  function FieldKey(f: Field): string {
    match f
    case Address => "address"
    case StateAddress => "state_address"
    case BrightnessAddress => "brightness_address"
    case BrightnessStateAddress => "brightness_state_address"
    case MoveLongAddress => "move_long_address"
    case MoveShortAddress => "move_short_address"
    case StopAddress => "stop_address"
    case PositionAddress => "position_address"
    case PositionStateAddress => "position_state_address"
    case AngleAddress => "angle_address"
    case AngleStateAddress => "angle_state_address"
    case ColorTemperatureAddress => "color_temperature_address"
    case ColorTemperatureStateAddress => "color_temperature_state_address"
    case TemperatureAddress => "temperature_address"
    case TargetTemperatureAddress => "target_temperature_address"
    case TargetTemperatureStateAddress => "target_temperature_state_address"
    case ControllerModeAddress => "controller_mode_address"
    case ControllerModeStateAddress => "controller_mode_state_address"
    case OperationModeAddress => "operation_mode_address"
    case OperationModeStateAddress => "operation_mode_state_address"
    case FanSpeedAddress => "fan_speed_address"
    case FanSpeedStateAddress => "fan_speed_state_address"
    case FanStepAddress => "fan_step_address"
    case FanStepStateAddress => "fan_step_state_address"
    case OpenImpulseAddress => "open_impulse_address"
    case CloseImpulseAddress => "close_impulse_address"
    case StopImpulseAddress => "stop_impulse_address"
    case OnOffAddress => "on_off_address"
    case OnOffStateAddress => "on_off_state_address"
    case SwitchAddress => "switch_address"
    case SwitchStateAddress => "switch_state_address"
  }

  const FIELDS := [
    Address, StateAddress, BrightnessAddress, BrightnessStateAddress, MoveLongAddress, MoveShortAddress, StopAddress,
    PositionAddress, PositionStateAddress, AngleAddress, AngleStateAddress, ColorTemperatureAddress,
    ColorTemperatureStateAddress, TemperatureAddress, TargetTemperatureAddress, TargetTemperatureStateAddress,
    ControllerModeAddress, ControllerModeStateAddress, OperationModeAddress, OperationModeStateAddress,
    FanSpeedAddress, FanSpeedStateAddress, FanStepAddress, FanStepStateAddress, OpenImpulseAddress,
    CloseImpulseAddress, StopImpulseAddress, OnOffAddress, OnOffStateAddress, SwitchAddress, SwitchStateAddress]

  function AddressFields(fields: Fields, order: seq<Field>): Id.Row {
    if order == [] then map[]
    else if order[0] in fields then AddressFields(fields, order[1..])[FieldKey(order[0]) := Id.Text(fields[order[0]])]
    else AddressFields(fields, order[1..])
  }

  /** An entity's identity: a hash of the project, the platform and what the entity claims. */
  type Naming = (Platform, Claim) -> string

  function UniqueId(c: Candidate, naming: Naming): string { naming(c.platform, ClaimOf(c)) }

  function RowOf(c: Candidate, naming: Naming): Id.Row {
    var fields := AddressFields(c.settings.fields, FIELDS);
    var numbered := if c.settings.scene.Some? then fields["scene_number" := Id.Number(c.settings.scene.value)] else fields;
    numbered["name" := Id.Text(c.name)]["unique_id" := Id.Text(UniqueId(c, naming))]
  }

  function EntityOf(c: Candidate, naming: Naming, addresses: seq<string>): P.Entity {
    P.Entity(c.platform, UniqueId(c, naming), None, addresses)
  }

  function ConfigOf(entities: seq<Candidate>, naming: Naming): P.Config {
    if entities == [] then []
    else
      var n := |entities| - 1;
      P.AddRows(ConfigOf(entities[..n], naming), entities[n].platform, [RowOf(entities[n], naming)])
  }

  /** `listing` puts an entity's addresses in order. */
  function EntitiesOf(entities: seq<Candidate>, naming: Naming, listing: set<Ga> -> seq<Ga>): (r: seq<P.Entity>)
    ensures |r| == |entities|
    ensures forall i :: 0 <= i < |r| ==> r[i] == EntityOf(entities[i], naming, listing(Uses(entities[i])))
  {
    if entities == [] then []
    else
      var n := |entities| - 1;
      EntitiesOf(entities[..n], naming, listing) + [EntityOf(entities[n], naming, listing(Uses(entities[n])))]
  }

  /** Different claims on a platform have different identities, and none is empty. */
  ghost predicate Injective(naming: Naming) {
    && (forall p, c, d :: naming(p, c) == naming(p, d) ==> c == d)
    && (forall p, c :: naming(p, c) != "")
  }

  ghost predicate DistinctClaims(entities: seq<Candidate>) {
    forall i, j :: 0 <= i < j < |entities| ==> ClaimOf(entities[i]) != ClaimOf(entities[j])
  }

  lemma RowNamed(c: Candidate, naming: Naming, format: Id.Format)
    requires Injective(naming)
    ensures T.Named(RowOf(c, naming))
    ensures Id.RowIdentity(c.platform, RowOf(c, naming), format) == Some(UniqueId(c, naming))
  {
    var row := RowOf(c, naming);
    assert row["unique_id"] == Id.Text(UniqueId(c, naming));
    T.NamedIdentity(c.platform, row, format);
  }

  predicate IsRowOf(entities: seq<Candidate>, naming: Naming, p: Platform, row: Id.Row, i: nat) {
    i < |entities| && entities[i].platform == p && row == RowOf(entities[i], naming)
  }

  /** The rows of a platform's entities, in order. */
  function RowsFor(entities: seq<Candidate>, naming: Naming, p: Platform): seq<Id.Row> {
    if entities == [] then []
    else
      var n := |entities| - 1;
      RowsFor(entities[..n], naming, p) + (if entities[n].platform == p then [RowOf(entities[n], naming)] else [])
  }

  lemma {:induction false} ConfigRows(entities: seq<Candidate>, naming: Naming, p: Platform)
    ensures P.RowsOf(ConfigOf(entities, naming), p) == RowsFor(entities, naming, p)
    ensures P.Dict(ConfigOf(entities, naming))
  {
    if entities != [] {
      var n := |entities| - 1;
      ConfigRows(entities[..n], naming, p);
      P.RowsOfAdd(ConfigOf(entities[..n], naming), entities[n].platform, [RowOf(entities[n], naming)], p);
    }
  }

  lemma {:induction false} RowsForSpec(entities: seq<Candidate>, naming: Naming, p: Platform)
    ensures forall row :: row in RowsFor(entities, naming, p) ==> exists i: nat :: IsRowOf(entities, naming, p, row, i)
    ensures forall i :: 0 <= i < |entities| && entities[i].platform == p ==>
      RowOf(entities[i], naming) in RowsFor(entities, naming, p)
  {
    hide RowOf;
    if entities != [] {
      var n := |entities| - 1;
      RowsForSpec(entities[..n], naming, p);
      forall row | row in RowsFor(entities, naming, p) ensures exists i: nat :: IsRowOf(entities, naming, p, row, i) {
        if row in RowsFor(entities[..n], naming, p) {
          var i: nat :| IsRowOf(entities[..n], naming, p, row, i);
          assert IsRowOf(entities, naming, p, row, i);
        } else {
          assert IsRowOf(entities, naming, p, row, n);
        }
      }
      forall i | 0 <= i < |entities| && entities[i].platform == p
        ensures RowOf(entities[i], naming) in RowsFor(entities, naming, p)
      {
        if i < n { assert entities[..n][i] == entities[i]; }
      }
    }
  }

  /** Entities with distinct claims have rows with distinct identities. */
  lemma {:induction false} RowsForDistinct(
    entities: seq<Candidate>, naming: Naming, p: Platform, format: Id.Format)
    requires Injective(naming) && DistinctClaims(entities)
    ensures P.DistinctRows(p, RowsFor(entities, naming, p), format)
  {
    hide RowOf;
    if entities != [] {
      var n := |entities| - 1;
      var before, c := entities[..n], entities[n];
      RowsForDistinct(before, naming, p, format);
      RowsForSpec(before, naming, p);
      var rows := RowsFor(before, naming, p);
      if c.platform == p {
        forall x | x in rows ensures Id.RowIdentity(p, x, format) != Id.RowIdentity(p, RowOf(c, naming), format) {
          var i: nat :| IsRowOf(before, naming, p, x, i);
          ClaimsNameRows(before[i], c, naming, format);
        }
        DistinctSnoc(p, rows, RowOf(c, naming), format);
      } else {
        assert RowsFor(entities, naming, p) == rows;
      }
    }
  }

  lemma ClaimsNameRows(c: Candidate, d: Candidate, naming: Naming, format: Id.Format)
    requires Injective(naming) && c.platform == d.platform && ClaimOf(c) != ClaimOf(d)
    ensures Id.RowIdentity(c.platform, RowOf(c, naming), format) != Id.RowIdentity(c.platform, RowOf(d, naming), format)
  {
    RowNamed(c, naming, format);
    RowNamed(d, naming, format);
  }

  lemma DistinctSnoc(p: Platform, rows: seq<Id.Row>, row: Id.Row, format: Id.Format)
    requires P.DistinctRows(p, rows, format)
    requires forall x :: x in rows ==> Id.RowIdentity(p, x, format) != Id.RowIdentity(p, row, format)
    ensures P.DistinctRows(p, rows + [row], format)
  {
  }

  lemma {:induction false} PlannedRowBacked(
    entities: seq<Candidate>, naming: Naming, listing: set<Ga> -> seq<Ga>, format: Id.Format, p: Platform, row: Id.Row)
    requires Injective(naming) && row in RowsFor(entities, naming, p)
    ensures T.Named(row) && P.RowKey(p, row, format).Some?
    ensures P.HasEntity(EntitiesOf(entities, naming, listing), P.RowKey(p, row, format).value)
  {
    hide RowOf;
    hide ClaimOf;
    hide Uses;
    var es := EntitiesOf(entities, naming, listing);
    RowsForSpec(entities, naming, p);
    var i: nat :| IsRowOf(entities, naming, p, row, i);
    RowNamed(entities[i], naming, format);
    assert es[i] in es && P.KeyOf(es[i]) == P.RowKey(p, row, format).value;
  }

  lemma {:induction false} PlannedEntityHasRow(
    entities: seq<Candidate>, naming: Naming, listing: set<Ga> -> seq<Ga>, format: Id.Format, e: P.Entity)
    requires Injective(naming) && e in EntitiesOf(entities, naming, listing)
    ensures P.HasRow(ConfigOf(entities, naming), P.KeyOf(e), format)
  {
    hide RowOf;
    hide ClaimOf;
    hide Uses;
    var es := EntitiesOf(entities, naming, listing);
    var i :| 0 <= i < |es| && es[i] == e;
    ConfigRows(entities, naming, e.platform);
    RowsForSpec(entities, naming, e.platform);
    RowNamed(entities[i], naming, format);
    assert RowOf(entities[i], naming) in P.RowsOf(ConfigOf(entities, naming), e.platform);
  }

  lemma {:induction false} PlannedEntitiesDistinct(
    entities: seq<Candidate>, naming: Naming, listing: set<Ga> -> seq<Ga>)
    requires Injective(naming) && DistinctClaims(entities)
    ensures P.DistinctEntities(EntitiesOf(entities, naming, listing))
  {
    hide ClaimOf;
    hide Uses;
    var es := EntitiesOf(entities, naming, listing);
    forall i, j | 0 <= i < j < |es| ensures P.KeyOf(es[i]) != P.KeyOf(es[j]) {
      assert ClaimOf(entities[i]) != ClaimOf(entities[j]);
    }
  }

  /**
    The planner's result is a plan whose rows and entities correspond, every row named: exactly what the
    steps that adapt, choose, merge and filter plans ask for.
   */
  lemma {:induction false} PlannedRowsCorrespond(
    entities: seq<Candidate>, naming: Naming, listing: set<Ga> -> seq<Ga>, format: Id.Format)
    requires Injective(naming) && DistinctClaims(entities)
    ensures P.Corresponds(ConfigOf(entities, naming), EntitiesOf(entities, naming, listing), format)
    ensures T.AllNamed(ConfigOf(entities, naming))
  {
    hide RowsFor;
    hide ConfigOf;
    hide EntitiesOf;
    var config, es := ConfigOf(entities, naming), EntitiesOf(entities, naming, listing);
    ConfigRows(entities, naming, Id.Light);
    PlannedEntitiesDistinct(entities, naming, listing);
    forall p
      ensures P.RowsOf(config, p) == RowsFor(entities, naming, p)
      ensures P.DistinctRows(p, P.RowsOf(config, p), format)
    {
      ConfigRows(entities, naming, p);
      RowsForDistinct(entities, naming, p, format);
    }
    forall p, row | row in P.RowsOf(config, p)
      ensures T.Named(row)
      ensures P.RowKey(p, row, format).Some? && P.HasEntity(es, P.RowKey(p, row, format).value)
    {
      PlannedRowBacked(entities, naming, listing, format, p, row);
    }
    forall e | e in es ensures P.HasRow(config, P.KeyOf(e), format) {
      PlannedEntityHasRow(entities, naming, listing, format, e);
    }
  }

  /** In particular for every project the planner accepts. */
  lemma EveryPlanCorresponds(
    records: seq<Record>, script: Script, naming: Naming, listing: set<Ga> -> seq<Ga>, format: Id.Format)
    requires Injective(naming) && Conclusion(PlanProject(records, script)).Success?
    ensures var entities := Conclusion(PlanProject(records, script)).value.entities;
      && P.Corresponds(ConfigOf(entities, naming), EntitiesOf(entities, naming, listing), format)
      && T.AllNamed(ConfigOf(entities, naming))
  {
    PlannedEntitiesAreSound(records, script);
    PlannedRowsCorrespond(Conclusion(PlanProject(records, script)).value.entities, naming, listing, format);
  }
}
