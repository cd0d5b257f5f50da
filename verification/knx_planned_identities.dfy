/** The planner's rows under native identities: every one has its own, so a planned project can always be adapted. */
module KnxPlannedIdentities {
  import opened Common
  import opened DecimalText
  import Id = KnxIdentity
  import P = KnxPlan
  import S = KnxPlanSteps
  import T = KnxPlanTheorems
  import C = KnxSceneChoice
  import R = KnxPlannedRows
  import opened KnxPlannerModel
  import opened KnxPlannerPasses
  import opened KnxPlannerSoundness
  import opened KnxPlannerRuns
  import opened KnxClimateUnits

  // --------------------------------------------------------------- fields in a row

  /** The fields a native identity is made of. */
  predicate IsIdentityField(f: Field) {
    f.Address? || f.StateAddress? || f.MoveLongAddress? || f.PositionAddress? || f.TemperatureAddress?
    || f.TargetTemperatureAddress? || f.TargetTemperatureStateAddress?
  }

  lemma AddressKey(g: Field)
    ensures R.FieldKey(g) == "address" ==> g.Address?
  {
    if R.FieldKey(g) == "address" {
      assert R.FieldKey(g)[0] == 'a' && |R.FieldKey(g)| == 7;
    }
  }

  lemma StateKey(g: Field)
    ensures R.FieldKey(g) == "state_address" ==> g.StateAddress?
  {
    match g
    case _ =>
  }

  lemma MoveKey(g: Field)
    ensures R.FieldKey(g) == "move_long_address" ==> g.MoveLongAddress?
  {
    match g
    case _ =>
  }

  lemma PositionKey(g: Field)
    ensures R.FieldKey(g) == "position_address" ==> g.PositionAddress?
  {
    match g
    case _ =>
  }

  lemma TemperatureKey(g: Field)
    ensures R.FieldKey(g) == "temperature_address" ==> g.TemperatureAddress?
  {
    match g
    case _ =>
  }

  lemma TargetKey(g: Field)
    ensures R.FieldKey(g) == "target_temperature_address" ==> g.TargetTemperatureAddress?
  {
    match g
    case _ =>
  }

  lemma TargetStateKey(g: Field)
    ensures R.FieldKey(g) == "target_temperature_state_address" ==> g.TargetTemperatureStateAddress?
  {
    match g
    case _ =>
  }

  lemma NotShift(g: Field)
    ensures R.FieldKey(g) != "setpoint_shift_address"
  {
    match g
    case _ =>
  }

  lemma NotReserved(g: Field)
    ensures R.FieldKey(g) != "unique_id" && R.FieldKey(g) != "name"
  {
    match g
    case _ =>
  }

  lemma NotNumber(g: Field)
    ensures R.FieldKey(g) != "scene_number"
  {
    match g
    case _ =>
  }

  lemma KeyIsOwn(f: Field, g: Field)
    requires IsIdentityField(f) && R.FieldKey(g) == R.FieldKey(f)
    ensures g == f
  {
    AddressKey(g);
    StateKey(g);
    MoveKey(g);
    PositionKey(g);
    TemperatureKey(g);
    TargetKey(g);
    TargetStateKey(g);
  }

  lemma {:induction false} FieldInRow(fields: Fields, order: seq<Field>, f: Field)
    requires IsIdentityField(f)
    ensures var row := R.AddressFields(fields, order);
      && (R.FieldKey(f) in row <==> f in fields && f in order)
      && (R.FieldKey(f) in row ==> row[R.FieldKey(f)] == Id.Text(fields[f]))
  {
    hide R.FieldKey;
    if order != [] {
      assert order == [order[0]] + order[1..];
      FieldInRow(fields, order[1..], f);
      if R.FieldKey(order[0]) == R.FieldKey(f) { KeyIsOwn(f, order[0]); }
    }
  }

  lemma {:induction false} NotInRow(fields: Fields, order: seq<Field>, key: string)
    requires forall g :: R.FieldKey(g) != key
    ensures key !in R.AddressFields(fields, order)
  {
    hide R.FieldKey;
    if order != [] { NotInRow(fields, order[1..], key); }
  }

  lemma Listed(f: Field)
    requires IsIdentityField(f)
    ensures f in R.FIELDS
  {
    assert Address == R.FIELDS[0] && StateAddress == R.FIELDS[1] && MoveLongAddress == R.FIELDS[4];
    assert PositionAddress == R.FIELDS[7] && TemperatureAddress == R.FIELDS[13];
    assert TargetTemperatureAddress == R.FIELDS[14] && TargetTemperatureStateAddress == R.FIELDS[15];
  }

  /** An identity field of the row, named or not, is the candidate's. */
  lemma RowField(c: Candidate, naming: R.Naming, f: Field)
    requires IsIdentityField(f)
    ensures var row := R.RowOf(c, naming);
      && (R.FieldKey(f) in row <==> f in c.settings.fields)
      && (R.FieldKey(f) in row ==> row[R.FieldKey(f)] == Id.Text(c.settings.fields[f]))
      && R.FieldKey(f) != "unique_id"
  {
    hide R.FieldKey;
    hide R.FIELDS;
    hide R.AddressFields;
    FieldInRow(c.settings.fields, R.FIELDS, f);
    Listed(f);
    NotReserved(f);
    NotNumber(f);
  }

  /** Addresses are in canonical form. */
  ghost predicate Canonical(a: Ga) { Id.Address(a) == Some(a) }

  function RawOf(a: Ga): Id.Raw
    requires Canonical(a)
  {
    Id.ParseAddress(a).value
  }

  lemma RawTells(a: Ga, b: Ga)
    requires Canonical(a) && Canonical(b) && RawOf(a) == RawOf(b)
    ensures a == b
  {
  }

  ghost predicate CanonicalFields(fields: Fields) { forall f :: f in fields ==> Canonical(fields[f]) }

  /** What an identity field contributes to the native identity. */
  function Share(c: Candidate, f: Field): Id.Part
    requires CanonicalFields(c.settings.fields)
  {
    if f in c.settings.fields then Id.Ga(RawOf(c.settings.fields[f])) else Id.Absent
  }

  lemma StrippedPart(c: Candidate, naming: R.Naming, f: Field)
    requires IsIdentityField(f) && CanonicalFields(c.settings.fields)
    ensures Id.PartAt(S.Strip(R.RowOf(c, naming)), R.FieldKey(f)) == Share(c, f)
  {
    hide R.RowOf;
    hide R.FieldKey;
    hide Id.ParseAddress;
    RowField(c, naming, f);
  }

  lemma StrippedUnnamed(c: Candidate, naming: R.Naming)
    ensures Id.Unnamed(S.Strip(R.RowOf(c, naming)))
  {
  }

  lemma SceneField(c: Candidate, naming: R.Naming)
    requires c.settings.scene.Some?
    ensures var row := R.RowOf(c, naming);
      "scene_number" in row && row["scene_number"] == Id.Number(c.settings.scene.value)
  {
    hide R.AddressFields;
  }

  lemma NoShift(c: Candidate, naming: R.Naming)
    ensures Id.PartAt(S.Strip(R.RowOf(c, naming)), SHIFT) == Id.Absent
  {
    hide R.AddressFields;
    forall g ensures R.FieldKey(g) != "setpoint_shift_address" { NotShift(g); }
    NotInRow(c.settings.fields, R.FIELDS, "setpoint_shift_address");
    assert "setpoint_shift_address" != "scene_number" && "setpoint_shift_address" != "name";
  }

  // -------------------------------------------------------------- native identities

  /** What the planner guarantees of a planned candidate, as far as its identity goes. */
  ghost predicate Ready(c: Candidate) {
    && Identified(c.platform, c.settings.fields) && CanonicalFields(c.settings.fields)
    && c.settings.fields.Keys <= Shape(c.platform)
    && (c.platform.Scene? ==> c.settings.scene.Some? && 1 <= c.settings.scene.value <= 64)
    && (c.platform.Climate? && !IsUnit(c) ==> TargetTemperatureAddress in c.settings.fields)
  }

  function NativeOf(c: Candidate, naming: R.Naming): Option<seq<Id.Part>> {
    Id.NativeParts(c.platform, S.Strip(R.RowOf(c, naming)))
  }

  /** The native identity of a planned row, by platform. */
  function Shares(c: Candidate): seq<Id.Part>
    requires Ready(c)
  {
    match c.platform
    case Light | Switch | Fan => [Share(c, Address)]
    case Button => [Share(c, Address), Id.Plain(Numeral(Id.DEFAULT_BUTTON_PAYLOAD))]
    case Scene => [Share(c, Address), Id.Plain(Numeral(c.settings.scene.value))]
    case Sensor | BinarySensor => [Share(c, StateAddress)]
    case Cover => [Share(c, MoveLongAddress), Share(c, PositionAddress)]
    case Climate =>
      [Share(c, TemperatureAddress), Share(c, TargetTemperatureStateAddress), Share(c, TargetTemperatureAddress), Id.Absent]
    case Unsupported(_) => []
  }

  lemma AnyGaAt(parts: seq<Id.Part>, i: nat)
    requires i < |parts| && parts[i].Ga?
    ensures Id.AnyGa(parts) == Some(parts)
  {
  }

  lemma SingleNative(c: Candidate, naming: R.Naming, f: Field)
    requires f == Address || f == StateAddress
    requires CanonicalFields(c.settings.fields) && f in c.settings.fields
    ensures var part := Id.PartAt(S.Strip(R.RowOf(c, naming)), if f == Address then "address" else "state_address");
      part == Share(c, f) && part.Ga? && Id.AnyGa([part]) == Some([part])
  {
    hide R.RowOf;
    StrippedPart(c, naming, f);
    AnyGaAt([Share(c, f)], 0);
  }

  /** Planned buttons carry no payload of their own. */
  lemma DefaultPayload(c: Candidate, naming: R.Naming)
    ensures Id.ButtonPayload(S.Strip(R.RowOf(c, naming))) == Some(Id.DEFAULT_BUTTON_PAYLOAD)
  {
    hide R.AddressFields;
    forall g ensures R.FieldKey(g) != "type" && R.FieldKey(g) != "payload" { PayloadKey(g); }
    NotInRow(c.settings.fields, R.FIELDS, "type");
    NotInRow(c.settings.fields, R.FIELDS, "payload");
    assert "type" != "scene_number" && "type" != "name" && "payload" != "scene_number" && "payload" != "name";
  }

  lemma PayloadKey(g: Field)
    ensures R.FieldKey(g) != "type" && R.FieldKey(g) != "payload"
  {
    match g
    case _ =>
  }

  lemma ButtonNative(c: Candidate, naming: R.Naming)
    requires Ready(c) && c.platform.Button?
    ensures NativeOf(c, naming) == Some(Shares(c))
  {
    hide R.RowOf;
    hide Shape;
    hide Id.PartAt;
    hide Id.ButtonPayload;
    hide CanonicalFields;
    SingleNative(c, naming, Address);
    DefaultPayload(c, naming);
  }

  lemma SceneNative(c: Candidate, naming: R.Naming)
    requires Ready(c) && c.platform.Scene?
    ensures NativeOf(c, naming) == Some(Shares(c))
  {
    hide R.RowOf;
    hide Shape;
    hide Id.PartAt;
    hide CanonicalFields;
    SingleNative(c, naming, Address);
    SceneField(c, naming);
  }

  lemma {:induction false} TwoParts(row: Id.Row, a: string, b: string)
    ensures Id.PartsAt(row, [a, b]) == [Id.PartAt(row, a), Id.PartAt(row, b)]
  {
    hide Id.PartAt;
    assert Id.PartsAt(row, [a, b])[..] == [Id.PartAt(row, a), Id.PartAt(row, b)];
  }

  lemma {:induction false} FourParts(row: Id.Row, a: string, b: string, c: string, d: string)
    ensures Id.PartsAt(row, [a, b, c, d]) == [Id.PartAt(row, a), Id.PartAt(row, b), Id.PartAt(row, c), Id.PartAt(row, d)]
  {
    hide Id.PartAt;
    assert Id.PartsAt(row, [a, b, c, d])[..]
        == [Id.PartAt(row, a), Id.PartAt(row, b), Id.PartAt(row, c), Id.PartAt(row, d)];
  }

  lemma CoverNative(c: Candidate, naming: R.Naming)
    requires Ready(c) && c.platform.Cover?
    ensures NativeOf(c, naming) == Some(Shares(c))
  {
    hide R.RowOf;
    hide Shape;
    hide CanonicalFields;
    hide Id.PartAt;
    hide Id.PartsAt;
    hide Id.AnyGa;
    StrippedPart(c, naming, MoveLongAddress);
    StrippedPart(c, naming, PositionAddress);
    TwoParts(S.Strip(R.RowOf(c, naming)), "move_long_address", "position_address");
    AnyGaAt(Shares(c), if MoveLongAddress in c.settings.fields then 0 else 1);
    assert Id.COVER_KEYS == ["move_long_address", "position_address"];
  }

  const SHIFT := "setpoint_shift_address"

  lemma ClimateKeys()
    ensures Id.CLIMATE_KEYS == [
      R.FieldKey(TemperatureAddress), R.FieldKey(TargetTemperatureStateAddress), R.FieldKey(TargetTemperatureAddress),
      SHIFT]
  {
  }

  lemma ClimateParts(c: Candidate, naming: R.Naming)
    requires Ready(c) && c.platform.Climate?
    ensures Id.PartsAt(S.Strip(R.RowOf(c, naming)), Id.CLIMATE_KEYS) == Shares(c)
  {
    hide R.RowOf;
    hide R.FieldKey;
    hide Shape;
    hide Identified;
    hide Id.PartAt;
    hide Id.PartsAt;
    hide Id.CLIMATE_KEYS;
    hide SHIFT;
    hide Share;
    ClimateKeys();
    NoShift(c, naming);
    StrippedPart(c, naming, TemperatureAddress);
    StrippedPart(c, naming, TargetTemperatureStateAddress);
    StrippedPart(c, naming, TargetTemperatureAddress);
    FourParts(S.Strip(R.RowOf(c, naming)), R.FieldKey(TemperatureAddress), R.FieldKey(TargetTemperatureStateAddress),
              R.FieldKey(TargetTemperatureAddress), SHIFT);
  }

  lemma ClimateNative(c: Candidate, naming: R.Naming)
    requires Ready(c) && c.platform.Climate?
    ensures NativeOf(c, naming) == Some(Shares(c))
  {
    hide R.RowOf;
    hide Shape;
    hide CanonicalFields;
    hide Id.PartsAt;
    hide Id.CLIMATE_KEYS;
    ClimateParts(c, naming);
    assert Shares(c)[0] == Share(c, TemperatureAddress) && TemperatureAddress in c.settings.fields;
    AnyGaAt(Shares(c), 0);
  }

  /** A planned row has a native identity, and this is it. */
  lemma HasNative(c: Candidate, naming: R.Naming)
    requires Ready(c)
    ensures NativeOf(c, naming) == Some(Shares(c))
  {
    hide R.RowOf;
    hide Shape;
    hide Id.PartAt;
    hide CanonicalFields;
    hide Id.AnyGa;
    match c.platform {
      case Light | Switch | Fan => SingleNative(c, naming, Address);
      case Button => ButtonNative(c, naming);
      case Scene => SceneNative(c, naming);
      case Sensor | BinarySensor => SingleNative(c, naming, StateAddress);
      case Cover => CoverNative(c, naming);
      case Climate => ClimateNative(c, naming);
    }
  }

  // ------------------------------------------------------- one claim, one identity

  /** The same field holds the same address, or neither has it. */
  predicate SameField(c: Candidate, d: Candidate, f: Field) {
    && (f in c.settings.fields <==> f in d.settings.fields)
    && (f in c.settings.fields ==> c.settings.fields[f] == d.settings.fields[f])
  }

  lemma ShareTells(c: Candidate, d: Candidate, f: Field)
    requires CanonicalFields(c.settings.fields) && CanonicalFields(d.settings.fields) && Share(c, f) == Share(d, f)
    ensures SameField(c, d, f)
  {
    hide RawOf;
    if f in c.settings.fields && f in d.settings.fields { RawTells(c.settings.fields[f], d.settings.fields[f]); }
  }

  lemma PrimaryIs(c: Candidate)
    ensures var fields := c.settings.fields;
      Primary(c) ==
        if Address in fields then Some(fields[Address])
        else if MoveLongAddress in fields then Some(fields[MoveLongAddress])
        else if PositionAddress in fields then Some(fields[PositionAddress])
        else if TargetTemperatureAddress in fields then Some(fields[TargetTemperatureAddress])
        else if OnOffAddress in fields then Some(fields[OnOffAddress])
        else if StateAddress in fields then Some(fields[StateAddress])
        else if TemperatureAddress in fields then Some(fields[TemperatureAddress])
        else None
  {
    var fields := c.settings.fields;
    var none: seq<Field> := [];
    var p6 := [TemperatureAddress] + none;
    var p5 := [StateAddress] + p6;
    var p4 := [OnOffAddress] + p5;
    var p3 := [TargetTemperatureAddress] + p4;
    var p2 := [PositionAddress] + p3;
    var p1 := [MoveLongAddress] + p2;
    var p0 := [Address] + p1;
    NextField(fields, TemperatureAddress, none);
    NextField(fields, StateAddress, p6);
    NextField(fields, OnOffAddress, p5);
    NextField(fields, TargetTemperatureAddress, p4);
    NextField(fields, PositionAddress, p3);
    NextField(fields, MoveLongAddress, p2);
    NextField(fields, Address, p1);
    hide FirstField;
    assert PRIMARY == p0;
  }

  lemma {:induction false} NextField(fields: Fields, f: Field, rest: seq<Field>)
    ensures FirstField(fields, [f] + rest) == if f in fields then Some(fields[f]) else FirstField(fields, rest)
    ensures FirstField(fields, []) == None
  {
    assert ([f] + rest)[1..] == rest;
  }

  /** Two climates of one native identity claim the same address; units by their command. */
  ghost predicate UnitsTold(c: Candidate, d: Candidate) {
    IsUnit(c) && IsUnit(d) ==>
      && OnOffAddress in c.settings.fields && OnOffAddress in d.settings.fields
      && (SameField(c, d, TemperatureAddress) ==> SameField(c, d, OnOffAddress))
  }

  /** What names an entity of these platforms first. */
  lemma CoverPrimary(c: Candidate)
    requires Ready(c) && c.platform.Cover?
    ensures var fields := c.settings.fields;
      ClaimOf(c) == Claim(if MoveLongAddress in fields then Some(fields[MoveLongAddress]) else Some(fields[PositionAddress]), None)
  {
    CoverHasNo();
    PrimaryIs(c);
    hide Primary;
    hide Allowed;
    hide CanonicalFields;
  }

  lemma CoverHasNo()
    ensures Address !in Shape(Id.Cover) && TargetTemperatureAddress !in Shape(Id.Cover)
  {
  }

  lemma ClimateHasNo()
    ensures Address !in Shape(Id.Climate) && MoveLongAddress !in Shape(Id.Climate)
    ensures PositionAddress !in Shape(Id.Climate)
  {
  }

  lemma ClimatePrimary(c: Candidate)
    requires Ready(c) && c.platform.Climate?
    ensures var fields := c.settings.fields;
      && (TargetTemperatureAddress in fields ==> ClaimOf(c) == Claim(Some(fields[TargetTemperatureAddress]), None))
      && (TargetTemperatureAddress !in fields && OnOffAddress in fields ==>
            ClaimOf(c) == Claim(Some(fields[OnOffAddress]), None))
  {
    ClimateHasNo();
    PrimaryIs(c);
    hide Primary;
    hide Allowed;
    hide CanonicalFields;
  }

  /** Everything else is named by its one address. */
  function SingleField(p: Platform): Field { if p.Sensor? || p.BinarySensor? then StateAddress else Address }

  lemma SensorHasNo()
    ensures Address !in Shape(Id.Sensor) && Address !in Shape(Id.BinarySensor)
    ensures MoveLongAddress !in Shape(Id.Sensor) && MoveLongAddress !in Shape(Id.BinarySensor)
    ensures PositionAddress !in Shape(Id.Sensor) && PositionAddress !in Shape(Id.BinarySensor)
    ensures TargetTemperatureAddress !in Shape(Id.Sensor) && TargetTemperatureAddress !in Shape(Id.BinarySensor)
    ensures OnOffAddress !in Shape(Id.Sensor) && OnOffAddress !in Shape(Id.BinarySensor)
  {
  }

  lemma SinglePrimary(c: Candidate)
    requires Ready(c) && !c.platform.Cover? && !c.platform.Climate?
    ensures var f := SingleField(c.platform); f in c.settings.fields && ClaimOf(c).primary == Some(c.settings.fields[f])
  {
    SensorHasNo();
    PrimaryIs(c);
    hide Primary;
    hide Allowed;
    hide CanonicalFields;
  }

  lemma SingleClaims(c: Candidate, d: Candidate)
    requires Ready(c) && Ready(d) && c.platform == d.platform && !c.platform.Cover? && !c.platform.Climate?
    requires Shares(c) == Shares(d)
    ensures ClaimOf(c) == ClaimOf(d)
  {
    hide Shape;
    hide Primary;
    hide CanonicalFields;
    hide Share;
    SinglePrimary(c);
    SinglePrimary(d);
    var f := SingleField(c.platform);
    assert Shares(c)[0] == Share(c, f) && Shares(d)[0] == Share(d, f);
    ShareTells(c, d, f);
    if c.platform.Scene? {
      assert Shares(c)[1] == Shares(d)[1];
      NumeralInjective(c.settings.scene.value, d.settings.scene.value);
    }
  }

  lemma CoverClaims(c: Candidate, d: Candidate)
    requires Ready(c) && Ready(d) && c.platform.Cover? && d.platform.Cover? && Shares(c) == Shares(d)
    ensures ClaimOf(c) == ClaimOf(d)
  {
    hide ClaimOf;
    hide Shape;
    hide CanonicalFields;
    hide Share;
    CoverPrimary(c);
    CoverPrimary(d);
    assert Shares(c)[0] == Shares(d)[0] && Shares(c)[1] == Shares(d)[1];
    ShareTells(c, d, MoveLongAddress);
    ShareTells(c, d, PositionAddress);
  }

  lemma ClimateClaims(c: Candidate, d: Candidate)
    requires Ready(c) && Ready(d) && c.platform.Climate? && d.platform.Climate? && Shares(c) == Shares(d)
    requires UnitsTold(c, d)
    ensures ClaimOf(c) == ClaimOf(d)
  {
    hide ClaimOf;
    hide Shape;
    hide CanonicalFields;
    hide Share;
    ClimatePrimary(c);
    ClimatePrimary(d);
    assert Shares(c)[0] == Shares(d)[0] && Shares(c)[2] == Shares(d)[2];
    ShareTells(c, d, TemperatureAddress);
    ShareTells(c, d, TargetTemperatureAddress);
  }

  lemma SameNativeSameClaim(c: Candidate, d: Candidate, naming: R.Naming)
    requires Ready(c) && Ready(d) && c.platform == d.platform && UnitsTold(c, d)
    requires NativeOf(c, naming) == NativeOf(d, naming)
    ensures ClaimOf(c) == ClaimOf(d)
  {
    hide NativeOf;
    hide Ready;
    hide ClaimOf;
    hide UnitsTold;
    HasNative(c, naming);
    HasNative(d, naming);
    match c.platform {
      case Cover => CoverClaims(c, d);
      case Climate => ClimateClaims(c, d);
      case _ => SingleClaims(c, d);
    }
  }

  // ---------------------------------------------------------------------- all rows

  /** Every planned candidate is ready, and no two units share their temperature. */
  ghost predicate AllReady(entities: seq<Candidate>) {
    && (forall c :: c in entities ==> Ready(c))
    && (forall c, d :: c in entities && d in entities ==> UnitsTold(c, d))
    && R.DistinctClaims(entities)
  }

  lemma NativesDiffer(entities: seq<Candidate>, naming: R.Naming, i: nat, j: nat, format: Id.Format)
    requires AllReady(entities) && i < j < |entities| && entities[i].platform == entities[j].platform
    ensures var p := entities[i].platform;
      Id.RowIdentity(p, S.Strip(R.RowOf(entities[i], naming)), format)
      != Id.RowIdentity(p, S.Strip(R.RowOf(entities[j], naming)), format)
  {
    hide R.RowOf;
    hide Ready;
    hide UnitsTold;
    hide ClaimOf;
    var c, d := entities[i], entities[j];
    StrippedUnnamed(c, naming);
    StrippedUnnamed(d, naming);
    Id.AgreeExactlyWhenPartsAgree(c.platform, S.Strip(R.RowOf(c, naming)), S.Strip(R.RowOf(d, naming)), format);
    assert ClaimOf(c) != ClaimOf(d);
    if NativeOf(c, naming) == NativeOf(d, naming) { SameNativeSameClaim(c, d, naming); }
  }

  lemma ReadyBefore(entities: seq<Candidate>, n: nat)
    requires AllReady(entities) && n <= |entities|
    ensures AllReady(entities[..n])
  {
    hide Ready;
    hide UnitsTold;
    hide ClaimOf;
    assert forall c :: c in entities[..n] ==> c in entities;
  }

  lemma {:induction false} StripsSnoc(rows: seq<Id.Row>, row: Id.Row)
    ensures T.Strips(rows + [row]) == T.Strips(rows) + [S.Strip(row)]
  {
    assert T.Strips(rows + [row])[..] == T.Strips(rows) + [S.Strip(row)];
  }

  lemma {:induction false} StrippedDiffer(entities: seq<Candidate>, naming: R.Naming, p: Platform, format: Id.Format)
    requires AllReady(entities)
    ensures P.DistinctRows(p, T.Strips(R.RowsFor(entities, naming, p)), format)
  {
    hide R.RowOf;
    hide AllReady;
    if entities != [] {
      var n := |entities| - 1;
      var before, c := entities[..n], entities[n];
      var rows := R.RowsFor(before, naming, p);
      ReadyBefore(entities, n);
      StrippedDiffer(before, naming, p, format);
      R.RowsForSpec(before, naming, p);
      if c.platform == p {
        var stripped := T.Strips(rows);
        forall x | x in stripped
          ensures Id.RowIdentity(p, x, format) != Id.RowIdentity(p, S.Strip(R.RowOf(c, naming)), format)
        {
          var k :| 0 <= k < |stripped| && stripped[k] == x;
          assert rows[k] in rows;
          var i: nat :| R.IsRowOf(before, naming, p, rows[k], i);
          assert entities[i] == before[i];
          NativesDiffer(entities, naming, i, n, format);
        }
        R.DistinctSnoc(p, stripped, S.Strip(R.RowOf(c, naming)), format);
        StripsSnoc(rows, R.RowOf(c, naming));
      } else {
        assert R.RowsFor(entities, naming, p) == rows;
      }
    }
  }

  lemma {:induction false} RowsHaveNatives(entities: seq<Candidate>, naming: R.Naming, p: Platform, format: Id.Format)
    requires AllReady(entities)
    ensures T.Native(p, R.RowsFor(entities, naming, p), format)
  {
    hide R.RowOf;
    hide Ready;
    R.RowsForSpec(entities, naming, p);
    forall row | row in R.RowsFor(entities, naming, p) ensures Id.RowIdentity(p, S.Strip(row), format).Some? {
      var i: nat :| R.IsRowOf(entities, naming, p, row, i);
      assert entities[i] in entities;
      HasNative(entities[i], naming);
      StrippedUnnamed(entities[i], naming);
      Id.IdentityOfParts(p, S.Strip(row), format);
    }
  }

  function PlanOf(entities: seq<Candidate>, naming: R.Naming, listing: set<Ga> -> seq<Ga>, skipped: seq<P.Skip>): P.Plan {
    P.Plan(R.ConfigOf(entities, naming), R.EntitiesOf(entities, naming, listing), skipped)
  }

  /** Planned entities adapt in every mode and format. */
  lemma PlannedAdapts(
    entities: seq<Candidate>, naming: R.Naming, listing: set<Ga> -> seq<Ga>, skipped: seq<P.Skip>, mode: S.Mode,
    format: Id.Format)
    requires AllReady(entities) && R.Injective(naming)
    ensures S.Adapt(PlanOf(entities, naming, listing, skipped), mode, format).Success?
  {
    hide R.ConfigOf;
    hide R.RowsFor;
    hide Ready;
    hide UnitsTold;
    hide ClaimOf;
    hide T.Native;
    hide P.DistinctRows;
    var plan := PlanOf(entities, naming, listing, skipped);
    R.PlannedRowsCorrespond(entities, naming, listing, format);
    if mode.Custom? {
      P.CorrespondingRowsIndexed(plan.config, plan.entities, format);
    } else {
      T.AdaptSucceedsExactly(plan, mode, format);
      forall p
        ensures T.Native(p, P.RowsOf(plan.config, p), format)
        ensures P.DistinctRows(p, T.Strips(P.RowsOf(plan.config, p)), format)
      {
        R.ConfigRows(entities, naming, p);
        RowsHaveNatives(entities, naming, p, format);
        StrippedDiffer(entities, naming, p, format);
      }
    }
  }

  /** A planned scene row, named or not, has its address and number. */
  lemma SceneRowValid(c: Candidate, naming: R.Naming, row: Id.Row)
    requires Ready(c) && c.platform.Scene? && (row == R.RowOf(c, naming) || row == S.Strip(R.RowOf(c, naming)))
    ensures S.SceneKeyOf(row).Success?
  {
    hide R.RowOf;
    hide Shape;
    hide Id.ParseAddress;
    RowField(c, naming, Address);
    SceneField(c, naming);
    SceneKeys(row, R.RowOf(c, naming));
    assert Id.Str(row["address"]) == c.settings.fields[Address];
    hide Id.Address;
  }

  /** Taking the name away leaves the address and the number. */
  lemma SceneKeys(row: Id.Row, named: Id.Row)
    requires "address" in named && "scene_number" in named && (row == named || row == S.Strip(named))
    ensures "address" in row && row["address"] == named["address"]
    ensures "scene_number" in row && row["scene_number"] == named["scene_number"]
  {
  }

  /** So no planned scene can be invalid when scenes are chosen. */
  lemma PlannedSelects(
    entities: seq<Candidate>, naming: R.Naming, listing: set<Ga> -> seq<Ga>, skipped: seq<P.Skip>, mode: S.Mode,
    excluded: set<S.SceneKey>, format: Id.Format)
    requires AllReady(entities) && R.Injective(naming)
    requires S.Adapt(PlanOf(entities, naming, listing, skipped), mode, format).Success?
    ensures S.Select(S.Adapt(PlanOf(entities, naming, listing, skipped), mode, format).value, excluded, format).Success?
  {
    hide R.RowOf;
    hide R.RowsFor;
    hide Ready;
    hide UnitsTold;
    hide ClaimOf;
    hide S.Select;
    var plan := PlanOf(entities, naming, listing, skipped);
    var adapted := S.Adapt(plan, mode, format).value;
    R.PlannedRowsCorrespond(entities, naming, listing, format);
    R.ConfigRows(entities, naming, Id.Scene);
    R.RowsForSpec(entities, naming, Id.Scene);
    var rows := R.RowsFor(entities, naming, Id.Scene);
    AdaptedSceneRows(plan, mode, format);
    forall row | row in P.RowsOf(adapted.config, Id.Scene) ensures S.SceneKeyOf(row).Success? {
      var original :| original in rows && (row == original || row == S.Strip(original));
      var i: nat :| R.IsRowOf(entities, naming, Id.Scene, original, i);
      assert entities[i] in entities;
      SceneRowValid(entities[i], naming, row);
    }
    C.SelectSucceedsExactly(adapted, excluded, format);
  }

  lemma AdaptedSceneRows(plan: P.Plan, mode: S.Mode, format: Id.Format)
    requires P.Corresponds(plan.config, plan.entities, format) && T.AllNamed(plan.config)
    requires S.Adapt(plan, mode, format).Success?
    ensures forall row :: row in P.RowsOf(S.Adapt(plan, mode, format).value.config, Id.Scene) ==>
      exists original :: original in P.RowsOf(plan.config, Id.Scene) && (row == original || row == S.Strip(original))
  {
    if !mode.Custom? {
      hide S.Adapt;
      T.AdaptSucceedsExactly(plan, mode, format);
      forall row | row in P.RowsOf(T.StripConfig(plan.config), Id.Scene)
        ensures exists original :: original in P.RowsOf(plan.config, Id.Scene) && row == S.Strip(original)
      {
        T.StrippedRowsUnnamed(plan.config, Id.Scene, row);
      }
    }
  }

  // ------------------------------------------------------------------ from a project

  /** The importer gives every address in its canonical form. */
  ghost predicate CanonicalRecords(records: seq<Record>) {
    forall r :: r in records && r.address.Some? ==> Canonical(r.address.value)
  }

  lemma {:induction false} GatheredCanonical(records: seq<Record>, s: State)
    requires CanonicalRecords(records) && forall a :: a in s.groups ==> Canonical(a)
    ensures forall a :: a in Gather(records, s).groups ==> Canonical(a)
    decreases |records|
  {
    hide Canonical;
    if records != [] {
      var r := records[0];
      assert records == [r] + records[1..];
      var next :=
        if r.address.None? || r.address.value == "0/0/0" then s.(issues := s.issues[r.key := InvalidGroupAddress])
        else
          var a := r.address.value;
          if a in s.groups && s.groups[a] != r.group then
            s.(issues := s.issues[a := DuplicateMetadata], blocked := s.blocked + {a})
          else s.(groups := s.groups[a := r.group]);
      GatheredCanonical(records[1..], next);
    }
  }

  lemma SoundIsReady(groups: map<Ga, Group>, dpts: map<Ga, Type>, c: Candidate)
    requires Sound(groups, dpts, c) && Uses(c) <= groups.Keys && forall a :: a in groups ==> Canonical(a)
    ensures Ready(c)
  {
    hide Admitted;
    hide FanAgrees;
    hide ColorAgrees;
    hide Canonical;
    hide Shape;
    hide Identified;
    forall f | f in c.settings.fields ensures c.settings.fields[f] in groups {
      assert c.settings.fields[f] in c.settings.fields.Values;
    }
  }

  /** Whatever the planner accepts of a project is ready. */
  lemma AcceptedAreReady(records: seq<Record>, script: Script)
    requires CanonicalRecords(records) && Proper(script) && Conclusion(PlanProject(records, script)).Success?
    ensures AllReady(Conclusion(PlanProject(records, script)).value.entities)
  {
    hide PlanProject;
    hide Sound;
    hide Ready;
    hide Canonical;
    hide Accepted;
    var s := PlanProject(records, script);
    var entities := Conclusion(s).value.entities;
    PlannedEntitiesAreSound(records, script);
    RunGrows(records, script);
    GatheredCanonical(records, NOTHING);
    UnitsAreApart(records, script);
    AcceptedAre(s, s.candidates, {});
    forall c | c in entities ensures Ready(c) && c in s.candidates {
      SoundIsReady(s.groups, s.dpts, c);
    }
    forall c, d | c in entities && d in entities ensures UnitsTold(c, d) {
      ApartTold(s, KeysOfPrefixes(script.climates), c, d);
    }
  }

  lemma ApartTold(s: State, keys: set<string>, c: Candidate, d: Candidate)
    requires Units(s, keys) && c in s.candidates && d in s.candidates
    ensures UnitsTold(c, d)
  {
    hide KeyIn;
  }

  /** Every project the planner accepts can be adapted in every mode, and all its scenes can be chosen from. */
  lemma EveryPlanAdapts(
    records: seq<Record>, script: Script, naming: R.Naming, listing: set<Ga> -> seq<Ga>, skipped: seq<P.Skip>,
    mode: S.Mode, excluded: set<S.SceneKey>, format: Id.Format)
    requires CanonicalRecords(records) && Proper(script) && R.Injective(naming)
    requires Conclusion(PlanProject(records, script)).Success?
    ensures var plan := PlanOf(Conclusion(PlanProject(records, script)).value.entities, naming, listing, skipped);
      && S.Adapt(plan, mode, format).Success?
      && S.Select(S.Adapt(plan, mode, format).value, excluded, format).Success?
  {
    hide *;
    AcceptedAreReady(records, script);
    var entities := Conclusion(PlanProject(records, script)).value.entities;
    PlannedAdapts(entities, naming, listing, skipped, mode, format);
    PlannedSelects(entities, naming, listing, skipped, mode, excluded, format);
  }
}
