/** A site whose identities change format, as when an upgrade ends the legacy identities, and the approvals it has. */
module KnxFormatChange {
  import opened Common
  import opened DecimalText
  import opened KnxIdentity
  import opened KnxPlan
  import opened KnxManualPlan
  import opened KnxPlanSteps
  import opened KnxPlanTheorems
  import opened KnxPlanFilter

  // --------------------------------------------------------- identities across formats

  lemma RenderingsDiffer(a: Raw, b: Raw, f: Format, g: Format)
    requires Rendering(a, f) == Rendering(b, g)
    ensures f == g
  {
    NumeralsReadBack(Levels(a, f));
    NumeralsReadBack(Levels(b, g));
    assert |Levels(a, f)| == |Levels(b, g)|;
  }

  lemma PartsHaveAddress(platform: Platform, row: Row)
    requires NativeParts(platform, row).Some?
    ensures exists i :: 0 <= i < |NativeParts(platform, row).value| && NativeParts(platform, row).value[i].Ga?
  {
    if platform.Button? || platform.Scene? || platform.Fan? {
      var parts := NativeParts(platform, row).value;
      assert parts[0].Ga? || exists i :: 0 <= i < |parts| && parts[i].Ga?;
    }
  }

  /** No identity of one format is an identity of another: each holds an address, written differently. */
  lemma FormatsNeverMeet(platform: Platform, a: Row, b: Row, f: Format, g: Format)
    requires Unnamed(a) && Unnamed(b)
    requires RowIdentity(platform, a, f).Some? && RowIdentity(platform, a, f) == RowIdentity(platform, b, g)
    ensures f == g
  {
    hide RowIdentity;
    hide NativeParts;
    IdentityOfParts(platform, a, f);
    IdentityOfParts(platform, b, g);
    var p, q := NativeParts(platform, a).value, NativeParts(platform, b).value;
    SameShape(platform, a, b);
    PartsHaveAddress(platform, a);
    RendersDiffer(p, q, f, g);
  }

  lemma RendersDiffer(p: seq<Part>, q: seq<Part>, f: Format, g: Format)
    requires Plausible(p) && Plausible(q) && Render(p, f) == Render(q, g)
    requires forall i :: 0 <= i < |p| && i < |q| ==> (p[i].Plain? <==> q[i].Plain?)
    requires exists i :: 0 <= i < |p| && p[i].Ga?
    ensures f == g
  {
    var s, t := PartTexts(p, f), PartTexts(q, g);
    forall i | 0 <= i < |p| ensures Lacks(s[i], '_') { PartHasNoSeparator(p[i], f); }
    forall i | 0 <= i < |q| ensures Lacks(t[i], '_') { PartHasNoSeparator(q[i], g); }
    SplitJoin(s, '_');
    SplitJoin(t, '_');
    var i :| 0 <= i < |p| && p[i].Ga?;
    assert s[i] == t[i];
    if q[i].Absent? { NoneIsNoAddress(p[i].raw, f); } else { RenderingsDiffer(p[i].raw, q[i].raw, f, g); }
  }

  // ------------------------------------------------------- identities and addresses

  lemma KeyMentions(row: Row, key: string)
    requires IsAddressKey(key) && PartAt(row, key).Ga?
    ensures AsLong(PartAt(row, key).raw) in RowAddresses(row)
  {
    var value := row[key];
    if value.Items? { assert value.items == [value.items[0]] + value.items[1..]; }
    assert AsLong(PartAt(row, key).raw) in FieldAddresses(key, value);
  }

  lemma AddressKeys()
    ensures IsAddressKey("address") && IsAddressKey("state_address") && IsAddressKey("switch_address")
    ensures forall i :: 0 <= i < |COVER_KEYS| ==> IsAddressKey(COVER_KEYS[i])
    ensures forall i :: 0 <= i < |CLIMATE_KEYS| ==> IsAddressKey(CLIMATE_KEYS[i])
  {
    assert "state_address"[5..] == "_address";
    assert "switch_address"[6..] == "_address";
    assert "move_long_address"[9..] == "_address";
    assert "position_address"[8..] == "_address";
    assert "temperature_address"[11..] == "_address";
    assert "target_temperature_state_address"[24..] == "_address";
    assert "target_temperature_address"[18..] == "_address";
    assert "setpoint_shift_address"[14..] == "_address";
  }

  /** A row mentions every address its identity is made of. */
  lemma IdentityIsMentioned(platform: Platform, row: Row, i: nat)
    requires NativeParts(platform, row).Some? && i < |NativeParts(platform, row).value|
    requires NativeParts(platform, row).value[i].Ga?
    ensures AsLong(NativeParts(platform, row).value[i].raw) in RowAddresses(row)
  {
    hide RowAddresses;
    hide IsAddressKey;
    AddressKeys();
    match platform
    case Cover => KeyMentions(row, COVER_KEYS[i]);
    case Climate => KeyMentions(row, CLIMATE_KEYS[i]);
    case Sensor | BinarySensor => KeyMentions(row, "state_address");
    case Fan => KeyMentions(row, if PartAt(row, "address").Ga? then "address" else "switch_address");
    case _ => KeyMentions(row, "address");
  }

  /** Two rows of one identity share an address. */
  lemma SameIdentityShares(platform: Platform, a: Row, b: Row, format: Format)
    requires Unnamed(a) && Unnamed(b)
    requires RowIdentity(platform, a, format).Some?
    requires RowIdentity(platform, a, format) == RowIdentity(platform, b, format)
    ensures RowAddresses(a) * RowAddresses(b) != {}
  {
    hide RowIdentity;
    hide NativeParts;
    hide RowAddresses;
    AgreeExactlyWhenPartsAgree(platform, a, b, format);
    IdentityOfParts(platform, a, format);
    PartsHaveAddress(platform, a);
    var parts := NativeParts(platform, a).value;
    var i :| 0 <= i < |parts| && parts[i].Ga?;
    IdentityIsMentioned(platform, a, i);
    IdentityIsMentioned(platform, b, i);
    assert AsLong(parts[i].raw) in RowAddresses(a) * RowAddresses(b);
  }

  // ------------------------------------------------------------------- emission

  /** A row goes through when it is left out or its entity is found. */
  predicate Passes(platform: Platform, row: Row, entities: seq<Entity>, manual: set<string>, format: Format) {
    RowAddresses(row) * manual != {}
    || (RowKey(platform, row, format).Some? && HasEntity(entities, RowKey(platform, row, format).value))
  }

  lemma {:induction false} EmitRowsExactly(
    platform: Platform, rows: seq<Row>, entities: seq<Entity>, manual: set<string>, format: Format, so: Emission)
    ensures EmitRows(platform, rows, entities, manual, format, so).Success? <==>
      forall row :: row in rows ==> Passes(platform, row, entities, manual, format)
    decreases |rows|
  {
    hide RowAddresses;
    hide RowKey;
    hide AddRows;
    hide HasEntity;
    hide LastWith;
    if rows != [] {
      var row := rows[0];
      assert rows == [row] + rows[1..] && row in rows;
      var collisions := RowAddresses(row) * manual;
      var key := RowKey(platform, row, format);
      if collisions != {} {
        EmitRowsExactly(platform, rows[1..], entities, manual, format, so.(reported := so.reported + collisions));
      } else if key.Some? {
        LastWithSpec(entities, key.value);
        if LastWith(entities, key.value).Some? {
          EmitRowsExactly(platform, rows[1..], entities, manual, format,
                          Emission(AddRows(so.config, platform, [row]),
                                   so.entities + [LastWith(entities, key.value).value], so.reported));
        }
      }
    }
  }

  ghost predicate AllPass(config: Config, entities: seq<Entity>, manual: set<string>, format: Format) {
    forall p, row :: row in RowsOf(config, p) ==> Passes(p, row, entities, manual, format)
  }

  lemma AllPassCons(config: Config, entities: seq<Entity>, manual: set<string>, format: Format)
    requires Dict(config) && config != []
    ensures AllPass(config, entities, manual, format) <==>
      && (forall row :: row in config[0].rows ==> Passes(config[0].platform, row, entities, manual, format))
      && AllPass(config[1..], entities, manual, format)
  {
    hide Passes;
    forall p ensures RowsOf(config[1..], p) == if p == config[0].platform then [] else RowsOf(config, p) {
      DictTail(config, p);
    }
    DictTail(config, config[0].platform);
    assert RowsOf(config, config[0].platform) == config[0].rows;
  }

  lemma {:induction false} EmitBlocksExactly(
    config: Config, entities: seq<Entity>, manual: set<string>, format: Format, so: Emission)
    requires Dict(config)
    ensures EmitBlocks(config, entities, manual, format, so).Success? <==> AllPass(config, entities, manual, format)
    decreases |config|
  {
    hide Passes;
    if config != [] {
      AllPassCons(config, entities, manual, format);
      DictTail(config, config[0].platform);
      EmitRowsExactly(config[0].platform, config[0].rows, entities, manual, format, so);
      var first := EmitRows(config[0].platform, config[0].rows, entities, manual, format, so);
      if first.Success? { EmitBlocksExactly(config[1..], entities, manual, format, first.value); }
    }
  }

  // ------------------------------------------------------------------- approvals

  ghost predicate AllUnnamed(config: Config) { forall p, row :: row in RowsOf(config, p) ==> Unnamed(row) }

  /** Every entity lists the addresses of its row. */
  ghost predicate Covers(config: Config, entities: seq<Entity>, format: Format) {
    forall e, row ::
      (e in entities && row in RowsOf(config, e.platform) && RowKey(e.platform, row, format) == Some(KeyOf(e)))
      ==> AddressSet(e) == RowAddresses(row)
  }

  /** A plan as deployed without names of its own. */
  ghost predicate Deployed(plan: Plan, format: Format) {
    Corresponds(plan.config, plan.entities, format) && AllUnnamed(plan.config) && Covers(plan.config, plan.entities, format)
  }

  lemma {:induction false} DisplacedUnlessFound(
    e: Entity, approved: seq<Entity>, auto: map<Key, Row>, manual: map<Key, Row>, a: Entity)
    requires Displaced(e, approved, auto, manual) == Success(false)
    requires a in approved && Overlap(e, a)
    ensures KeyOf(a) in manual
    decreases |approved|
  {
    hide Overlap;
    hide DifferentScenes;
    assert approved == [approved[0]] + approved[1..];
    if a != approved[0] { DisplacedUnlessFound(e, approved[1..], auto, manual, a); }
  }

  lemma {:induction false} RejectedHasDisplaced(
    entities: seq<Entity>, approved: seq<Entity>, auto: map<Key, Row>, manual: map<Key, Row>, found: set<Key>)
    requires Rejected(entities, approved, auto, manual, found).Success?
    ensures found <= Rejected(entities, approved, auto, manual, found).value
    ensures forall e :: e in entities && KeyOf(e) !in Rejected(entities, approved, auto, manual, found).value ==>
      Displaced(e, approved, auto, manual) == Success(false)
    decreases |entities|
  {
    hide Displaced;
    if entities != [] {
      assert entities == [entities[0]] + entities[1..];
      var displaced := Displaced(entities[0], approved, auto, manual);
      RejectedHasDisplaced(entities[1..], approved, auto, manual,
                           if displaced.value then found + {KeyOf(entities[0])} else found);
    }
  }

  lemma {:induction false} IndexRowsOnly(
    platform: Platform, rows: seq<Row>, format: Format, index: map<Key, Row>, k: Key)
    requires IndexRows(platform, rows, format, index).Success? && k in IndexRows(platform, rows, format, index).value
    ensures k in index || exists row :: row in rows && RowKey(platform, row, format) == Some(k)
    decreases |rows|
  {
    hide RowKey;
    if rows != [] {
      assert rows == [rows[0]] + rows[1..] && rows[0] in rows;
      var key := RowKey(platform, rows[0], format);
      IndexRowsOnly(platform, rows[1..], format, if key.Some? then index[key.value := rows[0]] else index, k);
    }
  }

  /** Whatever is indexed is the identity of a row. */
  lemma {:induction false} IndexBlocksOnly(config: Config, format: Format, index: map<Key, Row>, k: Key)
    requires Dict(config) && IndexBlocks(config, format, index).Success?
    requires k in IndexBlocks(config, format, index).value && k !in index
    ensures exists p, row :: row in RowsOf(config, p) && RowKey(p, row, format) == Some(k)
    decreases |config|
  {
    hide RowKey;
    if config != [] {
      var p0, rows0 := config[0].platform, config[0].rows;
      assert RowsOf(config, p0) == rows0;
      var more := IndexRows(p0, rows0, format, index).value;
      if k in more {
        IndexRowsOnly(p0, rows0, format, index, k);
      } else {
        IndexBlocksOnly(config[1..], format, more, k);
        var p, row :| row in RowsOf(config[1..], p) && RowKey(p, row, format) == Some(k);
        DictTail(config, p);
      }
    }
  }

  /** In the new format no row is found under an identity of the old one. */
  lemma OldIdentityUnknown(manual: Plan, before: Format, format: Format, a: Entity)
    requires Deployed(manual, before) && before != format && a in manual.entities
    ensures IndexedRows(manual.config, format).Success? ==> KeyOf(a) !in IndexedRows(manual.config, format).value
    ensures forall p, row :: row in RowsOf(manual.config, p) ==> RowKey(p, row, format) != Some(KeyOf(a))
  {
    hide RowIdentity;
    hide IndexedRows;
    assert HasRow(manual.config, KeyOf(a), before);
    var own :| own in RowsOf(manual.config, a.platform) && RowIdentity(a.platform, own, before) == Some(a.uniqueId);
    forall p, row | row in RowsOf(manual.config, p) ensures RowKey(p, row, format) != Some(KeyOf(a)) {
      if RowKey(p, row, format) == Some(KeyOf(a)) {
        FormatsNeverMeet(p, own, row, before, format);
        assert false;
      }
    }
    UnknownKeyNotIndexed(manual.config, format, KeyOf(a));
  }

  lemma {:induction false} UnknownKeyNotIndexed(config: Config, format: Format, k: Key)
    requires Dict(config) && forall p, row :: row in RowsOf(config, p) ==> RowKey(p, row, format) != Some(k)
    ensures IndexedRows(config, format).Success? ==> k !in IndexedRows(config, format).value
  {
    hide RowKey;
    if IndexedRows(config, format).Success? && k in IndexedRows(config, format).value {
      IndexBlocksOnly(config, format, map[], k);
    }
  }

  /** After the change, no merged entity answers to an approved row. */
  lemma {:induction false} ApprovedRowUnknown(
    plan: Plan, manual: Plan, before: Format, format: Format, p: Platform, row: Row)
    requires Deployed(plan, format) && Deployed(manual, before) && before != format
    requires Preserve(plan, manual, format).Success? && row in RowsOf(manual.config, p)
    ensures forall e :: e in Preserve(plan, manual, format).value.entities ==> RowKey(p, row, format) != Some(KeyOf(e))
  {
    hide RowIdentity;
    hide IndexedRows;
    hide RowAddresses;
    hide KeepConfig;
    hide Displaced;
    hide Append;
    var rejected := RejectedBy(plan, manual, format).value;
    var kept := Retained(plan, rejected, format);
    MergedEntities(kept, manual);
    KeepEntitiesSpec(plan.entities, rejected);
    forall e | e in Preserve(plan, manual, format).value.entities ensures RowKey(p, row, format) != Some(KeyOf(e)) {
      if e in manual.entities {
        OldIdentityUnknown(manual, before, format, e);
      } else if RowKey(p, row, format) == Some(KeyOf(e)) {
        assert HasRow(plan.config, KeyOf(e), format);
        var planned :| planned in RowsOf(plan.config, p) && RowIdentity(p, planned, format) == Some(e.uniqueId);
        SameIdentityShares(p, planned, row, format);
        assert HasEntity(manual.entities, RowKey(p, row, before).value);
        var a :| a in manual.entities && KeyOf(a) == RowKey(p, row, before).value;
        assert AddressSet(e) == RowAddresses(planned) && AddressSet(a) == RowAddresses(row);
        KeptIsClear(plan, manual, format, e, a);
        OldIdentityUnknown(manual, before, format, a);
        assert false;
      }
    }
  }

  lemma MergedEntities(kept: Plan, manual: Plan)
    ensures Append(kept, manual).Success? ==> Append(kept, manual).value.entities == kept.entities + manual.entities
    ensures Append(kept, manual).Success? ==> Append(kept, manual).value.config == Extend(kept.config, manual.config)
  {
  }

  /** An entity that stays meets only approved entities whose rows are found. */
  lemma KeptIsClear(plan: Plan, manual: Plan, format: Format, e: Entity, a: Entity)
    requires RejectedBy(plan, manual, format).Success?
    requires e in plan.entities && KeyOf(e) !in RejectedBy(plan, manual, format).value
    requires a in manual.entities && Overlap(e, a)
    ensures KeyOf(a) in IndexedRows(manual.config, format).value
  {
    hide IndexedRows;
    var auto, approved := IndexedRows(plan.config, format).value, IndexedRows(manual.config, format).value;
    RejectedHasDisplaced(plan.entities, manual.entities, auto, approved, {});
    DisplacedUnlessFound(e, manual.entities, auto, approved, a);
  }

  // ------------------------------------------------------------- merging across formats

  /** The approved entity a planned one meets first, in the order they were approved. */
  function FirstMet(e: Entity, approved: seq<Entity>): Option<Entity> {
    if approved == [] then None
    else if Overlap(e, approved[0]) then Some(approved[0])
    else FirstMet(e, approved[1..])
  }

  /** A planned scene that meets an approved scene first: their numbers have to be compared. */
  predicate SceneMeetsScene(e: Entity, approved: seq<Entity>) {
    e.platform.Scene? && FirstMet(e, approved).Some? && FirstMet(e, approved).value.platform.Scene?
  }

  lemma {:induction false} DisplacedAcross(
    e: Entity, approved: seq<Entity>, auto: map<Key, Row>, manual: map<Key, Row>)
    requires forall a :: a in approved ==> KeyOf(a) != KeyOf(e) && KeyOf(a) !in manual
    ensures Displaced(e, approved, auto, manual) ==
      if SceneMeetsScene(e, approved) then Failure(MissingRow) else Success(FirstMet(e, approved).Some?)
    decreases |approved|
  {
    hide Overlap;
    if approved != [] {
      assert approved == [approved[0]] + approved[1..];
      DisplacedAcross(e, approved[1..], auto, manual);
    }
  }

  lemma {:induction false} RejectedAcross(
    entities: seq<Entity>, approved: seq<Entity>, auto: map<Key, Row>, manual: map<Key, Row>, found: set<Key>)
    requires forall e, a :: e in entities && a in approved ==> KeyOf(a) != KeyOf(e) && KeyOf(a) !in manual
    ensures Rejected(entities, approved, auto, manual, found).Success? <==>
      forall e :: e in entities ==> !SceneMeetsScene(e, approved)
    decreases |entities|
  {
    hide Displaced;
    hide SceneMeetsScene;
    if entities != [] {
      var e := entities[0];
      assert entities == [e] + entities[1..];
      DisplacedAcross(e, approved, auto, manual);
      if !SceneMeetsScene(e, approved) {
        var displaced := Displaced(e, approved, auto, manual).value;
        RejectedAcross(entities[1..], approved, auto, manual, if displaced then found + {KeyOf(e)} else found);
      }
    }
  }

  /** What was approved can still be indexed: its rows differ in every format or in none. */
  lemma IndexedAcross(manual: Plan, before: Format, format: Format)
    requires Deployed(manual, before)
    ensures IndexedRows(manual.config, format).Success?
  {
    hide RowIdentity;
    forall p ensures DistinctRows(p, RowsOf(manual.config, p), format) {
      assert DistinctRows(p, RowsOf(manual.config, p), before);
      DistinctSame(p, RowsOf(manual.config, p), before);
      DistinctSame(p, RowsOf(manual.config, p), format);
    }
    forall p, row | row in RowsOf(manual.config, p) ensures RowKey(p, row, format).Some? {
      assert RowKey(p, row, before).Some?;
      IdentityCommutesWithFormat(p, row, before);
      IdentityCommutesWithFormat(p, row, format);
    }
    IndexBlocksWorks(manual.config, format, map[]);
  }

  /** No approved entity has the identity of a planned one any more. */
  lemma KeysAcross(plan: Plan, manual: Plan, before: Format, format: Format, e: Entity, a: Entity)
    requires Deployed(plan, format) && Deployed(manual, before) && before != format
    requires e in plan.entities && a in manual.entities
    ensures KeyOf(a) != KeyOf(e)
  {
    hide RowIdentity;
    assert HasRow(plan.config, KeyOf(e), format) && HasRow(manual.config, KeyOf(a), before);
    var x :| x in RowsOf(plan.config, e.platform) && RowIdentity(e.platform, x, format) == Some(e.uniqueId);
    var y :| y in RowsOf(manual.config, a.platform) && RowIdentity(a.platform, y, before) == Some(a.uniqueId);
    if KeyOf(a) == KeyOf(e) { FormatsNeverMeet(e.platform, x, y, format, before); }
  }

  /** After the change merging fails exactly when a planned scene meets an approved scene first. */
  lemma MergeAcrossExactly(plan: Plan, manual: Plan, before: Format, format: Format)
    requires Deployed(plan, format) && Deployed(manual, before) && before != format
    ensures Preserve(plan, manual, format).Success? <==>
      forall e :: e in plan.entities ==> !SceneMeetsScene(e, manual.entities)
  {
    hide IndexedRows;
    hide Rejected;
    hide SceneMeetsScene;
    hide KeepConfig;
    hide SkipRejected;
    CorrespondingRowsIndexed(plan.config, plan.entities, format);
    IndexedAcross(manual, before, format);
    var auto, approved := IndexedRows(plan.config, format).value, IndexedRows(manual.config, format).value;
    forall e, a | e in plan.entities && a in manual.entities ensures KeyOf(a) != KeyOf(e) && KeyOf(a) !in approved {
      KeysAcross(plan, manual, before, format, e, a);
      OldIdentityUnknown(manual, before, format, a);
    }
    RejectedAcross(plan.entities, manual.entities, auto, approved, {});
    if RejectedBy(plan, manual, format).Success? { AppendsAcross(plan, manual, before, format); }
  }

  /** What is left of the plan never stands in the way of what was approved. */
  lemma AppendsAcross(plan: Plan, manual: Plan, before: Format, format: Format)
    requires Deployed(plan, format) && Deployed(manual, before) && before != format
    requires RejectedBy(plan, manual, format).Success?
    ensures AppendProblem(KeepEntities(plan.entities, RejectedBy(plan, manual, format).value), manual.entities).None?
  {
    hide RejectedBy;
    var rejected := RejectedBy(plan, manual, format).value;
    var kept := KeepEntities(plan.entities, rejected);
    KeepEntitiesSpec(plan.entities, rejected);
    NoAppendProblem(kept, manual.entities);
    forall a | a in manual.entities
      ensures KeyOf(a) !in Keys(kept) && AddressSet(a) * Mapped(kept) == {}
    {
      forall e | e in kept ensures KeyOf(a) != KeyOf(e) && AddressSet(e) * AddressSet(a) == {} {
        KeysAcross(plan, manual, before, format, e, a);
        KeptApart(plan, manual, before, format, e, a);
      }
    }
  }

  lemma KeptApart(plan: Plan, manual: Plan, before: Format, format: Format, e: Entity, a: Entity)
    requires Deployed(manual, before) && before != format && RejectedBy(plan, manual, format).Success?
    requires e in plan.entities && KeyOf(e) !in RejectedBy(plan, manual, format).value && a in manual.entities
    ensures !Overlap(e, a)
  {
    hide IndexedRows;
    hide Deployed;
    if Overlap(e, a) {
      KeptIsClear(plan, manual, format, e, a);
      OldIdentityUnknown(manual, before, format, a);
    }
  }

  // -------------------------------------------------------------------- theorems

  /** Merge what was approved, then keep clear of the site's own configuration. */
  function Redeploy(
    plan: Plan, manual: Plan, existing: Config, previous: Option<Previous>, ui: set<string>, format: Format)
    : Result<(Emission, Config), PlanError>
  {
    match Preserve(plan, manual, format)
    case Failure(error) => Failure(error)
    case Success(merged) => Filter(merged, existing, previous, ui, format)
  }

  /**
    After a change of format, such as an upgrade that ends legacy identities with two- or one-level addresses, a
    plan made anew can be deployed exactly when no planned scene meets an approved scene first, the site's
    configuration repeats no identity, and every approved row shares an address with the site's own configuration.
   */
  lemma ApprovalsBlockFormatChangeExactly(
    plan: Plan, manual: Plan, before: Format, format: Format, existing: Config, previous: Option<Previous>,
    ui: set<string>)
    requires Deployed(plan, format) && Deployed(manual, before) && before != format
    ensures Redeploy(plan, manual, existing, previous, ui, format).Success? <==>
      && (forall e :: e in plan.entities ==> !SceneMeetsScene(e, manual.entities))
      && IndexedRows(existing, format).Success?
      && forall p, row :: row in RowsOf(manual.config, p) ==>
           RowAddresses(row) * Manual(existing, previous, ui, format) != {}
  {
    hide Preserve;
    hide Filter;
    hide Deployed;
    hide SceneMeetsScene;
    hide IndexedRows;
    hide RowAddresses;
    hide Manual;
    hide RowsOf;
    MergeAcrossExactly(plan, manual, before, format);
    if Preserve(plan, manual, format).Success? {
      MergedFilterExactly(plan, manual, before, format, existing, previous, ui);
    }
  }

  lemma MergedFilterExactly(
    plan: Plan, manual: Plan, before: Format, format: Format, existing: Config, previous: Option<Previous>,
    ui: set<string>)
    requires Deployed(plan, format) && Deployed(manual, before) && before != format
    requires Preserve(plan, manual, format).Success?
    ensures Filter(Preserve(plan, manual, format).value, existing, previous, ui, format).Success? <==>
      && IndexedRows(existing, format).Success?
      && forall p, row :: row in RowsOf(manual.config, p) ==>
           RowAddresses(row) * Manual(existing, previous, ui, format) != {}
  {
    hide *;
    var merged, taken := Preserve(plan, manual, format).value, Manual(existing, previous, ui, format);
    DeployedDict(plan, format);
    DeployedDict(manual, before);
    MergedRows(plan, manual, format, Light);
    EmitBlocksExactly(merged.config, merged.entities, taken, format, Emission([], [], {}));
    FilterSucceeds(merged, existing, previous, ui, format);
    MergedPassesExactly(plan, manual, before, format, taken);
  }

  lemma DeployedDict(plan: Plan, format: Format)
    requires Deployed(plan, format)
    ensures Dict(plan.config)
  {
  }

  lemma {:induction false} FilterSucceeds(
    plan: Plan, existing: Config, previous: Option<Previous>, ui: set<string>, format: Format)
    ensures Filter(plan, existing, previous, ui, format).Success? <==>
      && IndexedRows(existing, format).Success?
      && EmitBlocks(plan.config, plan.entities, Manual(existing, previous, ui, format), format,
                    Emission([], [], {})).Success?
  {
    hide IndexedRows;
    hide EmitBlocks;
    hide Manual;
  }

  lemma MergedPassesExactly(plan: Plan, manual: Plan, before: Format, format: Format, taken: set<string>)
    requires Deployed(plan, format) && Deployed(manual, before) && before != format
    requires Preserve(plan, manual, format).Success?
    ensures AllPass(Preserve(plan, manual, format).value.config, Preserve(plan, manual, format).value.entities,
                    taken, format) <==>
      forall p, row :: row in RowsOf(manual.config, p) ==> RowAddresses(row) * taken != {}
  {
    hide Preserve;
    hide RowAddresses;
    hide RowsOf;
    hide Passes;
    hide Deployed;
    var merged := Preserve(plan, manual, format).value;
    if forall p, row :: row in RowsOf(manual.config, p) ==> RowAddresses(row) * taken != {} {
      forall p, row | row in RowsOf(merged.config, p) ensures Passes(p, row, merged.entities, taken, format) {
        MergedRowPasses(plan, manual, before, format, p, row, taken);
      }
      assert AllPass(merged.config, merged.entities, taken, format);
    } else {
      var p, row :| row in RowsOf(manual.config, p) && RowAddresses(row) * taken == {};
      ApprovedRowPassesExactly(plan, manual, before, format, p, row, taken);
      assert !Passes(p, row, merged.entities, taken, format);
    }
  }

  lemma {:induction false} ApprovedRowPassesExactly(
    plan: Plan, manual: Plan, before: Format, format: Format, p: Platform, row: Row, taken: set<string>)
    requires Deployed(plan, format) && Deployed(manual, before) && before != format
    requires Preserve(plan, manual, format).Success? && row in RowsOf(manual.config, p)
    ensures row in RowsOf(Preserve(plan, manual, format).value.config, p)
    ensures Passes(p, row, Preserve(plan, manual, format).value.entities, taken, format) <==>
      RowAddresses(row) * taken != {}
  {
    hide Preserve;
    hide RowAddresses;
    hide RowsOf;
    hide RowKey;
    hide Corresponds;
    hide Covers;
    hide AllUnnamed;
    DeployedDict(plan, format);
    DeployedDict(manual, before);
    MergedRows(plan, manual, format, p);
    ApprovedRowUnknown(plan, manual, before, format, p, row);
  }

  lemma {:induction false} MergedRowPasses(
    plan: Plan, manual: Plan, before: Format, format: Format, p: Platform, row: Row, taken: set<string>)
    requires Deployed(plan, format) && Deployed(manual, before) && before != format
    requires Preserve(plan, manual, format).Success? && row in RowsOf(Preserve(plan, manual, format).value.config, p)
    requires row in RowsOf(manual.config, p) ==> RowAddresses(row) * taken != {}
    ensures Passes(p, row, Preserve(plan, manual, format).value.entities, taken, format)
  {
    hide Preserve;
    hide RowAddresses;
    hide RowsOf;
    hide RowKey;
    hide HasEntity;
    hide Corresponds;
    hide Covers;
    hide AllUnnamed;
    DeployedDict(plan, format);
    DeployedDict(manual, before);
    MergedRows(plan, manual, format, p);
    if row !in RowsOf(manual.config, p) { KeptRowPasses(plan, manual, format, p, row, taken); }
  }

  lemma {:induction false} MergedRows(plan: Plan, manual: Plan, format: Format, p: Platform)
    requires Dict(plan.config) && Dict(manual.config) && Preserve(plan, manual, format).Success?
    ensures RejectedBy(plan, manual, format).Success?
    ensures var merged := Preserve(plan, manual, format).value;
      var kept := Retained(plan, RejectedBy(plan, manual, format).value, format);
      && Dict(merged.config)
      && RowsOf(merged.config, p) == RowsOf(kept.config, p) + RowsOf(manual.config, p)
      && merged.entities == kept.entities + manual.entities
  {
    hide Append;
    hide RejectedBy;
    hide Extend;
    hide KeepConfig;
    hide KeepEntities;
    hide SkipRejected;
    hide WithoutAddresses;
    var rejected := RejectedBy(plan, manual, format).value;
    var kept := Retained(plan, rejected, format);
    MergedEntities(kept, manual);
    KeepConfigSpec(plan.config, rejected, format, p);
    RowsOfExtend(kept.config, manual.config, p);
  }

  lemma {:induction false} KeptRowPasses(
    plan: Plan, manual: Plan, format: Format, p: Platform, row: Row, taken: set<string>)
    requires Corresponds(plan.config, plan.entities, format) && Dict(manual.config)
    requires Preserve(plan, manual, format).Success?
    requires RejectedBy(plan, manual, format).Success?
    requires row in RowsOf(Retained(plan, RejectedBy(plan, manual, format).value, format).config, p)
    ensures Passes(p, row, Preserve(plan, manual, format).value.entities, taken, format)
  {
    hide RowKey;
    hide Preserve;
    hide RejectedBy;
    hide Retained;
    MergedRows(plan, manual, format, p);
    var rejected := RejectedBy(plan, manual, format).value;
    RetainedCorresponds(plan, rejected, format);
    var kept := Retained(plan, rejected, format);
    assert HasEntity(kept.entities, RowKey(p, row, format).value);
  }

  // ------------------------------------------------------------------ an approved switch

  function SwitchRow(name: string): Row { map["name" := Text(name), "address" := Text(AsLong(1))] }

  /** As a legacy deployment stores it on a site with two-level addresses. */
  function ApprovedSwitch(name: string): Plan {
    Plan([Block(Switch, [SwitchRow(name)])], [SwitchEntity()], [])
  }

  function SwitchEntity(): Entity { Entity(Switch, Rendering(1, Short), Some(AsLong(1)), [AsLong(1)]) }

  lemma SwitchIdentity(name: string, format: Format)
    ensures RowIdentity(Switch, SwitchRow(name), format) == Some(Rendering(1, format))
    ensures Unnamed(SwitchRow(name))
  {
    hide FormatNativeIdentity;
    var row := SwitchRow(name);
    RenderingReadsBack(1, Long);
    PrimaryIsPart(row, "address", format);
    assert PartAt(row, "address") == Ga(1);
  }

  lemma SwitchFields(name: string)
    ensures FieldAddresses("name", Text(name)) == {} && FieldAddresses("address", Text(AsLong(1))) == {AsLong(1)}
  {
    hide Address;
    hide Rendering;
    AddressInverts(AsLong(1), 1, Long);
    assert !IsAddressKey("name") && IsAddressKey("address");
    assert NestedAddresses(Text(name)) == {} && NestedAddresses(Text(AsLong(1))) == {};
  }

  lemma SwitchAddresses(name: string)
    ensures RowAddresses(SwitchRow(name)) == {AsLong(1)}
  {
    hide FieldAddresses;
    hide AsLong;
    SwitchFields(name);
    var row := SwitchRow(name);
    assert "address" in row && row["address"] == Text(AsLong(1));
  }

  lemma SwitchDeployed(name: string)
    ensures Deployed(ApprovedSwitch(name), Short)
    ensures forall p :: RowsOf(ApprovedSwitch(name).config, p) == if p == Switch then [SwitchRow(name)] else []
  {
    hide RowIdentity;
    hide RowAddresses;
    hide SwitchRow;
    hide Rendering;
    var manual, row, e := ApprovedSwitch(name), SwitchRow(name), SwitchEntity();
    SwitchIdentity(name, Short);
    SwitchAddresses(name);
    assert AddressSet(e) == {AsLong(1)};
    forall p ensures RowsOf(manual.config, p) == if p == Switch then [row] else [] { }
    assert row in RowsOf(manual.config, Switch) && e in manual.entities;
    assert HasRow(manual.config, KeyOf(e), Short);
    assert HasEntity(manual.entities, RowKey(Switch, row, Short).value);
  }

  /** The switch's generated row is the previous deployment's own, so nothing on the site is taken. */
  lemma SwitchOwned(name: string)
    ensures Manual([Block(Switch, [SwitchRow(name)])], Some(Previous(Legacy, [SwitchEntity()])), {}, Long) == {}
  {
    hide RowIdentity;
    hide SwitchRow;
    hide Rendering;
    var row, existing, previous := SwitchRow(name), [Block(Switch, [SwitchRow(name)])], Previous(Legacy, [SwitchEntity()]);
    var owned := Owned(Some(previous), Long);
    SwitchIdentity(name, Long);
    assert SwitchEntity() in previous.entities;
    assert Key(Switch, AsLong(1)) in owned;
    var none: seq<Row> := [row][1..];
    assert none == [] && existing[1..] == [];
    assert UnownedRows(Switch, [row], owned, Long) == [];
    assert ManualAddresses(existing, owned, Long) == {};
  }

  /**
    One switch approved under two-level addresses, its generated row still the site's whole configuration: after
    the upgrade to canonical identities no plan whatever can be deployed.
   */
  lemma ApprovedSwitchBlocksUpgrade(name: string, plan: Plan)
    requires Deployed(plan, Long)
    ensures Deployed(ApprovedSwitch(name), Short)
    ensures Redeploy(plan, ApprovedSwitch(name), [Block(Switch, [SwitchRow(name)])],
                     Some(Previous(Legacy, [SwitchEntity()])), {}, Long).Failure?
  {
    hide *;
    SwitchDeployed(name);
    SwitchOwned(name);
    var existing, previous := [Block(Switch, [SwitchRow(name)])], Some(Previous(Legacy, [SwitchEntity()]));
    var manual := ApprovedSwitch(name);
    ApprovalsBlockFormatChangeExactly(plan, manual, Short, Long, existing, previous, {});
    assert SwitchRow(name) in RowsOf(manual.config, Switch);
    assert RowAddresses(SwitchRow(name)) * {} == {};
  }
}
