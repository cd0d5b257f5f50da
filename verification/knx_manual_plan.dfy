/** Merging approved manual entities into an automatic plan. */
module KnxManualPlan {
  import opened Common
  import opened KnxIdentity
  import opened KnxPlan

  const PRESERVED := "existing_manual_or_ui_entity_preserved"

  function Keys(entities: seq<Entity>): set<Key> { set e | e in entities :: KeyOf(e) }

  function WithoutAddresses(skipped: seq<Skip>, used: set<string>): seq<Skip> {
    if skipped == [] then []
    else (if skipped[0].address in used then [] else [skipped[0]]) + WithoutAddresses(skipped[1..], used)
  }

  // ------------------------------------------------------------------ append

  /** The first reason an addition cannot join the base. */
  function AppendProblem(base: seq<Entity>, addition: seq<Entity>): Option<PlanError> {
    if addition == [] then None
    else if KeyOf(addition[0]) in Keys(base) then Some(EntityExists)
    else if !addition[0].platform.Scene? && AddressSet(addition[0]) * Mapped(base) != {} then Some(AddressExists)
    else AppendProblem(base, addition[1..])
  }

  /** Add new identities without modifying the ones there. */
  function Append(base: Plan, addition: Plan): Result<Plan, PlanError> {
    match AppendProblem(base.entities, addition.entities)
    case Some(error) => Failure(error)
    case None =>
      Success(Plan(Extend(base.config, addition.config), base.entities + addition.entities,
                   WithoutAddresses(base.skipped, Mapped(addition.entities))))
  }

  method AppendManualPlan(base: Plan, addition: Plan) returns (r: Result<Plan, PlanError>)
    ensures r == Append(base, addition)
  {
    var keys, addresses := Keys(base.entities), Mapped(base.entities);
    for i := 0 to |addition.entities|
      invariant AppendProblem(base.entities, addition.entities[i..]) ==
        AppendProblem(base.entities, addition.entities)
    {
      var entity := addition.entities[i];
      assert addition.entities[i..][1..] == addition.entities[i + 1..];
      if KeyOf(entity) in keys { return Failure(EntityExists); }
      if !entity.platform.Scene? && AddressSet(entity) * addresses != {} { return Failure(AddressExists); }
    }
    var config := base.config;
    for i := 0 to |addition.config|
      invariant Extend(config, addition.config[i..]) == Extend(base.config, addition.config)
    {
      assert addition.config[i..][1..] == addition.config[i + 1..];
      config := AddRows(config, addition.config[i].platform, addition.config[i].rows);
    }
    r := Success(Plan(config, base.entities + addition.entities,
                      WithoutAddresses(base.skipped, Mapped(addition.entities))));
  }

  lemma {:induction false} NoAppendProblem(base: seq<Entity>, addition: seq<Entity>)
    ensures AppendProblem(base, addition).None? <==>
      forall e :: e in addition ==>
        KeyOf(e) !in Keys(base) && (!e.platform.Scene? ==> AddressSet(e) * Mapped(base) == {})
  {
    if addition != [] {
      assert addition == [addition[0]] + addition[1..];
      NoAppendProblem(base, addition[1..]);
    }
  }

  lemma {:induction false} WithoutAddressesSpec(skipped: seq<Skip>, used: set<string>)
    ensures SkippedSet(WithoutAddresses(skipped, used)) == SkippedSet(skipped) - used
  {
    if skipped != [] {
      assert skipped == [skipped[0]] + skipped[1..];
      WithoutAddressesSpec(skipped[1..], used);
      SkippedCons(skipped[0], skipped[1..]);
      SkippedCons(skipped[0], WithoutAddresses(skipped[1..], used));
      assert [] + WithoutAddresses(skipped[1..], used) == WithoutAddresses(skipped[1..], used);
    }
  }

  lemma SkippedCons(s: Skip, rest: seq<Skip>)
    ensures SkippedSet([s] + rest) == {s.address} + SkippedSet(rest)
    ensures SkippedSet(rest + [s]) == {s.address} + SkippedSet(rest)
  {
    assert forall x :: x in [s] + rest <==> x == s || x in rest;
    assert forall x :: x in rest + [s] <==> x == s || x in rest;
  }

  // ---------------------------------------------------------------- preserve

  function SceneNumber(row: Row): Option<int> {
    if "scene_number" in row && row["scene_number"].Number? && 1 <= row["scene_number"].number <= 64
    then Some(row["scene_number"].number)
    else None
  }

  predicate DifferentScenes(a: Row, b: Row) {
    SceneNumber(a).Some? && SceneNumber(b).Some? && SceneNumber(a) != SceneNumber(b)
  }

  /** A scene row says which scene it is only by a whole number from 1 to 64; two differ when both say so differently. */
  lemma DifferentScenesExactly(a: Row, b: Row)
    ensures DifferentScenes(a, b) <==>
      exists m, n :: 1 <= m <= 64 && 1 <= n <= 64 && m != n && IsScene(a, m) && IsScene(b, n)
  {
    if DifferentScenes(a, b) {
      assert IsScene(a, SceneNumber(a).value) && IsScene(b, SceneNumber(b).value);
    }
  }

  predicate IsScene(row: Row, n: int) { "scene_number" in row && row["scene_number"] == Number(n) }

  predicate Overlap(a: Entity, b: Entity) { AddressSet(a) * AddressSet(b) != {} }

  /** Whether some approved entity displaces `e`; looking up a row that is not there is an error. */
  function Displaced(e: Entity, approved: seq<Entity>, auto: map<Key, Row>, manual: map<Key, Row>): Result<bool, PlanError>
    decreases |approved|
  {
    if approved == [] then Success(false)
    else
      var a := approved[0];
      if KeyOf(e) == KeyOf(a) then Success(true)
      else if !Overlap(e, a) then Displaced(e, approved[1..], auto, manual)
      else if e.platform.Scene? && a.platform.Scene? then
        if KeyOf(e) !in auto || KeyOf(a) !in manual then Failure(MissingRow)
        else if DifferentScenes(auto[KeyOf(e)], manual[KeyOf(a)]) then Displaced(e, approved[1..], auto, manual)
        else Success(true)
      else Success(true)
  }

  function Rejected(
    entities: seq<Entity>, approved: seq<Entity>, auto: map<Key, Row>, manual: map<Key, Row>, found: set<Key>)
    : Result<set<Key>, PlanError>
    decreases |entities|
  {
    if entities == [] then Success(found)
    else
      match Displaced(entities[0], approved, auto, manual)
      case Failure(error) => Failure(error)
      case Success(displaced) =>
        Rejected(entities[1..], approved, auto, manual, if displaced then found + {KeyOf(entities[0])} else found)
  }

  function KeepEntities(entities: seq<Entity>, rejected: set<Key>): seq<Entity> {
    if entities == [] then []
    else (if KeyOf(entities[0]) in rejected then [] else [entities[0]]) + KeepEntities(entities[1..], rejected)
  }

  function KeepRows(platform: Platform, rows: seq<Row>, rejected: set<Key>, format: Format): seq<Row> {
    if rows == [] then []
    else
      var key := RowKey(platform, rows[0], format);
      (if key.Some? && key.value in rejected then [] else [rows[0]])
      + KeepRows(platform, rows[1..], rejected, format)
  }

  /** The rows that stay; a platform left without rows disappears. */
  function KeepConfig(config: Config, rejected: set<Key>, format: Format): Config {
    if config == [] then []
    else
      var rows := KeepRows(config[0].platform, config[0].rows, rejected, format);
      (if rows == [] then [] else [Block(config[0].platform, rows)]) + KeepConfig(config[1..], rejected, format)
  }

  function SkipAddresses(addresses: seq<string>, skipped: seq<Skip>): seq<Skip>
    decreases |addresses|
  {
    if addresses == [] then skipped
    else
      SkipAddresses(addresses[1..],
                    if addresses[0] in SkippedSet(skipped) then skipped else skipped + [Skip(addresses[0], PRESERVED)])
  }

  function SkipRejected(entities: seq<Entity>, rejected: set<Key>, skipped: seq<Skip>): seq<Skip>
    decreases |entities|
  {
    if entities == [] then skipped
    else
      SkipRejected(entities[1..], rejected,
                   if KeyOf(entities[0]) in rejected then SkipAddresses(entities[0].addresses, skipped) else skipped)
  }

  function Retained(plan: Plan, rejected: set<Key>, format: Format): Plan {
    Plan(KeepConfig(plan.config, rejected, format), KeepEntities(plan.entities, rejected),
         SkipRejected(plan.entities, rejected, plan.skipped))
  }

  function RejectedBy(plan: Plan, manual: Plan, format: Format): Result<set<Key>, PlanError> {
    match (IndexedRows(plan.config, format), IndexedRows(manual.config, format))
    case (Success(auto), Success(approved)) => Rejected(plan.entities, manual.entities, auto, approved, {})
    case (Failure(error), _) => Failure(error)
    case (_, Failure(error)) => Failure(error)
  }

  /** Keep previously approved manual mappings authoritative over a new automatic plan. */
  function Preserve(plan: Plan, manual: Plan, format: Format): Result<Plan, PlanError> {
    match RejectedBy(plan, manual, format)
    case Failure(error) => Failure(error)
    case Success(rejected) =>
      match Append(Retained(plan, rejected, format), manual)
      case Failure(error) => Failure(error)
      case Success(merged) =>
        Success(merged.(skipped := WithoutAddresses(merged.skipped, Mapped(merged.entities))))
  }

  method FindRejected(plan: Plan, manual: Plan, format: Format) returns (r: Result<set<Key>, PlanError>)
    ensures r == RejectedBy(plan, manual, format)
  {
    var autoRows := IndexRowsOf(plan.config, format);
    if autoRows.Failure? { return Failure(autoRows.error); }
    var manualRows := IndexRowsOf(manual.config, format);
    if manualRows.Failure? { return Failure(manualRows.error); }
    var auto, approved := autoRows.value, manualRows.value;
    var rejected: set<Key> := {};
    for i := 0 to |plan.entities|
      invariant Rejected(plan.entities[i..], manual.entities, auto, approved, rejected) ==
        RejectedBy(plan, manual, format)
    {
      var entity := plan.entities[i];
      assert plan.entities[i..][1..] == plan.entities[i + 1..];
      var displaced, k := false, 0;
      while k < |manual.entities| && !displaced
        invariant 0 <= k <= |manual.entities|
        invariant Displaced(entity, manual.entities, auto, approved) ==
          if displaced then Success(true) else Displaced(entity, manual.entities[k..], auto, approved)
      {
        var a := manual.entities[k];
        assert manual.entities[k..][1..] == manual.entities[k + 1..];
        if KeyOf(entity) == KeyOf(a) {
          displaced := true;
        } else if Overlap(entity, a) {
          if entity.platform.Scene? && a.platform.Scene? {
            if KeyOf(entity) !in auto || KeyOf(a) !in approved { return Failure(MissingRow); }
            displaced := !DifferentScenes(auto[KeyOf(entity)], approved[KeyOf(a)]);
          } else {
            displaced := true;
          }
        }
        k := k + 1;
      }
      if displaced { rejected := rejected + {KeyOf(entity)}; }
    }
    r := Success(rejected);
  }

  method PreserveManualPlan(plan: Plan, manual: Plan, format: Format) returns (r: Result<Plan, PlanError>)
    ensures r == Preserve(plan, manual, format)
  {
    var found := FindRejected(plan, manual, format);
    if found.Failure? { return Failure(found.error); }
    var rejected := found.value;
    var skipped := plan.skipped;
    for i := 0 to |plan.entities|
      invariant SkipRejected(plan.entities[i..], rejected, skipped) ==
        SkipRejected(plan.entities, rejected, plan.skipped)
    {
      assert plan.entities[i..][1..] == plan.entities[i + 1..];
      if KeyOf(plan.entities[i]) in rejected {
        var addresses := plan.entities[i].addresses;
        ghost var before := skipped;
        for k := 0 to |addresses|
          invariant SkipAddresses(addresses[k..], skipped) == SkipAddresses(addresses, before)
        {
          assert addresses[k..][1..] == addresses[k + 1..];
          if addresses[k] !in SkippedSet(skipped) { skipped := skipped + [Skip(addresses[k], PRESERVED)]; }
        }
      }
    }
    var retained := Plan(KeepConfig(plan.config, rejected, format), KeepEntities(plan.entities, rejected), skipped);
    r := AppendManualPlan(retained, manual);
    if r.Success? {
      r := Success(r.value.(skipped := WithoutAddresses(r.value.skipped, Mapped(r.value.entities))));
    }
  }

  // ------------------------------------------------ what the selection means

  /** An automatic and an approved entity that cannot both stay. */
  predicate Clash(e: Entity, a: Entity, auto: map<Key, Row>, manual: map<Key, Row>)
    requires KeyOf(e) in auto && KeyOf(a) in manual
  {
    KeyOf(e) == KeyOf(a)
    || (Overlap(e, a)
        && !(e.platform.Scene? && a.platform.Scene? && DifferentScenes(auto[KeyOf(e)], manual[KeyOf(a)])))
  }

  lemma {:induction false} DisplacedExactlyByClash(
    e: Entity, approved: seq<Entity>, auto: map<Key, Row>, manual: map<Key, Row>)
    requires KeyOf(e) in auto && forall a :: a in approved ==> KeyOf(a) in manual
    ensures Displaced(e, approved, auto, manual) ==
      Success(exists a :: a in approved && Clash(e, a, auto, manual))
    decreases |approved|
  {
    if approved != [] {
      assert approved == [approved[0]] + approved[1..];
      DisplacedExactlyByClash(e, approved[1..], auto, manual);
    }
  }

  lemma {:induction false} RejectedExactlyClashing(
    entities: seq<Entity>, approved: seq<Entity>, auto: map<Key, Row>, manual: map<Key, Row>, found: set<Key>)
    requires forall e :: e in entities ==> KeyOf(e) in auto
    requires forall a :: a in approved ==> KeyOf(a) in manual
    requires DistinctEntities(entities) && forall e :: e in entities ==> KeyOf(e) !in found
    ensures var r := Rejected(entities, approved, auto, manual, found);
      && r.Success?
      && found <= r.value <= found + Keys(entities)
      && forall e :: e in entities ==>
           (KeyOf(e) in r.value <==> exists a :: a in approved && Clash(e, a, auto, manual))
    decreases |entities|
  {
    if entities != [] {
      var e, rest := entities[0], entities[1..];
      assert entities == [e] + rest;
      DisplacedExactlyByClash(e, approved, auto, manual);
      var displaced := Displaced(e, approved, auto, manual).value;
      assert forall x :: x in rest ==> KeyOf(x) != KeyOf(e);
      assert DistinctEntities(rest);
      RejectedExactlyClashing(rest, approved, auto, manual, if displaced then found + {KeyOf(e)} else found);
      var r := Rejected(entities, approved, auto, manual, found);
      assert KeyOf(e) in r.value ==> displaced;
    }
  }

  lemma {:induction false} KeepEntitiesSpec(entities: seq<Entity>, rejected: set<Key>)
    ensures var kept := KeepEntities(entities, rejected);
      && (forall e :: e in kept <==> e in entities && KeyOf(e) !in rejected)
      && (DistinctEntities(entities) ==> DistinctEntities(kept))
  {
    if entities != [] {
      var e, rest := entities[0], entities[1..];
      assert entities == [e] + rest;
      KeepEntitiesSpec(rest, rejected);
      var kept := KeepEntities(rest, rejected);
      assert KeepEntities(entities, rejected) == if KeyOf(e) in rejected then kept else [e] + kept;
      if DistinctEntities(entities) {
        assert DistinctEntities(rest) by {
          forall i, j | 0 <= i < j < |rest| ensures KeyOf(rest[i]) != KeyOf(rest[j]) {
            assert rest[i] == entities[i + 1] && rest[j] == entities[j + 1];
          }
        }
        forall x | x in kept ensures KeyOf(x) != KeyOf(e) {
          var j :| 0 <= j < |rest| && rest[j] == x;
          assert entities[j + 1] == x;
        }
      }
    }
  }

  lemma {:induction false} KeepRowsSpec(platform: Platform, rows: seq<Row>, rejected: set<Key>, format: Format)
    ensures var kept := KeepRows(platform, rows, rejected, format);
      && (forall row :: row in kept <==>
            row in rows
            && !(RowKey(platform, row, format).Some? && RowKey(platform, row, format).value in rejected))
      && (DistinctRows(platform, rows, format) ==> DistinctRows(platform, kept, format))
  {
    if rows != [] {
      var row, rest := rows[0], rows[1..];
      assert rows == [row] + rest;
      KeepRowsSpec(platform, rest, rejected, format);
      var kept := KeepRows(platform, rest, rejected, format);
      assert KeepRows(platform, rows, rejected, format) == kept
          || KeepRows(platform, rows, rejected, format) == [row] + kept;
      DistinctCons(platform, row, rest, format);
      DistinctCons(platform, row, kept, format);
    }
  }

  lemma {:induction false} ConsBlock(block: Block, rest: Config, p: Platform)
    ensures RowsOf([block] + rest, p) == if block.platform == p then block.rows else RowsOf(rest, p)
    ensures Dict(rest) && (forall b :: b in rest ==> b.platform != block.platform) ==> Dict([block] + rest)
  {
    assert ([block] + rest)[1..] == rest;
  }

  lemma {:induction false} KeepConfigPlatforms(config: Config, rejected: set<Key>, format: Format)
    ensures forall b :: b in KeepConfig(config, rejected, format) ==>
      exists c :: c in config && c.platform == b.platform
  {
    if config != [] {
      assert config == [config[0]] + config[1..];
      KeepConfigPlatforms(config[1..], rejected, format);
      forall b | b in KeepConfig(config, rejected, format) ensures exists c :: c in config && c.platform == b.platform {
        if b in KeepConfig(config[1..], rejected, format) {
          var c :| c in config[1..] && c.platform == b.platform;
          assert c in config;
        } else {
          assert config[0] in config && config[0].platform == b.platform;
        }
      }
    }
  }

  lemma {:induction false} KeepConfigDict(config: Config, rejected: set<Key>, format: Format)
    requires Dict(config)
    ensures Dict(KeepConfig(config, rejected, format))
  {
    if config != [] {
      hide KeepRows;
      var p0, rest := config[0].platform, config[1..];
      var rows, kept := KeepRows(p0, config[0].rows, rejected, format), KeepConfig(rest, rejected, format);
      OtherPlatforms(config);
      KeepConfigDict(rest, rejected, format);
      KeepConfigPlatforms(rest, rejected, format);
      ConsBlock(Block(p0, rows), kept, p0);
      assert rows == [] ==> KeepConfig(config, rejected, format) == kept;
    }
  }

  lemma {:induction false} KeepConfigSpec(config: Config, rejected: set<Key>, format: Format, p: Platform)
    requires Dict(config)
    ensures RowsOf(KeepConfig(config, rejected, format), p) == KeepRows(p, RowsOf(config, p), rejected, format)
    ensures Dict(KeepConfig(config, rejected, format))
  {
    KeepConfigDict(config, rejected, format);
    if config != [] {
      var p0, rest := config[0].platform, config[1..];
      var rows, kept := KeepRows(p0, config[0].rows, rejected, format), KeepConfig(rest, rejected, format);
      OtherPlatforms(config);
      KeepConfigSpec(rest, rejected, format, p);
      ConsBlock(Block(p0, rows), kept, p);
      assert rows == [] ==> KeepConfig(config, rejected, format) == kept;
      if p0 == p {
        KeepConfigPlatforms(rest, rejected, format);
        NoRows(kept, p);
        NoRows(rest, p);
      }
      hide KeepRows;
      hide Dict;
    }
  }

  lemma {:induction false} SkipAddressesSpec(addresses: seq<string>, skipped: seq<Skip>)
    ensures SkippedSet(SkipAddresses(addresses, skipped)) == SkippedSet(skipped) + set a | a in addresses
    decreases |addresses|
  {
    if addresses != [] {
      assert addresses == [addresses[0]] + addresses[1..];
      SkippedCons(Skip(addresses[0], PRESERVED), skipped);
      SkipAddressesSpec(addresses[1..],
                        if addresses[0] in SkippedSet(skipped) then skipped
                        else skipped + [Skip(addresses[0], PRESERVED)]);
    }
  }

  lemma {:induction false} SkipRejectedSpec(entities: seq<Entity>, rejected: set<Key>, skipped: seq<Skip>)
    ensures SkippedSet(SkipRejected(entities, rejected, skipped)) ==
      SkippedSet(skipped) + set e, a | e in entities && KeyOf(e) in rejected && a in e.addresses :: a
    decreases |entities|
  {
    if entities != [] {
      assert entities == [entities[0]] + entities[1..];
      SkipAddressesSpec(entities[0].addresses, skipped);
      SkipRejectedSpec(entities[1..], rejected,
                       if KeyOf(entities[0]) in rejected then SkipAddresses(entities[0].addresses, skipped) else skipped);
    }
  }

  // ---------------------------------------------------------------- theorems

  lemma RetainedCorresponds(plan: Plan, rejected: set<Key>, format: Format)
    requires Corresponds(plan.config, plan.entities, format)
    ensures var r := Retained(plan, rejected, format); Corresponds(r.config, r.entities, format)
  {
    var r := Retained(plan, rejected, format);
    KeepEntitiesSpec(plan.entities, rejected);
    forall p
      ensures RowsOf(r.config, p) == KeepRows(p, RowsOf(plan.config, p), rejected, format)
      ensures DistinctRows(p, RowsOf(r.config, p), format)
    {
      KeepConfigSpec(plan.config, rejected, format, p);
      KeepRowsSpec(p, RowsOf(plan.config, p), rejected, format);
    }
    assert Dict(r.config) by { KeepConfigSpec(plan.config, rejected, format, Light); }
    forall p, row | row in RowsOf(r.config, p)
      ensures RowKey(p, row, format).Some? && HasEntity(r.entities, RowKey(p, row, format).value)
    {
      KeepRowsSpec(p, RowsOf(plan.config, p), rejected, format);
      assert row in RowsOf(plan.config, p);
      var key := RowKey(p, row, format).value;
      assert HasEntity(plan.entities, key);
      var e :| e in plan.entities && KeyOf(e) == key;
      assert e in r.entities;
    }
    forall e | e in r.entities ensures HasRow(r.config, KeyOf(e), format) {
      var k := KeyOf(e);
      assert HasRow(plan.config, k, format);
      var row :| row in RowsOf(plan.config, k.platform) && RowIdentity(k.platform, row, format) == Some(k.uid);
      KeepRowsSpec(k.platform, RowsOf(plan.config, k.platform), rejected, format);
      assert RowKey(k.platform, row, format) == Some(k);
      assert row in RowsOf(r.config, k.platform);
    }
  }

  lemma DistinctConcat(platform: Platform, a: seq<Row>, b: seq<Row>, format: Format)
    requires DistinctRows(platform, a, format) && DistinctRows(platform, b, format)
    requires forall x, y :: x in a && y in b ==> RowIdentity(platform, x, format) != RowIdentity(platform, y, format)
    ensures DistinctRows(platform, a + b, format)
  {
    var c := a + b;
    forall i, j | 0 <= i < j < |c| ensures RowIdentity(platform, c[i], format) != RowIdentity(platform, c[j], format) {
      assert c[i] == if i < |a| then a[i] else b[i - |a|];
      assert c[j] == if j < |a| then a[j] else b[j - |a|];
      assert i < |a| <= j ==> a[i] in a && b[j - |a|] in b;
    }
  }

  /** Two plans in bijection whose identities do not meet stay in bijection side by side. */
  lemma {:induction false} JoinCorresponds(
    c1: Config, e1: seq<Entity>, c2: Config, e2: seq<Entity>, format: Format)
    requires Corresponds(c1, e1, format) && Corresponds(c2, e2, format)
    requires Keys(e1) !! Keys(e2)
    ensures Corresponds(Extend(c1, c2), e1 + e2, format)
    ensures forall p :: RowsOf(Extend(c1, c2), p) == RowsOf(c1, p) + RowsOf(c2, p)
  {
    var c, es := Extend(c1, c2), e1 + e2;
    RowsOfExtend(c1, c2, Light);
    assert Dict(c);
    forall p
      ensures RowsOf(c, p) == RowsOf(c1, p) + RowsOf(c2, p)
      ensures DistinctRows(p, RowsOf(c, p), format)
    {
      RowsOfExtend(c1, c2, p);
      forall x, y | x in RowsOf(c1, p) && y in RowsOf(c2, p)
        ensures RowIdentity(p, x, format) != RowIdentity(p, y, format)
      {
        assert HasEntity(e1, RowKey(p, x, format).value) && HasEntity(e2, RowKey(p, y, format).value);
        assert RowKey(p, x, format).value in Keys(e1) && RowKey(p, y, format).value in Keys(e2);
      }
      assert DistinctRows(p, RowsOf(c1, p), format) && DistinctRows(p, RowsOf(c2, p), format);
      DistinctConcat(p, RowsOf(c1, p), RowsOf(c2, p), format);
    }
    forall i, j | 0 <= i < j < |es| ensures KeyOf(es[i]) != KeyOf(es[j]) {
      assert i < |e1| <= j ==> KeyOf(es[i]) in Keys(e1) && KeyOf(es[j]) in Keys(e2);
    }
    forall p, row | row in RowsOf(c, p)
      ensures RowKey(p, row, format).Some? && HasEntity(es, RowKey(p, row, format).value)
    {
      assert row in RowsOf(c1, p) || row in RowsOf(c2, p);
      var own := if row in RowsOf(c1, p) then e1 else e2;
      assert HasEntity(own, RowKey(p, row, format).value);
      var e :| e in own && KeyOf(e) == RowKey(p, row, format).value;
      assert e in es;
    }
    forall e | e in es ensures HasRow(c, KeyOf(e), format) {
      var own := if e in e1 then c1 else c2;
      assert HasRow(own, KeyOf(e), format);
      var row :| row in RowsOf(own, e.platform) && RowIdentity(e.platform, row, format) == Some(e.uniqueId);
      assert row in RowsOf(c, e.platform);
    }
  }

  /** What stays of the automatic plan clashes with nothing approved. */
  lemma RetainedClashFree(plan: Plan, manual: Plan, format: Format)
    requires Corresponds(plan.config, plan.entities, format)
    requires Corresponds(manual.config, manual.entities, format)
    ensures RejectedBy(plan, manual, format).Success?
    ensures var auto := IndexedRows(plan.config, format).value;
      var approved := IndexedRows(manual.config, format).value;
      var rejected := RejectedBy(plan, manual, format).value;
      && (forall e :: e in plan.entities ==> KeyOf(e) in auto)
      && (forall a :: a in manual.entities ==> KeyOf(a) in approved)
      && rejected <= Keys(plan.entities)
      && (forall e :: e in plan.entities ==>
            (KeyOf(e) in rejected <==> exists a :: a in manual.entities && Clash(e, a, auto, approved)))
  {
    CorrespondingRowsIndexed(plan.config, plan.entities, format);
    CorrespondingRowsIndexed(manual.config, manual.entities, format);
    RejectedExactlyClashing(plan.entities, manual.entities, IndexedRows(plan.config, format).value,
                            IndexedRows(manual.config, format).value, {});
  }

  /**
    Merging never fails on plans whose rows and entities correspond, keeps every approved entity
    and row as it is, and keeps the correspondence.
   */
  lemma PreserveKeepsManual(plan: Plan, manual: Plan, format: Format)
    requires Corresponds(plan.config, plan.entities, format)
    requires Corresponds(manual.config, manual.entities, format)
    ensures Preserve(plan, manual, format).Success?
    ensures var r := Preserve(plan, manual, format).value;
      var kept := Retained(plan, RejectedBy(plan, manual, format).value, format);
      && r.entities == kept.entities + manual.entities
      && (forall p :: RowsOf(r.config, p) == RowsOf(kept.config, p) + RowsOf(manual.config, p))
      && Corresponds(r.config, r.entities, format)
  {
    RetainedClashFree(plan, manual, format);
    var rejected := RejectedBy(plan, manual, format).value;
    var kept := Retained(plan, rejected, format);
    RetainedCorresponds(plan, rejected, format);
    KeepEntitiesSpec(plan.entities, rejected);
    NoAppendProblem(kept.entities, manual.entities);
    forall a | a in manual.entities
      ensures KeyOf(a) !in Keys(kept.entities)
      ensures !a.platform.Scene? ==> AddressSet(a) * Mapped(kept.entities) == {}
    {
      var auto := IndexedRows(plan.config, format).value;
      var approved := IndexedRows(manual.config, format).value;
      assert forall e :: e in kept.entities ==> !Clash(e, a, auto, approved);
    }
    assert Keys(kept.entities) !! Keys(manual.entities);
    JoinCorresponds(kept.config, kept.entities, manual.config, manual.entities, format);
  }

  /** An automatic and an approved entity share an address only as two scenes with different numbers. */
  lemma SharedAddressesAreDifferentScenes(plan: Plan, manual: Plan, format: Format, e: Entity, a: Entity)
    requires Corresponds(plan.config, plan.entities, format)
    requires Corresponds(manual.config, manual.entities, format)
    requires RejectedBy(plan, manual, format).Success?
    requires e in Retained(plan, RejectedBy(plan, manual, format).value, format).entities && a in manual.entities
    requires Overlap(e, a)
    ensures e.platform.Scene? && a.platform.Scene? && KeyOf(e) != KeyOf(a)
    ensures exists x, y ::
      && x in RowsOf(plan.config, Scene) && RowIdentity(Scene, x, format) == Some(e.uniqueId)
      && y in RowsOf(manual.config, Scene) && RowIdentity(Scene, y, format) == Some(a.uniqueId)
      && DifferentScenes(x, y)
  {
    RetainedClashFree(plan, manual, format);
    var auto := IndexedRows(plan.config, format).value;
    var approved := IndexedRows(manual.config, format).value;
    KeepEntitiesSpec(plan.entities, RejectedBy(plan, manual, format).value);
    assert !Clash(e, a, auto, approved);
    var ek, ak := KeyOf(e), KeyOf(a);
    assert HasRow(plan.config, ek, format) && HasRow(manual.config, ak, format);
    var x :| x in RowsOf(plan.config, Scene) && RowIdentity(Scene, x, format) == Some(e.uniqueId);
    var y :| y in RowsOf(manual.config, Scene) && RowIdentity(Scene, y, format) == Some(a.uniqueId);
    IndexBlocksWorks(plan.config, format, map[]);
    IndexBlocksWorks(manual.config, format, map[]);
    assert RowKey(Scene, x, format) == Some(ek) && RowKey(Scene, y, format) == Some(ak);
  }

  lemma MappedConcat(a: seq<Entity>, b: seq<Entity>)
    ensures Mapped(a + b) == Mapped(a) + Mapped(b)
  {
    assert forall e :: e in a + b <==> e in a || e in b;
  }

  /** No address is lost, and none is both mapped and reported as skipped. */
  lemma PreserveLosesNoAddress(plan: Plan, manual: Plan, format: Format)
    requires Preserve(plan, manual, format).Success?
    ensures var r := Preserve(plan, manual, format).value;
      && Mapped(plan.entities) + SkippedSet(plan.skipped) + Mapped(manual.entities)
           == Mapped(r.entities) + SkippedSet(r.skipped)
      && Mapped(r.entities) !! SkippedSet(r.skipped)
  {
    var rejected := RejectedBy(plan, manual, format).value;
    var kept := Retained(plan, rejected, format);
    var merged := Append(kept, manual).value;
    var r := Preserve(plan, manual, format).value;
    MappedConcat(kept.entities, manual.entities);
    KeepEntitiesSpec(plan.entities, rejected);
    SkipRejectedSpec(plan.entities, rejected, plan.skipped);
    WithoutAddressesSpec(kept.skipped, Mapped(manual.entities));
    WithoutAddressesSpec(merged.skipped, Mapped(merged.entities));
    var lost := set e, a | e in plan.entities && KeyOf(e) in rejected && a in e.addresses :: a;
    assert Mapped(plan.entities) == Mapped(kept.entities) + lost;
  }
}
