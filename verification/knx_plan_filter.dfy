/** The site's own configuration stays in charge: what an emitted plan may touch. */
module KnxPlanFilter {
  import opened Common
  import opened KnxIdentity
  import opened KnxPlan
  import opened KnxManualPlan
  import opened KnxPlanSteps
  import opened KnxPlanTheorems
  import opened KnxSceneChoice

  /** The rows that mention no manual address. */
  function FreeRows(rows: seq<Row>, manual: set<string>): seq<Row> {
    if rows == [] then []
    else (if RowAddresses(rows[0]) * manual == {} then [rows[0]] else []) + FreeRows(rows[1..], manual)
  }

  function Collisions(rows: seq<Row>, manual: set<string>): set<string> {
    if rows == [] then {} else RowAddresses(rows[0]) * manual + Collisions(rows[1..], manual)
  }

  lemma {:induction false} FreeRowsSpec(platform: Platform, rows: seq<Row>, manual: set<string>, format: Format)
    ensures forall row :: row in FreeRows(rows, manual) <==> row in rows && RowAddresses(row) * manual == {}
    ensures forall row :: row in rows ==> RowAddresses(row) * manual <= Collisions(rows, manual)
    ensures DistinctRows(platform, rows, format) ==> DistinctRows(platform, FreeRows(rows, manual), format)
  {
    if rows != [] {
      var row, rest := rows[0], rows[1..];
      assert rows == [row] + rest;
      FreeRowsSpec(platform, rest, manual, format);
      var free := FreeRows(rest, manual);
      assert FreeRows(rows, manual) == free || FreeRows(rows, manual) == [row] + free;
      DistinctCons(platform, row, rest, format);
      DistinctCons(platform, row, free, format);
    }
  }

  lemma {:induction false} LastWithSpec(entities: seq<Entity>, key: Key)
    ensures LastWith(entities, key).Some? <==> HasEntity(entities, key)
    ensures LastWith(entities, key).Some? ==>
      LastWith(entities, key).value in entities && KeyOf(LastWith(entities, key).value) == key
  {
    if entities != [] {
      var n := |entities| - 1;
      assert entities == entities[..n] + [entities[n]];
      assert entities[n] in entities;
      LastWithSpec(entities[..n], key);
    }
  }

  predicate Backed(platform: Platform, rows: seq<Row>, entities: seq<Entity>, format: Format) {
    forall row :: row in rows ==>
      RowKey(platform, row, format).Some? && HasEntity(entities, RowKey(platform, row, format).value)
  }

  /** The state after emitting or reporting one row. */
  function EmitRow(
    platform: Platform, row: Row, entities: seq<Entity>, manual: set<string>, format: Format, so: Emission): Emission
    requires Backed(platform, [row], entities, format)
  {
    var collisions := RowAddresses(row) * manual;
    if collisions != {} then so.(reported := so.reported + collisions)
    else
      assert row in [row];
      LastWithSpec(entities, RowKey(platform, row, format).value);
      Emission(AddRows(so.config, platform, [row]),
               so.entities + [LastWith(entities, RowKey(platform, row, format).value).value], so.reported)
  }

  lemma {:induction false} EmitsRow(
    platform: Platform, row: Row, entities: seq<Entity>, manual: set<string>, format: Format, so: Emission, p: Platform)
    requires Backed(platform, [row], entities, format)
    ensures var next := EmitRow(platform, row, entities, manual, format, so);
      && RowsOf(next.config, p) ==
           RowsOf(so.config, p) + (if p == platform then FreeRows([row], manual) else [])
      && (Dict(so.config) ==> Dict(next.config))
      && next.reported == so.reported + Collisions([row], manual)
  {
    var none: seq<Row> := [row][1..];
    assert none == [];
    RowsOfAdd(so.config, platform, [row], p);
  }

  lemma {:induction false} EmitCons(
    platform: Platform, rows: seq<Row>, entities: seq<Entity>, manual: set<string>, format: Format, so: Emission)
    requires Backed(platform, rows, entities, format) && rows != []
    ensures Backed(platform, [rows[0]], entities, format) && Backed(platform, rows[1..], entities, format)
    ensures EmitRows(platform, rows, entities, manual, format, so) ==
      EmitRows(platform, rows[1..], entities, manual, format, EmitRow(platform, rows[0], entities, manual, format, so))
  {
    hide AddRows;
    hide RowKey;
    hide RowAddresses;
    hide FreeRows;
    assert rows[0] in rows;
    LastWithSpec(entities, RowKey(platform, rows[0], format).value);
  }

  lemma {:induction false} FreeCons(rows: seq<Row>, manual: set<string>)
    requires rows != []
    ensures FreeRows(rows, manual) == FreeRows([rows[0]], manual) + FreeRows(rows[1..], manual)
    ensures Collisions(rows, manual) == Collisions([rows[0]], manual) + Collisions(rows[1..], manual)
  {
    hide RowAddresses;
    var none: seq<Row> := [rows[0]][1..];
    assert none == [];
  }

  /** Planned rows all find their entity, so emission goes through. */
  lemma {:induction false} EmitRowsSpec(
    platform: Platform, rows: seq<Row>, entities: seq<Entity>, manual: set<string>, format: Format, so: Emission,
    p: Platform)
    requires Backed(platform, rows, entities, format)
    ensures var r := EmitRows(platform, rows, entities, manual, format, so);
      && r.Success?
      && RowsOf(r.value.config, p) ==
           RowsOf(so.config, p) + (if p == platform then FreeRows(rows, manual) else [])
      && (Dict(so.config) ==> Dict(r.value.config))
      && r.value.reported == so.reported + Collisions(rows, manual)
    decreases |rows|
  {
    if rows != [] {
      hide *;
      EmitCons(platform, rows, entities, manual, format, so);
      FreeCons(rows, manual);
      var next := EmitRow(platform, rows[0], entities, manual, format, so);
      EmitsRow(platform, rows[0], entities, manual, format, so, p);
      EmitRowsSpec(platform, rows[1..], entities, manual, format, next, p);
      Regroup(RowsOf(so.config, p), FreeRows([rows[0]], manual), FreeRows(rows[1..], manual));
      Union(so.reported, Collisions([rows[0]], manual), Collisions(rows[1..], manual));
    }
  }

  lemma Union<T>(a: set<T>, b: set<T>, c: set<T>)
    ensures a + b + c == a + (b + c)
  {
  }

  predicate Names(platform: Platform, row: Row, format: Format, e: Entity) {
    RowKey(platform, row, format) == Some(KeyOf(e))
  }

  predicate NamedBy(platform: Platform, rows: seq<Row>, format: Format, e: Entity) {
    exists row :: row in rows && Names(platform, row, format, e)
  }

  predicate Unclaimed(platform: Platform, rows: seq<Row>, format: Format, entities: seq<Entity>) {
    forall e :: e in entities ==> !NamedBy(platform, rows, format, e)
  }

  lemma UnclaimedNext(
    platform: Platform, row: Row, rest: seq<Row>, format: Format, entities: seq<Entity>, e: Entity)
    requires DistinctRows(platform, [row] + rest, format) && Unclaimed(platform, [row] + rest, format, entities)
    requires Names(platform, row, format, e)
    ensures Unclaimed(platform, rest, format, entities + [e])
    ensures forall x :: x in entities ==> KeyOf(x) != KeyOf(e)
  {
    DistinctCons(platform, row, rest, format);
    assert row in [row] + rest;
    forall x | x in entities + [e] ensures !NamedBy(platform, rest, format, x) {
      if x == e {
        forall other | other in rest ensures !Names(platform, other, format, e) {
          assert RowIdentity(platform, other, format) != RowIdentity(platform, row, format);
        }
      } else {
        assert x in entities && !NamedBy(platform, [row] + rest, format, x);
        assert forall other :: other in rest ==> other in [row] + rest;
      }
    }
    forall x | x in entities ensures KeyOf(x) != KeyOf(e) {
      assert !NamedBy(platform, [row] + rest, format, x);
      assert !Names(platform, row, format, x);
    }
  }

  /** The entities emitted after those in `so`: the planned entity of each free row, in order. */
  function EntitiesFor(platform: Platform, rows: seq<Row>, entities: seq<Entity>, format: Format): seq<Entity> {
    if rows == [] then []
    else
      var key := RowKey(platform, rows[0], format);
      (if key.None? || LastWith(entities, key.value).None? then [] else [LastWith(entities, key.value).value])
      + EntitiesFor(platform, rows[1..], entities, format)
  }

  lemma {:induction false} EmittedEntities(
    platform: Platform, rows: seq<Row>, entities: seq<Entity>, manual: set<string>, format: Format, so: Emission)
    requires EmitRows(platform, rows, entities, manual, format, so).Success?
    ensures EmitRows(platform, rows, entities, manual, format, so).value.entities ==
      so.entities + EntitiesFor(platform, FreeRows(rows, manual), entities, format)
    decreases |rows|
  {
    if rows != [] {
      var row, rest := rows[0], rows[1..];
      var free := FreeRows(rest, manual);
      var collisions := RowAddresses(row) * manual;
      if collisions != {} {
        assert FreeRows(rows, manual) == free;
        EmittedEntities(platform, rest, entities, manual, format, so.(reported := so.reported + collisions));
      } else {
        var e := LastWith(entities, RowKey(platform, row, format).value).value;
        assert FreeRows(rows, manual) == [row] + free;
        assert ([row] + free)[1..] == free;
        EmittedEntities(platform, rest, entities, manual, format,
                        Emission(AddRows(so.config, platform, [row]), so.entities + [e], so.reported));
        Regroup(so.entities, [e], EntitiesFor(platform, free, entities, format));
      }
    }
  }

  /** Each row has exactly one entity there, and no other entity is there. */
  lemma {:induction false} EntitiesForSpec(
    platform: Platform, rows: seq<Row>, entities: seq<Entity>, format: Format)
    requires Backed(platform, rows, entities, format)
    ensures var r := EntitiesFor(platform, rows, entities, format);
      && (forall e :: e in r ==> e in entities && e.platform == platform && NamedBy(platform, rows, format, e))
      && (forall row :: row in rows ==> HasEntity(r, RowKey(platform, row, format).value))
  {
    if rows != [] {
      var row, rest := rows[0], rows[1..];
      assert rows == [row] + rest;
      assert row in rows;
      EntitiesForSpec(platform, rest, entities, format);
      LastWithSpec(entities, RowKey(platform, row, format).value);
      var e := LastWith(entities, RowKey(platform, row, format).value).value;
      var r := EntitiesFor(platform, rest, entities, format);
      assert EntitiesFor(platform, rows, entities, format) == [e] + r;
      assert Names(platform, row, format, e);
      forall x | x in [e] + r ensures x in entities && x.platform == platform && NamedBy(platform, rows, format, x) {
        if x != e {
          assert NamedBy(platform, rest, format, x);
          var other :| other in rest && Names(platform, other, format, x);
          assert other in rows;
        }
      }
      forall x | x in rows ensures HasEntity([e] + r, RowKey(platform, x, format).value) {
        if x == row {
          assert e in [e] + r;
        } else {
          assert HasEntity(r, RowKey(platform, x, format).value);
          var y :| y in r && KeyOf(y) == RowKey(platform, x, format).value;
          assert y in [e] + r;
        }
      }
    }
  }

  lemma {:induction false} EntitiesForDistinct(
    platform: Platform, rows: seq<Row>, entities: seq<Entity>, format: Format, so: seq<Entity>)
    requires Backed(platform, rows, entities, format) && DistinctRows(platform, rows, format)
    requires DistinctEntities(so) && Unclaimed(platform, rows, format, so)
    ensures DistinctEntities(so + EntitiesFor(platform, rows, entities, format))
    decreases |rows|
  {
    if rows != [] {
      var row, rest := rows[0], rows[1..];
      assert rows == [row] + rest;
      assert row in rows;
      LastWithSpec(entities, RowKey(platform, row, format).value);
      var e := LastWith(entities, RowKey(platform, row, format).value).value;
      assert Names(platform, row, format, e);
      UnclaimedNext(platform, row, rest, format, so, e);
      DistinctCons(platform, row, rest, format);
      DistinctAppend(so, e);
      EntitiesForDistinct(platform, rest, entities, format, so + [e]);
      Regroup(so, [e], EntitiesFor(platform, rest, entities, format));
    } else {
      assert so + [] == so;
    }
  }

  lemma DistinctAppend(entities: seq<Entity>, e: Entity)
    requires DistinctEntities(entities) && forall x :: x in entities ==> KeyOf(x) != KeyOf(e)
    ensures DistinctEntities(entities + [e])
  {
  }

  // ------------------------------------------------------------------ platforms

  ghost predicate AllBacked(config: Config, entities: seq<Entity>, format: Format) {
    forall p :: Backed(p, RowsOf(config, p), entities, format)
  }

  lemma AllBackedTail(config: Config, entities: seq<Entity>, format: Format)
    requires Dict(config) && config != [] && AllBacked(config, entities, format)
    ensures Dict(config[1..]) && AllBacked(config[1..], entities, format)
    ensures Backed(config[0].platform, config[0].rows, entities, format)
  {
    DictTail(config, config[0].platform);
    assert Backed(config[0].platform, RowsOf(config, config[0].platform), entities, format);
    forall p ensures Backed(p, RowsOf(config[1..], p), entities, format) {
      DictTail(config, p);
      assert Backed(p, RowsOf(config, p), entities, format);
    }
  }

  function AllCollisions(config: Config, manual: set<string>): set<string> {
    if config == [] then {} else Collisions(config[0].rows, manual) + AllCollisions(config[1..], manual)
  }

  lemma {:induction false} EmitBlocksSpec(
    config: Config, entities: seq<Entity>, manual: set<string>, format: Format, so: Emission, p: Platform)
    requires Dict(config) && AllBacked(config, entities, format)
    ensures var r := EmitBlocks(config, entities, manual, format, so);
      && r.Success?
      && RowsOf(r.value.config, p) == RowsOf(so.config, p) + FreeRows(RowsOf(config, p), manual)
      && (Dict(so.config) ==> Dict(r.value.config))
      && r.value.reported == so.reported + AllCollisions(config, manual)
    decreases |config|
  {
    if config != [] {
      var p0, rows0 := config[0].platform, config[0].rows;
      AllBackedTail(config, entities, format);
      DictTail(config, p);
      EmitRowsSpec(p0, rows0, entities, manual, format, so, p);
      var next := EmitRows(p0, rows0, entities, manual, format, so).value;
      EmitBlocksSpec(config[1..], entities, manual, format, next, p);
    }
  }

  /** The entities of every platform's free rows. */
  function AllEntities(config: Config, entities: seq<Entity>, manual: set<string>, format: Format): seq<Entity> {
    if config == [] then []
    else EntitiesFor(config[0].platform, FreeRows(config[0].rows, manual), entities, format)
         + AllEntities(config[1..], entities, manual, format)
  }

  lemma {:induction false} EmittedInOrder(
    config: Config, entities: seq<Entity>, manual: set<string>, format: Format, so: Emission)
    requires EmitBlocks(config, entities, manual, format, so).Success?
    ensures EmitBlocks(config, entities, manual, format, so).value.entities ==
      so.entities + AllEntities(config, entities, manual, format)
    decreases |config|
  {
    if config != [] {
      EmittedEntities(config[0].platform, config[0].rows, entities, manual, format, so);
      var next := EmitRows(config[0].platform, config[0].rows, entities, manual, format, so).value;
      EmittedInOrder(config[1..], entities, manual, format, next);
      Regroup(so.entities, EntitiesFor(config[0].platform, FreeRows(config[0].rows, manual), entities, format),
                AllEntities(config[1..], entities, manual, format));
    }
  }

  lemma {:induction false} BackedFree(
    platform: Platform, rows: seq<Row>, entities: seq<Entity>, manual: set<string>, format: Format)
    requires Backed(platform, rows, entities, format)
    ensures Backed(platform, FreeRows(rows, manual), entities, format)
  {
    FreeRowsSpec(platform, rows, manual, format);
  }

  lemma {:induction false} AllEntitiesSpec(
    config: Config, entities: seq<Entity>, manual: set<string>, format: Format, e: Entity)
    requires Dict(config) && AllBacked(config, entities, format) && e in AllEntities(config, entities, manual, format)
    ensures e in entities && NamedBy(e.platform, FreeRows(RowsOf(config, e.platform), manual), format, e)
    ensures exists i :: 0 <= i < |config| && config[i].platform == e.platform
  {
    var p0, rows0 := config[0].platform, config[0].rows;
    AllBackedTail(config, entities, format);
    BackedFree(p0, rows0, entities, manual, format);
    DictTail(config, e.platform);
    if e in EntitiesFor(p0, FreeRows(rows0, manual), entities, format) {
      EntitiesForSpec(p0, FreeRows(rows0, manual), entities, format);
    } else {
      AllEntitiesSpec(config[1..], entities, manual, format, e);
      var i :| 0 <= i < |config[1..]| && config[1..][i].platform == e.platform;
      assert config[i + 1].platform == e.platform;
    }
  }

  lemma {:induction false} AllEntitiesCover(
    config: Config, entities: seq<Entity>, manual: set<string>, format: Format, p: Platform, row: Row)
    requires Dict(config) && AllBacked(config, entities, format) && row in FreeRows(RowsOf(config, p), manual)
    ensures RowKey(p, row, format).Some?
    ensures HasEntity(AllEntities(config, entities, manual, format), RowKey(p, row, format).value)
  {
    var p0, rows0 := config[0].platform, config[0].rows;
    AllBackedTail(config, entities, format);
    DictTail(config, p);
    if p == p0 {
      BackedFree(p0, rows0, entities, manual, format);
      EntitiesForSpec(p0, FreeRows(rows0, manual), entities, format);
      var es := EntitiesFor(p0, FreeRows(rows0, manual), entities, format);
      assert HasEntity(es, RowKey(p, row, format).value);
      var e :| e in es && KeyOf(e) == RowKey(p, row, format).value;
      assert e in AllEntities(config, entities, manual, format);
    } else {
      AllEntitiesCover(config[1..], entities, manual, format, p, row);
      var more := AllEntities(config[1..], entities, manual, format);
      var e :| e in more && KeyOf(e) == RowKey(p, row, format).value;
      assert e in AllEntities(config, entities, manual, format);
    }
  }

  lemma DistinctJoin(a: seq<Entity>, b: seq<Entity>)
    requires DistinctEntities(a) && DistinctEntities(b)
    requires forall x, y :: x in a && y in b ==> KeyOf(x) != KeyOf(y)
    ensures DistinctEntities(a + b)
  {
    var c := a + b;
    forall i, j | 0 <= i < j < |c| ensures KeyOf(c[i]) != KeyOf(c[j]) {
      if i < |a| <= j { assert a[i] in a && b[j - |a|] in b; }
    }
  }

  lemma {:induction false} AllEntitiesDistinct(
    config: Config, entities: seq<Entity>, manual: set<string>, format: Format)
    requires Dict(config) && AllBacked(config, entities, format)
    requires forall p :: DistinctRows(p, RowsOf(config, p), format)
    ensures DistinctEntities(AllEntities(config, entities, manual, format))
  {
    if config != [] {
      var p0, rows0 := config[0].platform, config[0].rows;
      AllBackedTail(config, entities, format);
      forall p ensures DistinctRows(p, RowsOf(config[1..], p), format) {
        DictTail(config, p);
        assert DistinctRows(p, RowsOf(config, p), format);
      }
      AllEntitiesDistinct(config[1..], entities, manual, format);
      FirstEntitiesDistinct(config, entities, manual, format);
      var first := EntitiesFor(p0, FreeRows(rows0, manual), entities, format);
      var more := AllEntities(config[1..], entities, manual, format);
      forall x, y | x in first && y in more ensures KeyOf(x) != KeyOf(y) {
        FirstEntitiesThere(config, entities, manual, format, x);
        AllEntitiesSpec(config[1..], entities, manual, format, y);
        var i :| 0 <= i < |config[1..]| && config[1..][i].platform == y.platform;
        assert config[i + 1].platform != config[0].platform;
      }
      DistinctJoin(first, more);
    }
  }

  lemma {:induction false} FirstEntitiesThere(
    config: Config, entities: seq<Entity>, manual: set<string>, format: Format, e: Entity)
    requires Dict(config) && config != [] && AllBacked(config, entities, format)
    requires e in EntitiesFor(config[0].platform, FreeRows(config[0].rows, manual), entities, format)
    ensures e.platform == config[0].platform
  {
    AllBackedTail(config, entities, format);
    BackedFree(config[0].platform, config[0].rows, entities, manual, format);
    EntitiesForSpec(config[0].platform, FreeRows(config[0].rows, manual), entities, format);
  }

  lemma {:induction false} FirstEntitiesDistinct(
    config: Config, entities: seq<Entity>, manual: set<string>, format: Format)
    requires Dict(config) && config != [] && AllBacked(config, entities, format)
    requires forall p :: DistinctRows(p, RowsOf(config, p), format)
    ensures DistinctEntities(EntitiesFor(config[0].platform, FreeRows(config[0].rows, manual), entities, format))
  {
    var p0, rows0 := config[0].platform, config[0].rows;
    AllBackedTail(config, entities, format);
    DictTail(config, p0);
    assert DistinctRows(p0, RowsOf(config, p0), format);
    BackedFree(p0, rows0, entities, manual, format);
    FreeRowsSpec(p0, rows0, manual, format);
    var free := FreeRows(rows0, manual);
    EntitiesForDistinct(p0, free, entities, format, []);
    assert [] + EntitiesFor(p0, free, entities, format) == EntitiesFor(p0, free, entities, format);
  }

  // ------------------------------------------------------------------- theorems

  lemma CorrespondingBacked(config: Config, entities: seq<Entity>, format: Format)
    requires Corresponds(config, entities, format)
    ensures AllBacked(config, entities, format)
  {
  }

  /**
    On a plan whose rows and entities correspond, filtering fails only when the site's own configuration
    has two rows of one identity; it emits, in order, exactly the rows that mention no manual address.
   */
  lemma {:induction false} FilterEmitsFreeRows(
    plan: Plan, existing: Config, previous: Option<Previous>, ui: set<string>, format: Format, p: Platform)
    requires Corresponds(plan.config, plan.entities, format)
    ensures var r := Filter(plan, existing, previous, ui, format);
      var manual := Manual(existing, previous, ui, format);
      && (r.Success? <==> IndexedRows(existing, format).Success?)
      && (r.Success? ==>
           && Dict(r.value.0.config)
           && RowsOf(r.value.0.config, p) == FreeRows(RowsOf(plan.config, p), manual)
           && r.value.0.entities == AllEntities(plan.config, plan.entities, manual, format)
           && r.value.0.reported == AllCollisions(plan.config, manual))
  {
    var manual := Manual(existing, previous, ui, format);
    CorrespondingBacked(plan.config, plan.entities, format);
    EmitBlocksSpec(plan.config, plan.entities, manual, format, Emission([], [], {}), p);
    EmittedInOrder(plan.config, plan.entities, manual, format, Emission([], [], {}));
  }

  /** Filtering keeps the bijection of rows and entities. */
  lemma FilterKeepsCorrespondence(
    plan: Plan, existing: Config, previous: Option<Previous>, ui: set<string>, format: Format)
    requires Corresponds(plan.config, plan.entities, format)
    requires Filter(plan, existing, previous, ui, format).Success?
    ensures var r := Filter(plan, existing, previous, ui, format).value.0;
      Corresponds(r.config, r.entities, format)
  {
    var r := Filter(plan, existing, previous, ui, format).value.0;
    var manual := Manual(existing, previous, ui, format);
    CorrespondingBacked(plan.config, plan.entities, format);
    AllEntitiesDistinct(plan.config, plan.entities, manual, format);
    FilterEmitsFreeRows(plan, existing, previous, ui, format, Light);
    forall p
      ensures RowsOf(r.config, p) == FreeRows(RowsOf(plan.config, p), manual)
      ensures DistinctRows(p, RowsOf(r.config, p), format)
    {
      FilterEmitsFreeRows(plan, existing, previous, ui, format, p);
      assert DistinctRows(p, RowsOf(plan.config, p), format);
      FreeRowsSpec(p, RowsOf(plan.config, p), manual, format);
    }
    forall p, row | row in RowsOf(r.config, p)
      ensures RowKey(p, row, format).Some? && HasEntity(r.entities, RowKey(p, row, format).value)
    {
      AllEntitiesCover(plan.config, plan.entities, manual, format, p, row);
    }
    forall e | e in r.entities ensures HasRow(r.config, KeyOf(e), format) {
      AllEntitiesSpec(plan.config, plan.entities, manual, format, e);
      var row :| row in FreeRows(RowsOf(plan.config, e.platform), manual) && Names(e.platform, row, format, e);
      assert row in RowsOf(r.config, e.platform);
    }
  }

  // -------------------------------------------------- whose addresses are manual

  lemma {:induction false} AddressesOfSpec(rows: seq<Row>, a: string)
    ensures a in AddressesOf(rows) <==> exists row :: row in rows && a in RowAddresses(row)
  {
    if rows != [] {
      assert rows == [rows[0]] + rows[1..];
      AddressesOfSpec(rows[1..], a);
    }
  }

  lemma {:induction false} UnownedRowsSpec(platform: Platform, rows: seq<Row>, owned: set<Key>, format: Format)
    ensures forall row :: row in UnownedRows(platform, rows, owned, format) <==>
      row in rows && !IsOwned(platform, row, owned, format)
  {
    if rows != [] {
      assert rows == [rows[0]] + rows[1..];
      UnownedRowsSpec(platform, rows[1..], owned, format);
    }
  }

  /** A row of the site's configuration that no previous deployment owns. */
  predicate IsManualRow(existing: Config, owned: set<Key>, format: Format, p: Platform, row: Row) {
    row in RowsOf(existing, p) && !IsOwned(p, row, owned, format)
  }

  lemma {:induction false} ManualAddressesSpec(existing: Config, owned: set<Key>, format: Format, a: string)
    requires Dict(existing)
    ensures a in ManualAddresses(existing, owned, format) <==>
      exists p, row :: IsManualRow(existing, owned, format, p, row) && a in RowAddresses(row)
  {
    if existing != [] {
      var p0, rows0 := existing[0].platform, existing[0].rows;
      DictTail(existing, p0);
      ManualAddressesSpec(existing[1..], owned, format, a);
      AddressesOfSpec(UnownedRows(p0, rows0, owned, format), a);
      UnownedRowsSpec(p0, rows0, owned, format);
      forall p, row
        ensures IsManualRow(existing, owned, format, p, row) <==>
          if p == p0 then row in UnownedRows(p0, rows0, owned, format)
          else IsManualRow(existing[1..], owned, format, p, row)
      {
        DictTail(existing, p);
      }
      if a in AddressesOf(UnownedRows(p0, rows0, owned, format)) {
        var row :| row in UnownedRows(p0, rows0, owned, format) && a in RowAddresses(row);
        assert IsManualRow(existing, owned, format, p0, row);
      } else if a in ManualAddresses(existing[1..], owned, format) {
        var p, row :| IsManualRow(existing[1..], owned, format, p, row) && a in RowAddresses(row);
        DictTail(existing, p);
        assert IsManualRow(existing, owned, format, p, row);
      }
    }
  }

  /** No emitted row shares an address with a row somebody else wrote or with an entity made in the interface. */
  lemma {:induction false} ManualStaysAuthoritative(
    plan: Plan, existing: Config, previous: Option<Previous>, ui: set<string>, format: Format, p: Platform, row: Row)
    requires Corresponds(plan.config, plan.entities, format) && Dict(existing)
    requires Filter(plan, existing, previous, ui, format).Success?
    requires row in RowsOf(Filter(plan, existing, previous, ui, format).value.0.config, p)
    ensures row in RowsOf(plan.config, p)
    ensures forall q, other :: IsManualRow(existing, Owned(previous, format), format, q, other) ==>
      RowAddresses(row) !! RowAddresses(other)
    ensures forall text :: text in ui ==> RowAddresses(row) !! Canonical(text)
  {
    hide Filter;
    EmittedIsFree(plan, existing, previous, ui, format, p, row);
    FreeOfManual(existing, previous, ui, format, row);
    FreeOfUi(existing, previous, ui, format, row);
  }

  lemma FreeOfManual(existing: Config, previous: Option<Previous>, ui: set<string>, format: Format, row: Row)
    requires Dict(existing) && RowAddresses(row) * Manual(existing, previous, ui, format) == {}
    ensures forall q, other :: IsManualRow(existing, Owned(previous, format), format, q, other) ==>
      RowAddresses(row) !! RowAddresses(other)
  {
    hide Manual;
    hide IsManualRow;
    hide RowAddresses;
    forall q, other | IsManualRow(existing, Owned(previous, format), format, q, other)
      ensures RowAddresses(row) !! RowAddresses(other)
    {
      ManualRowsCounted(existing, previous, ui, format, q, other);
      PartsDisjoint(RowAddresses(row), RowAddresses(other), Manual(existing, previous, ui, format));
    }
  }

  lemma PartsDisjoint(a: set<string>, b: set<string>, whole: set<string>)
    requires a * whole == {} && b <= whole
    ensures a !! b
  {
    forall x | x in a ensures x !in b {
      assert x in a * whole <==> x in whole;
    }
  }

  lemma FreeOfUi(existing: Config, previous: Option<Previous>, ui: set<string>, format: Format, row: Row)
    requires RowAddresses(row) * Manual(existing, previous, ui, format) == {}
    ensures forall text :: text in ui ==> RowAddresses(row) !! Canonical(text)
  {
    hide Manual;
    hide RowAddresses;
    UiCounted(existing, previous, ui, format);
    forall text | text in ui ensures RowAddresses(row) !! Canonical(text) {
      PartsDisjoint(RowAddresses(row), Canonical(text), Manual(existing, previous, ui, format));
    }
  }

  lemma {:induction false} EmittedIsFree(
    plan: Plan, existing: Config, previous: Option<Previous>, ui: set<string>, format: Format, p: Platform, row: Row)
    requires Corresponds(plan.config, plan.entities, format) && Filter(plan, existing, previous, ui, format).Success?
    requires row in RowsOf(Filter(plan, existing, previous, ui, format).value.0.config, p)
    ensures row in RowsOf(plan.config, p) && RowAddresses(row) * Manual(existing, previous, ui, format) == {}
  {
    FilterEmitsFreeRows(plan, existing, previous, ui, format, p);
    FreeRowsSpec(p, RowsOf(plan.config, p), Manual(existing, previous, ui, format), format);
  }

  lemma ManualRowsCounted(
    existing: Config, previous: Option<Previous>, ui: set<string>, format: Format, p: Platform, row: Row)
    requires Dict(existing) && IsManualRow(existing, Owned(previous, format), format, p, row)
    ensures RowAddresses(row) <= Manual(existing, previous, ui, format)
  {
    forall a | a in RowAddresses(row) ensures a in Manual(existing, previous, ui, format) {
      ManualAddressesSpec(existing, Owned(previous, format), format, a);
    }
  }

  lemma UiCounted(existing: Config, previous: Option<Previous>, ui: set<string>, format: Format)
    ensures forall text :: text in ui ==> Canonical(text) <= Manual(existing, previous, ui, format)
  {
    forall text | text in ui ensures Canonical(text) <= Manual(existing, previous, ui, format) {
      assert Canonical(text) <= UiAddresses(ui);
    }
  }

  lemma {:induction false} AllCollisionsCover(
    config: Config, manual: set<string>, format: Format, p: Platform, row: Row)
    requires Dict(config) && row in RowsOf(config, p)
    ensures RowAddresses(row) * manual <= AllCollisions(config, manual)
  {
    DictTail(config, p);
    if config[0].platform == p {
      FreeRowsSpec(p, config[0].rows, manual, format);
    } else {
      AllCollisionsCover(config[1..], manual, format, p, row);
    }
  }

  /** A planned row is emitted, or every address it shares with the site's own configuration is reported. */
  lemma {:induction false} EmittedOrReported(
    plan: Plan, existing: Config, previous: Option<Previous>, ui: set<string>, format: Format, p: Platform, row: Row)
    requires Corresponds(plan.config, plan.entities, format) && Dict(existing)
    requires Filter(plan, existing, previous, ui, format).Success? && row in RowsOf(plan.config, p)
    ensures var r := Filter(plan, existing, previous, ui, format).value.0;
      var shared := RowAddresses(row) * Manual(existing, previous, ui, format);
      if shared == {} then row in RowsOf(r.config, p)
      else row !in RowsOf(r.config, p) && shared <= r.reported
  {
    var manual := Manual(existing, previous, ui, format);
    FilterEmitsFreeRows(plan, existing, previous, ui, format, p);
    FreeRowsSpec(p, RowsOf(plan.config, p), manual, format);
    AllCollisionsCover(plan.config, manual, format, p, row);
  }

  lemma {:induction false} UnownedFind(existing: Config, owned: set<Key>, format: Format, p: Platform)
    ensures RowsOf(Unowned(existing, owned, format), p) == UnownedRows(p, RowsOf(existing, p), owned, format)
    ensures |Unowned(existing, owned, format)| == |existing|
    ensures forall i :: 0 <= i < |existing| ==> Unowned(existing, owned, format)[i].platform == existing[i].platform
  {
    if existing != [] { UnownedFind(existing[1..], owned, format, p); }
  }

  /** What is written: the rows nobody deployed, unchanged and in order, followed by the emitted ones. */
  lemma {:induction false} CombinedIsManualThenEmitted(
    plan: Plan, existing: Config, previous: Option<Previous>, ui: set<string>, format: Format, p: Platform)
    requires Corresponds(plan.config, plan.entities, format) && Dict(existing)
    requires Filter(plan, existing, previous, ui, format).Success?
    ensures var (emission, combined) := Filter(plan, existing, previous, ui, format).value;
      && Dict(combined)
      && RowsOf(combined, p) ==
           UnownedRows(p, RowsOf(existing, p), Owned(previous, format), format) + RowsOf(emission.config, p)
  {
    var owned := Owned(previous, format);
    FilterEmitsFreeRows(plan, existing, previous, ui, format, p);
    UnownedFind(existing, owned, format, p);
    assert Dict(Unowned(existing, owned, format));
    RowsOfExtend(Unowned(existing, owned, format), Filter(plan, existing, previous, ui, format).value.0.config, p);
  }

  // ------------------------------------------------------------ deploying again

  lemma {:induction false} UnownedConcat(platform: Platform, a: seq<Row>, b: seq<Row>, owned: set<Key>, format: Format)
    ensures UnownedRows(platform, a + b, owned, format) ==
      UnownedRows(platform, a, owned, format) + UnownedRows(platform, b, owned, format)
  {
    if a == [] {
      assert a + b == b;
    } else {
      assert (a + b)[1..] == a[1..] + b;
      UnownedConcat(platform, a[1..], b, owned, format);
    }
  }

  lemma {:induction false} UnownedAll(platform: Platform, rows: seq<Row>, owned: set<Key>, format: Format)
    requires forall row :: row in rows ==> !IsOwned(platform, row, owned, format)
    ensures UnownedRows(platform, rows, owned, format) == rows
  {
    if rows != [] {
      assert rows == [rows[0]] + rows[1..];
      UnownedAll(platform, rows[1..], owned, format);
    }
  }

  lemma {:induction false} UnownedNone(platform: Platform, rows: seq<Row>, owned: set<Key>, format: Format)
    requires forall row :: row in rows ==> IsOwned(platform, row, owned, format)
    ensures UnownedRows(platform, rows, owned, format) == []
  {
    if rows != [] {
      assert rows == [rows[0]] + rows[1..];
      UnownedNone(platform, rows[1..], owned, format);
    }
  }

  /** Keyed rows of one platform with one identity cannot pass indexing. */
  lemma {:induction false} IndexedRowsDiffer(
    platform: Platform, rows: seq<Row>, format: Format, index: map<Key, Row>, i: nat, j: nat)
    requires IndexRows(platform, rows, format, index).Success? && i < j < |rows|
    requires RowKey(platform, rows[i], format).Some?
    ensures RowKey(platform, rows[i], format) != RowKey(platform, rows[j], format)
    decreases |rows|
  {
    hide RowKey;
    var key := RowKey(platform, rows[0], format);
    var next := if key.Some? then index[key.value := rows[0]] else index;
    assert IndexRows(platform, rows[1..], format, next).Success?;
    if i > 0 {
      IndexedRowsDiffer(platform, rows[1..], format, next, i - 1, j - 1);
    } else if RowKey(platform, rows[j], format) == key {
      IndexedRowsFresh(platform, rows[1..], format, next, j - 1);
    }
  }

  lemma {:induction false} IndexedRowsFresh(
    platform: Platform, rows: seq<Row>, format: Format, index: map<Key, Row>, j: nat)
    requires IndexRows(platform, rows, format, index).Success? && j < |rows|
    requires RowKey(platform, rows[j], format).Some?
    ensures RowKey(platform, rows[j], format).value !in index
    decreases |rows|
  {
    if j > 0 {
      var key := RowKey(platform, rows[0], format);
      IndexedRowsFresh(platform, rows[1..], format, if key.Some? then index[key.value := rows[0]] else index, j - 1);
    }
  }

  lemma {:induction false} IndexedPlatform(config: Config, format: Format, index: map<Key, Row>, p: Platform)
    requires IndexBlocks(config, format, index).Success?
    ensures exists before :: IndexRows(p, RowsOf(config, p), format, before).Success?
    decreases |config|
  {
    if config == [] {
      assert IndexRows(p, RowsOf(config, p), format, index).Success?;
    } else if config[0].platform == p {
      assert IndexRows(p, RowsOf(config, p), format, index).Success?;
    } else {
      IndexedPlatform(config[1..], format, IndexRows(config[0].platform, config[0].rows, format, index).value, p);
      var before :| IndexRows(p, RowsOf(config[1..], p), format, before).Success?;
      assert RowsOf(config[1..], p) == RowsOf(config, p);
    }
  }

  lemma OwnedAfter(entities: seq<Entity>, mode: Mode, format: Format, key: Key)
    requires forall e :: e in entities ==> ManifestIdentity(e, mode, format) == e.uniqueId
    ensures key in Owned(Some(Previous(mode, entities)), format) <==> HasEntity(entities, key)
  {
    if HasEntity(entities, key) {
      var e :| e in entities && KeyOf(e) == key;
      assert key == Key(e.platform, ManifestIdentity(e, mode, format));
    }
  }

  /**
    Deploying again starts from the same place: unless the written configuration repeats an identity, the
    rows the next deployment takes for somebody else's are the ones this deployment took for somebody else's.
   */
  lemma {:induction false} NextDeploymentSeesSameManualRows(
    plan: Plan, existing: Config, previous: Option<Previous>, ui: set<string>, mode: Mode, format: Format, p: Platform)
    requires Corresponds(plan.config, plan.entities, format) && Dict(existing)
    requires forall e :: e in plan.entities ==> ManifestIdentity(e, mode, format) == e.uniqueId
    requires Filter(plan, existing, previous, ui, format).Success?
    requires IndexedRows(Filter(plan, existing, previous, ui, format).value.1, format).Success?
    ensures var (emission, combined) := Filter(plan, existing, previous, ui, format).value;
      var next := Some(Previous(mode, emission.entities));
      UnownedRows(p, RowsOf(combined, p), Owned(next, format), format) ==
        UnownedRows(p, RowsOf(existing, p), Owned(previous, format), format)
  {
    var (emission, combined) := Filter(plan, existing, previous, ui, format).value;
    var owned := Owned(Some(Previous(mode, emission.entities)), format);
    var manual := UnownedRows(p, RowsOf(existing, p), Owned(previous, format), format);
    var emitted := RowsOf(emission.config, p);
    CombinedIsManualThenEmitted(plan, existing, previous, ui, format, p);
    FilterKeepsCorrespondence(plan, existing, previous, ui, format);
    EmittedArePlanned(plan, existing, previous, ui, format);
    forall key ensures key in owned <==> HasEntity(emission.entities, key) {
      OwnedAfter(emission.entities, mode, format, key);
    }
    IndexedPlatform(combined, format, map[], p);
    forall row | row in manual ensures !IsOwned(p, row, owned, format) {
      if IsOwned(p, row, owned, format) {
        OwnedRowEmitted(emission.config, emission.entities, format, p, row);
        var other :| other in emitted && RowKey(p, other, format) == RowKey(p, row, format);
        RepeatedIdentity(p, manual, emitted, format, row, other);
      }
    }
    UnownedConcat(p, manual, emitted, owned, format);
    UnownedAll(p, manual, owned, format);
    UnownedNone(p, emitted, owned, format);
    assert manual + [] == manual;
  }

  lemma EmittedArePlanned(
    plan: Plan, existing: Config, previous: Option<Previous>, ui: set<string>, format: Format)
    requires Corresponds(plan.config, plan.entities, format)
    requires Filter(plan, existing, previous, ui, format).Success?
    ensures forall e :: e in Filter(plan, existing, previous, ui, format).value.0.entities ==> e in plan.entities
  {
    var manual := Manual(existing, previous, ui, format);
    CorrespondingBacked(plan.config, plan.entities, format);
    FilterEmitsFreeRows(plan, existing, previous, ui, format, Light);
    forall e | e in AllEntities(plan.config, plan.entities, manual, format) ensures e in plan.entities {
      AllEntitiesSpec(plan.config, plan.entities, manual, format, e);
    }
  }

  lemma {:induction false} OwnedRowEmitted(config: Config, entities: seq<Entity>, format: Format, p: Platform, row: Row)
    requires Corresponds(config, entities, format)
    requires RowKey(p, row, format).Some? && HasEntity(entities, RowKey(p, row, format).value)
    ensures exists other :: other in RowsOf(config, p) && RowKey(p, other, format) == RowKey(p, row, format)
  {
    var e :| e in entities && KeyOf(e) == RowKey(p, row, format).value;
    assert HasRow(config, KeyOf(e), format);
    var other :| other in RowsOf(config, p) && RowIdentity(p, other, format) == Some(e.uniqueId);
    assert RowKey(p, other, format) == RowKey(p, row, format);
  }

  lemma {:induction false} RepeatedIdentity(
    platform: Platform, a: seq<Row>, b: seq<Row>, format: Format, x: Row, y: Row)
    requires exists before :: IndexRows(platform, a + b, format, before).Success?
    requires x in a && y in b && RowKey(platform, x, format).Some?
    ensures RowKey(platform, x, format) != RowKey(platform, y, format)
  {
    hide IndexRows;
    hide RowKey;
    var before :| IndexRows(platform, a + b, format, before).Success?;
    var i :| 0 <= i < |a| && a[i] == x;
    var j :| 0 <= j < |b| && b[j] == y;
    assert (a + b)[i] == x && (a + b)[|a| + j] == y;
    IndexedRowsDiffer(platform, a + b, format, before, i, |a| + j);
  }
}
