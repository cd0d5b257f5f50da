/** What the plan's steps keep: the bijection of rows and entities, manual configuration, and every address. */
module KnxPlanTheorems {
  import opened Common
  import opened KnxIdentity
  import opened KnxPlan
  import opened KnxManualPlan
  import opened KnxPlanSteps

  // ------------------------------------------------------------ adapting

  predicate Named(row: Row) { "unique_id" in row && Truthy(row["unique_id"]) }

  lemma NamedIdentity(platform: Platform, row: Row, format: Format)
    requires Named(row)
    ensures RowIdentity(platform, row, format) == Some(Str(row["unique_id"]))
    ensures RowKey(platform, row, format) == Some(Key(platform, Str(row["unique_id"])))
  {
  }

  ghost predicate Locates(positions: map<Key, nat>, entities: seq<Entity>) {
    && (forall i :: 0 <= i < |entities| ==> KeyOf(entities[i]) in positions && positions[KeyOf(entities[i])] == i)
    && (forall k :: k in positions ==> positions[k] < |entities| && KeyOf(entities[positions[k]]) == k)
  }

  lemma {:induction false} PositionsLocate(entities: seq<Entity>)
    requires DistinctEntities(entities)
    ensures Locates(Positions(entities), entities)
  {
    if entities != [] {
      var n := |entities| - 1;
      PositionsLocate(entities[..n]);
      assert forall i :: 0 <= i < n ==> entities[..n][i] == entities[i];
      assert Positions(entities) == Positions(entities[..n])[KeyOf(entities[n]) := n];
    }
  }

  function Strips(rows: seq<Row>): (r: seq<Row>)
    ensures |r| == |rows| && forall i :: 0 <= i < |r| ==> r[i] == Strip(rows[i])
  {
    if rows == [] then [] else [Strip(rows[0])] + Strips(rows[1..])
  }

  function StripConfig(config: Config): Config {
    if config == [] then [] else [Block(config[0].platform, Strips(config[0].rows))] + StripConfig(config[1..])
  }

  lemma {:induction false} StripConfigRows(config: Config, p: Platform)
    ensures RowsOf(StripConfig(config), p) == Strips(RowsOf(config, p))
    ensures |StripConfig(config)| == |config|
    ensures forall i :: 0 <= i < |config| ==> StripConfig(config)[i].platform == config[i].platform
  {
    if config != [] { StripConfigRows(config[1..], p); }
  }

  predicate OnlyRenamed(before: seq<Entity>, after: seq<Entity>) {
    && |before| == |after|
    && forall i :: 0 <= i < |before| ==>
         before[i].platform == after[i].platform && before[i].addresses == after[i].addresses
  }

  /** The row that carries an entity's planned identity. */
  predicate RowFor(rows: seq<Row>, e: Entity, row: Row) {
    row in rows && Named(row) && Str(row["unique_id"]) == e.uniqueId
  }

  predicate IsRenaming(e: Entity, renamed: Entity, row: Row, format: Format) {
    RowIdentity(e.platform, Strip(row), format).Some? && renamed == Renamed(e, e.platform, Strip(row), format)
  }

  predicate Locatable(platform: Platform, rows: seq<Row>, positions: map<Key, nat>) {
    forall row :: row in rows ==> Named(row) && Key(platform, Str(row["unique_id"])) in positions
  }

  predicate Native(platform: Platform, rows: seq<Row>, format: Format) {
    forall row :: row in rows ==> RowIdentity(platform, Strip(row), format).Some?
  }

  predicate DistinctNames(rows: seq<Row>) {
    forall i, j :: 0 <= i < j < |rows| && Named(rows[i]) && Named(rows[j]) ==>
      Str(rows[i]["unique_id"]) != Str(rows[j]["unique_id"])
  }

  /** What the rows do to one planned entity: rename it when one of them carries its identity. */
  ghost predicate Tracked(rows: seq<Row>, e: Entity, before: Entity, after: Entity, format: Format) {
    if exists row :: RowFor(rows, e, row)
    then exists row :: RowFor(rows, e, row) && IsRenaming(e, after, row, format)
    else after == before
  }

  lemma NativeCons(platform: Platform, row: Row, rest: seq<Row>, format: Format)
    ensures Native(platform, [row] + rest, format) <==>
      RowIdentity(platform, Strip(row), format).Some? && Native(platform, rest, format)
  {
    assert forall x :: x in [row] + rest <==> x == row || x in rest;
  }

  lemma {:induction false} AdaptRowsSucceeds(
    platform: Platform, rows: seq<Row>, format: Format, positions: map<Key, nat>, done: seq<Row>,
    entities: seq<Entity>, planned: seq<Entity>)
    requires Locates(positions, planned) && |planned| == |entities| && Locatable(platform, rows, positions)
    ensures AdaptRows(platform, rows, format, positions, done, entities).Success? <==> Native(platform, rows, format)
    decreases |rows|
  {
    if rows != [] {
      var row, rest := rows[0], rows[1..];
      assert rows == [row] + rest;
      NativeCons(platform, row, rest, format);
      assert row in rows;
      var adapted := AdaptRow(platform, row, format, positions, entities);
      if adapted.Success? {
        AdaptRowsSucceeds(platform, rest, format, positions, done + [Strip(row)], adapted.value, planned);
      }
    }
  }

  lemma {:induction false} AdaptRowsStrips(
    platform: Platform, rows: seq<Row>, format: Format, positions: map<Key, nat>, done: seq<Row>, entities: seq<Entity>)
    requires AdaptRows(platform, rows, format, positions, done, entities).Success?
    ensures var r := AdaptRows(platform, rows, format, positions, done, entities).value;
      r.0 == done + Strips(rows) && |r.1| == |entities|
    decreases |rows|
  {
    if rows != [] {
      var rest := rows[1..];
      var adapted := AdaptRow(platform, rows[0], format, positions, entities).value;
      AdaptRowsStrips(platform, rest, format, positions, done + [Strip(rows[0])], adapted);
      Regroup(done, [Strip(rows[0])], Strips(rest));
    }
  }

  lemma TrackedCons(row: Row, rest: seq<Row>, e: Entity, before: Entity, middle: Entity, after: Entity, format: Format)
    requires DistinctNames([row] + rest) && Named(row)
    requires Tracked(rest, e, middle, after, format)
    requires if Str(row["unique_id"]) == e.uniqueId then IsRenaming(e, middle, row, format) else middle == before
    ensures Tracked([row] + rest, e, before, after, format)
  {
    var rows := [row] + rest;
    if Str(row["unique_id"]) == e.uniqueId {
      forall x | x in rest ensures !RowFor(rest, e, x) {
        var j :| 0 <= j < |rest| && rest[j] == x;
        assert rows[0] == row && rows[j + 1] == x;
      }
      assert RowFor(rows, e, row) && IsRenaming(e, after, row, format);
    } else {
      assert forall x :: RowFor(rows, e, x) <==> RowFor(rest, e, x);
    }
  }

  lemma {:induction false} AdaptRowsTrack(
    platform: Platform, rows: seq<Row>, format: Format, positions: map<Key, nat>, done: seq<Row>,
    entities: seq<Entity>, planned: seq<Entity>, i: nat)
    requires Locates(positions, planned) && OnlyRenamed(planned, entities) && i < |planned|
    requires Locatable(platform, rows, positions) && DistinctNames(rows)
    requires AdaptRows(platform, rows, format, positions, done, entities).Success?
    ensures var after := AdaptRows(platform, rows, format, positions, done, entities).value.1;
      && OnlyRenamed(planned, after)
      && (planned[i].platform == platform ==> Tracked(rows, planned[i], entities[i], after[i], format))
      && (planned[i].platform != platform ==> after[i] == entities[i])
    decreases |rows|
  {
    if rows != [] {
      var row, rest := rows[0], rows[1..];
      assert rows == [row] + rest;
      assert row in rows;
      var key := Key(platform, Str(row["unique_id"]));
      var n := positions[key];
      assert KeyOf(planned[n]) == key;
      var renamed := AdaptRow(platform, row, format, positions, entities).value;
      AdaptRowsTrack(platform, rest, format, positions, done + [Strip(row)], renamed, planned, i);
      if planned[i].platform == platform {
        var after := AdaptRows(platform, rows, format, positions, done, entities).value.1;
        assert KeyOf(planned[i]) == key <==> i == n;
        TrackedCons(row, rest, planned[i], entities[i], renamed[i], after[i], format);
      }
    }
  }

  ghost predicate AllLocatable(config: Config, positions: map<Key, nat>) {
    && (forall p :: Locatable(p, RowsOf(config, p), positions))
    && (forall p :: DistinctNames(RowsOf(config, p)))
  }

  ghost predicate AllNative(config: Config, format: Format) {
    forall p :: Native(p, RowsOf(config, p), format)
  }

  lemma {:induction false} DictTail(config: Config, p: Platform)
    requires Dict(config) && config != []
    ensures Dict(config[1..])
    ensures RowsOf(config, config[0].platform) == config[0].rows
    ensures RowsOf(config[1..], p) == if p == config[0].platform then [] else RowsOf(config, p)
  {
    NoRows(config[1..], config[0].platform);
  }

  lemma {:induction false} AdaptBlocksSucceeds(
    config: Config, format: Format, positions: map<Key, nat>, done: Config, entities: seq<Entity>, planned: seq<Entity>)
    requires Dict(config) && Locates(positions, planned) && |planned| == |entities| && AllLocatable(config, positions)
    ensures AdaptBlocks(config, format, positions, done, entities).Success? <==> AllNative(config, format)
    decreases |config|
  {
    if config == [] {
      assert forall p :: Native(p, RowsOf(config, p), format);
    } else {
      var p0, rows0 := config[0].platform, config[0].rows;
      AllNativeTail(config, format);
      AllLocatableTail(config, positions);
      DictTail(config, p0);
      AdaptRowsSucceeds(p0, rows0, format, positions, [], entities, planned);
      var first := AdaptRows(p0, rows0, format, positions, [], entities);
      if first.Success? {
        AdaptRowsStrips(p0, rows0, format, positions, [], entities);
        AdaptBlocksSucceeds(
          config[1..], format, positions, done + [Block(p0, first.value.0)], first.value.1, planned);
      }
    }
  }

  lemma {:induction false} AdaptBlocksStrips(
    config: Config, format: Format, positions: map<Key, nat>, done: Config, entities: seq<Entity>)
    requires AdaptBlocks(config, format, positions, done, entities).Success?
    ensures AdaptBlocks(config, format, positions, done, entities).value.0 == done + StripConfig(config)
    decreases |config|
  {
    hide AdaptRows;
    hide Strips;
    if config != [] {
      var p0, rows0 := config[0].platform, config[0].rows;
      AdaptRowsStrips(p0, rows0, format, positions, [], entities);
      var (adapted, renamed) := AdaptRows(p0, rows0, format, positions, [], entities).value;
      var none: seq<Row> := [];
      assert none + Strips(rows0) == Strips(rows0);
      AdaptBlocksStrips(config[1..], format, positions, done + [Block(p0, adapted)], renamed);
      StripConfigCons(config, done);
    }
  }

  lemma {:induction false} StripConfigCons(config: Config, done: Config)
    requires config != []
    ensures done + [Block(config[0].platform, Strips(config[0].rows))] + StripConfig(config[1..])
         == done + StripConfig(config)
  {
    hide Strips;
    assert StripConfig(config) == [Block(config[0].platform, Strips(config[0].rows))] + StripConfig(config[1..]);
  }

  lemma {:induction false} AdaptBlocksTrack(
    config: Config, format: Format, positions: map<Key, nat>, done: Config, entities: seq<Entity>,
    planned: seq<Entity>, i: nat)
    requires Dict(config) && Locates(positions, planned) && OnlyRenamed(planned, entities) && i < |planned|
    requires AllLocatable(config, positions)
    requires AdaptBlocks(config, format, positions, done, entities).Success?
    ensures var after := AdaptBlocks(config, format, positions, done, entities).value.1;
      && OnlyRenamed(planned, after)
      && Tracked(RowsOf(config, planned[i].platform), planned[i], entities[i], after[i], format)
    decreases |config|
  {
    if config != [] {
      var p0, rows0 := config[0].platform, config[0].rows;
      DictTail(config, planned[i].platform);
      AllLocatableTail(config, positions);
      AdaptRowsTrack(p0, rows0, format, positions, [], entities, planned, i);
      var (adapted, renamed) := AdaptRows(p0, rows0, format, positions, [], entities).value;
      AdaptBlocksTrack(config[1..], format, positions, done + [Block(p0, adapted)], renamed, planned, i);
    }
  }

  lemma AllLocatableTail(config: Config, positions: map<Key, nat>)
    requires Dict(config) && config != [] && AllLocatable(config, positions)
    ensures Locatable(config[0].platform, config[0].rows, positions) && DistinctNames(config[0].rows)
    ensures AllLocatable(config[1..], positions)
  {
    DictTail(config, config[0].platform);
    assert Locatable(config[0].platform, RowsOf(config, config[0].platform), positions);
    assert DistinctNames(RowsOf(config, config[0].platform));
    forall p
      ensures Locatable(p, RowsOf(config[1..], p), positions) && DistinctNames(RowsOf(config[1..], p))
    {
      DictTail(config, p);
      assert Locatable(p, RowsOf(config, p), positions) && DistinctNames(RowsOf(config, p));
    }
  }

  lemma AllNativeTail(config: Config, format: Format)
    requires Dict(config) && config != []
    ensures AllNative(config, format) <==>
      Native(config[0].platform, config[0].rows, format) && AllNative(config[1..], format)
  {
    DictTail(config, config[0].platform);
    if AllNative(config, format) {
      assert Native(config[0].platform, RowsOf(config, config[0].platform), format);
      forall p ensures Native(p, RowsOf(config[1..], p), format) {
        DictTail(config, p);
        assert Native(p, RowsOf(config, p), format);
      }
    }
    if Native(config[0].platform, config[0].rows, format) && AllNative(config[1..], format) {
      forall p ensures Native(p, RowsOf(config, p), format) {
        DictTail(config, p);
        assert Native(p, RowsOf(config[1..], p), format);
      }
    }
  }

  /** Indexing rejects every platform with two rows of one identity. */
  lemma {:induction false} IndexedMeansDistinct(config: Config, format: Format, index: map<Key, Row>, p: Platform)
    requires Dict(config) && IndexBlocks(config, format, index).Success?
    requires forall q, row :: row in RowsOf(config, q) ==> RowKey(q, row, format).Some?
    ensures DistinctRows(p, RowsOf(config, p), format)
    decreases |config|
  {
    if config != [] {
      var p0, rows0 := config[0].platform, config[0].rows;
      forall q ensures RowsOf(config[1..], q) == if q == p0 then [] else RowsOf(config, q) { DictTail(config, q); }
      assert RowsOf(config, p0) == rows0;
      assert AllKeyed(p0, rows0, format);
      IndexRowsSucceeds(p0, rows0, format, index);
      IndexedMeansDistinct(config[1..], format, IndexRows(p0, rows0, format, index).value, p);
    }
  }

  ghost predicate AllNamed(config: Config) {
    forall p, row :: row in RowsOf(config, p) ==> Named(row)
  }

  lemma PlannedRowsLocatable(plan: Plan, format: Format)
    requires Corresponds(plan.config, plan.entities, format) && AllNamed(plan.config)
    ensures Locates(Positions(plan.entities), plan.entities)
    ensures AllLocatable(plan.config, Positions(plan.entities))
  {
    PositionsLocate(plan.entities);
    var positions := Positions(plan.entities);
    forall p
      ensures Locatable(p, RowsOf(plan.config, p), positions) && DistinctNames(RowsOf(plan.config, p))
    {
      var rows := RowsOf(plan.config, p);
      forall row | row in rows ensures Named(row) && Key(p, Str(row["unique_id"])) in positions {
        NamedIdentity(p, row, format);
        assert HasEntity(plan.entities, RowKey(p, row, format).value);
      }
      assert DistinctRows(p, rows, format);
      forall i, j | 0 <= i < j < |rows| && Named(rows[i]) && Named(rows[j])
        ensures Str(rows[i]["unique_id"]) != Str(rows[j]["unique_id"])
      {
        NamedIdentity(p, rows[i], format);
        NamedIdentity(p, rows[j], format);
      }
    }
  }

  lemma {:induction false} StrippedRowsUnnamed(config: Config, p: Platform, row: Row)
    requires row in RowsOf(StripConfig(config), p)
    ensures Unnamed(row)
    ensures exists original :: original in RowsOf(config, p) && row == Strip(original)
  {
    StripConfigRows(config, p);
    var rows := RowsOf(config, p);
    var i :| 0 <= i < |Strips(rows)| && Strips(rows)[i] == row;
    assert rows[i] in rows && row == Strip(rows[i]);
  }

  ghost predicate StrippedDistinct(config: Config, format: Format) {
    forall p :: DistinctRows(p, Strips(RowsOf(config, p)), format)
  }

  lemma {:induction false} StrippedIndexed(config: Config, format: Format)
    requires Dict(config) && AllNative(config, format)
    ensures IndexedRows(StripConfig(config), format).Success? <==> StrippedDistinct(config, format)
  {
    var stripped := StripConfig(config);
    forall p ensures RowsOf(stripped, p) == Strips(RowsOf(config, p)) { StripConfigRows(config, p); }
    StripConfigRows(config, Light);
    assert Dict(stripped);
    forall p, row | row in RowsOf(stripped, p) ensures RowKey(p, row, format).Some? {
      StrippedRowsUnnamed(config, p, row);
      assert Native(p, RowsOf(config, p), format);
    }
    if IndexedRows(stripped, format).Success? {
      forall p ensures DistinctRows(p, Strips(RowsOf(config, p)), format) {
        IndexedMeansDistinct(stripped, format, map[], p);
      }
    }
    if StrippedDistinct(config, format) {
      forall p ensures DistinctRows(p, RowsOf(stripped, p), format) {
        assert DistinctRows(p, Strips(RowsOf(config, p)), format);
      }
      IndexBlocksWorks(stripped, format, map[]);
    }
  }

  /** Adapting fails exactly for a row without a native identity or for two rows with the same one. */
  lemma AdaptSucceedsExactly(plan: Plan, mode: Mode, format: Format)
    requires Corresponds(plan.config, plan.entities, format) && AllNamed(plan.config) && !mode.Custom?
    ensures Adapt(plan, mode, format).Success? <==>
      AllNative(plan.config, format) && StrippedDistinct(plan.config, format)
    ensures Adapt(plan, mode, format).Success? ==>
      var r := Adapt(plan, mode, format).value;
      r.config == StripConfig(plan.config) && |r.entities| == |plan.entities| && r.skipped == plan.skipped
  {
    PlannedRowsLocatable(plan, format);
    var positions := Positions(plan.entities);
    AdaptBlocksSucceeds(plan.config, format, positions, [], plan.entities, plan.entities);
    if AdaptBlocks(plan.config, format, positions, [], plan.entities).Success? {
      AdaptBlocksStrips(plan.config, format, positions, [], plan.entities);
      assert [] + StripConfig(plan.config) == StripConfig(plan.config);
      StrippedIndexed(plan.config, format);
      if Adapt(plan, mode, format).Success? {
        AdaptedEntityHasRow(plan, mode, format, 0);
      }
    }
  }

  /** Each adapted entity is the planned one under the native identity of its own row. */
  lemma AdaptedEntityHasRow(plan: Plan, mode: Mode, format: Format, i: nat)
    requires Corresponds(plan.config, plan.entities, format) && AllNamed(plan.config) && !mode.Custom?
    requires Adapt(plan, mode, format).Success?
    ensures var r := Adapt(plan, mode, format).value;
      && OnlyRenamed(plan.entities, r.entities)
      && (i < |plan.entities| ==>
           exists row :: RowFor(RowsOf(plan.config, plan.entities[i].platform), plan.entities[i], row)
             && IsRenaming(plan.entities[i], r.entities[i], row, format))
  {
    PlannedRowsLocatable(plan, format);
    var positions := Positions(plan.entities);
    if i < |plan.entities| {
      var e := plan.entities[i];
      AdaptBlocksTrack(plan.config, format, positions, [], plan.entities, plan.entities, i);
      var k := KeyOf(e);
      assert HasRow(plan.config, k, format);
      var row :| row in RowsOf(plan.config, k.platform) && RowIdentity(k.platform, row, format) == Some(k.uid);
      NamedIdentity(k.platform, row, format);
      assert RowFor(RowsOf(plan.config, e.platform), e, row);
    } else if plan.entities != [] {
      AdaptBlocksTrack(plan.config, format, positions, [], plan.entities, plan.entities, 0);
    } else {
      AdaptBlocksKeepNone(plan.config, format, positions);
    }
  }

  lemma {:induction false} AdaptBlocksKeepNone(config: Config, format: Format, positions: map<Key, nat>)
    requires AdaptBlocks(config, format, positions, [], []).Success?
    ensures AdaptBlocks(config, format, positions, [], []).value.1 == []
  {
    AdaptBlocksKeepCount(config, format, positions, [], []);
  }

  lemma {:induction false} AdaptBlocksKeepCount(
    config: Config, format: Format, positions: map<Key, nat>, done: Config, entities: seq<Entity>)
    requires AdaptBlocks(config, format, positions, done, entities).Success?
    ensures |AdaptBlocks(config, format, positions, done, entities).value.1| == |entities|
    decreases |config|
  {
    if config != [] {
      AdaptRowsStrips(config[0].platform, config[0].rows, format, positions, [], entities);
      var (rows, renamed) := AdaptRows(config[0].platform, config[0].rows, format, positions, [], entities).value;
      AdaptBlocksKeepCount(config[1..], format, positions, done + [Block(config[0].platform, rows)], renamed);
    }
  }

  /**
    Adapting keeps the bijection, and the identity a deployed entity is later looked up by is
    the one its row has.
   */
  lemma AdaptKeepsCorrespondence(plan: Plan, mode: Mode, format: Format)
    requires Corresponds(plan.config, plan.entities, format) && AllNamed(plan.config) && !mode.Custom?
    requires Adapt(plan, mode, format).Success?
    ensures var r := Adapt(plan, mode, format).value;
      && Corresponds(r.config, r.entities, format)
      && OnlyRenamed(plan.entities, r.entities)
      && forall e :: e in r.entities ==> ManifestIdentity(e, mode, format) == e.uniqueId
  {
    hide Adapt;
    hide RowKey;
    hide ManifestIdentity;
    hide DistinctRows;
    hide HasEntity;
    hide HasRow;
    hide Dict;
    hide DistinctEntities;
    AdaptedEntityHasRow(plan, mode, format, 0);
    AdaptedDistinct(plan, mode, format);
    AdaptedHaveRows(plan, mode, format);
    AdaptedRowsDistinct(plan, mode, format);
    AdaptedRowsHaveEntities(plan, mode, format);
  }

  lemma AdaptedHaveRows(plan: Plan, mode: Mode, format: Format)
    requires Corresponds(plan.config, plan.entities, format) && AllNamed(plan.config) && !mode.Custom?
    requires Adapt(plan, mode, format).Success?
    ensures var r := Adapt(plan, mode, format).value;
      forall e :: e in r.entities ==> HasRow(r.config, KeyOf(e), format) && ManifestIdentity(e, mode, format) == e.uniqueId
  {
    hide Adapt;
    hide HasRow;
    hide ManifestIdentity;
    hide Corresponds;
    var r := Adapt(plan, mode, format).value;
    forall e | e in r.entities
      ensures HasRow(r.config, KeyOf(e), format) && ManifestIdentity(e, mode, format) == e.uniqueId
    {
      var i :| 0 <= i < |r.entities| && r.entities[i] == e;
      AdaptedEntityFacts(plan, mode, format, i);
    }
  }

  lemma AdaptedRowsDistinct(plan: Plan, mode: Mode, format: Format)
    requires Corresponds(plan.config, plan.entities, format) && AllNamed(plan.config) && !mode.Custom?
    requires Adapt(plan, mode, format).Success?
    ensures var r := Adapt(plan, mode, format).value;
      Dict(r.config) && forall p :: DistinctRows(p, RowsOf(r.config, p), format)
  {
    hide Adapt;
    hide DistinctRows;
    AdaptSucceedsExactly(plan, mode, format);
    StripConfigRows(plan.config, Light);
    forall p ensures DistinctRows(p, RowsOf(StripConfig(plan.config), p), format) {
      StripConfigRows(plan.config, p);
      assert DistinctRows(p, Strips(RowsOf(plan.config, p)), format);
    }
  }

  lemma AdaptedRowsHaveEntities(plan: Plan, mode: Mode, format: Format)
    requires Corresponds(plan.config, plan.entities, format) && AllNamed(plan.config) && !mode.Custom?
    requires Adapt(plan, mode, format).Success?
    ensures var r := Adapt(plan, mode, format).value;
      forall p, row :: row in RowsOf(r.config, p) ==>
        RowKey(p, row, format).Some? && HasEntity(r.entities, RowKey(p, row, format).value)
  {
    hide Adapt;
    hide RowKey;
    hide HasEntity;
    hide Corresponds;
    var r := Adapt(plan, mode, format).value;
    forall p, row | row in RowsOf(r.config, p)
      ensures RowKey(p, row, format).Some? && HasEntity(r.entities, RowKey(p, row, format).value)
    {
      AdaptedRowHasEntity(plan, mode, format, p, row);
    }
  }

  lemma AdaptedEntityFacts(plan: Plan, mode: Mode, format: Format, i: nat)
    requires Corresponds(plan.config, plan.entities, format) && AllNamed(plan.config) && !mode.Custom?
    requires Adapt(plan, mode, format).Success? && i < |Adapt(plan, mode, format).value.entities|
    ensures var r := Adapt(plan, mode, format).value;
      && HasRow(r.config, KeyOf(r.entities[i]), format)
      && ManifestIdentity(r.entities[i], mode, format) == r.entities[i].uniqueId
  {
    var r := Adapt(plan, mode, format).value;
    AdaptSucceedsExactly(plan, mode, format);
    AdaptedEntityHasRow(plan, mode, format, i);
    var e := plan.entities[i];
    var row :| RowFor(RowsOf(plan.config, e.platform), e, row) && IsRenaming(e, r.entities[i], row, format);
    StripConfigRows(plan.config, e.platform);
    StripMember(RowsOf(plan.config, e.platform), row);
    RenamedIdentity(e, r.entities[i], row, mode, format);
  }

  lemma RenamedIdentity(e: Entity, renamed: Entity, row: Row, mode: Mode, format: Format)
    requires IsRenaming(e, renamed, row, format) && !mode.Custom?
    ensures RowIdentity(renamed.platform, Strip(row), format) == Some(renamed.uniqueId)
    ensures ManifestIdentity(renamed, mode, format) == renamed.uniqueId
  {
    IdentityCommutesWithFormat(e.platform, Strip(row), format);
  }

  lemma {:induction false} StripMember(rows: seq<Row>, row: Row)
    requires row in rows
    ensures Strip(row) in Strips(rows)
  {
    var i :| 0 <= i < |rows| && rows[i] == row;
    assert Strips(rows)[i] == Strip(row);
  }

  lemma PlannedEntity(plan: Plan, format: Format, p: Platform, row: Row) returns (i: nat)
    requires Corresponds(plan.config, plan.entities, format) && AllNamed(plan.config)
    requires row in RowsOf(plan.config, p)
    ensures i < |plan.entities| && plan.entities[i].platform == p && Named(row)
    ensures plan.entities[i].uniqueId == Str(row["unique_id"])
    ensures DistinctRows(p, RowsOf(plan.config, p), format)
  {
    NamedIdentity(p, row, format);
    assert HasEntity(plan.entities, RowKey(p, row, format).value);
    var e :| e in plan.entities && KeyOf(e) == RowKey(p, row, format).value;
    i :| 0 <= i < |plan.entities| && plan.entities[i] == e;
  }

  lemma {:induction false} AdaptedRowHasEntity(plan: Plan, mode: Mode, format: Format, p: Platform, row: Row)
    requires Corresponds(plan.config, plan.entities, format) && AllNamed(plan.config) && !mode.Custom?
    requires Adapt(plan, mode, format).Success? && row in RowsOf(Adapt(plan, mode, format).value.config, p)
    ensures RowKey(p, row, format).Some?
    ensures HasEntity(Adapt(plan, mode, format).value.entities, RowKey(p, row, format).value)
  {
    var r := Adapt(plan, mode, format).value;
    AdaptSucceedsExactly(plan, mode, format);
    StrippedRowsUnnamed(plan.config, p, row);
    var original :| original in RowsOf(plan.config, p) && row == Strip(original);
    var i := PlannedEntity(plan, format, p, original);
    var e := plan.entities[i];
    AdaptedEntityHasRow(plan, mode, format, i);
    var other :| RowFor(RowsOf(plan.config, p), e, other) && IsRenaming(e, r.entities[i], other, format);
    NamedIdentity(p, original, format);
    NamedIdentity(p, other, format);
    RenamedRowKnown(RowsOf(plan.config, p), format, e, r.entities, i, original, other);
  }

  lemma RenamedRowKnown(
    rows: seq<Row>, format: Format, e: Entity, renamed: seq<Entity>, i: nat, original: Row, other: Row)
    requires DistinctRows(e.platform, rows, format) && original in rows && other in rows && i < |renamed|
    requires RowIdentity(e.platform, original, format) == RowIdentity(e.platform, other, format)
    requires IsRenaming(e, renamed[i], other, format)
    ensures RowKey(e.platform, Strip(original), format).Some?
    ensures HasEntity(renamed, RowKey(e.platform, Strip(original), format).value)
  {
    SameIdentitySameRow(e.platform, rows, format, original, other);
    RenamedKey(e, renamed[i], other, format);
    assert renamed[i] in renamed;
  }

  lemma RenamedKey(e: Entity, renamed: Entity, row: Row, format: Format)
    requires IsRenaming(e, renamed, row, format)
    ensures RowKey(e.platform, Strip(row), format) == Some(KeyOf(renamed))
  {
  }

  lemma SamePlace(p: Platform, rows: seq<Row>, format: Format, i: nat, j: nat)
    requires DistinctRows(p, rows, format) && i < |rows| && j < |rows|
    requires RowIdentity(p, rows[i], format) == RowIdentity(p, rows[j], format)
    ensures i == j
  {
  }

  lemma SameIdentitySameRow(p: Platform, rows: seq<Row>, format: Format, a: Row, b: Row)
    requires DistinctRows(p, rows, format) && a in rows && b in rows
    requires RowIdentity(p, a, format) == RowIdentity(p, b, format)
    ensures a == b
  {
    var i :| 0 <= i < |rows| && rows[i] == a;
    var j :| 0 <= j < |rows| && rows[j] == b;
    SamePlace(p, rows, format, i, j);
  }

  /** Rows under different planned names end up under different native ones. */
  lemma {:induction false} RenamingsDiffer(
    p: Platform, rows: seq<Row>, format: Format, e: Entity, f: Entity, a: Row, b: Row)
    requires DistinctRows(p, Strips(rows), format)
    requires RowFor(rows, e, a) && RowFor(rows, f, b) && e.uniqueId != f.uniqueId
    ensures RowIdentity(p, Strip(a), format) != RowIdentity(p, Strip(b), format)
  {
    var k :| 0 <= k < |rows| && rows[k] == a;
    var l :| 0 <= l < |rows| && rows[l] == b;
    assert Strips(rows)[k] == Strip(a) && Strips(rows)[l] == Strip(b);
    if k < l {
      assert RowIdentity(p, Strips(rows)[k], format) != RowIdentity(p, Strips(rows)[l], format);
    } else {
      assert l < k;
      assert RowIdentity(p, Strips(rows)[l], format) != RowIdentity(p, Strips(rows)[k], format);
    }
  }

  lemma AdaptedDistinct(plan: Plan, mode: Mode, format: Format)
    requires Corresponds(plan.config, plan.entities, format) && AllNamed(plan.config) && !mode.Custom?
    requires Adapt(plan, mode, format).Success?
    ensures DistinctEntities(Adapt(plan, mode, format).value.entities)
  {
    var r := Adapt(plan, mode, format).value;
    AdaptSucceedsExactly(plan, mode, format);
    forall i, j | 0 <= i < j < |r.entities| ensures KeyOf(r.entities[i]) != KeyOf(r.entities[j]) {
      AdaptedEntityHasRow(plan, mode, format, i);
      AdaptedEntityHasRow(plan, mode, format, j);
      var e, f := plan.entities[i], plan.entities[j];
      assert KeyOf(e) != KeyOf(f);
      if e.platform == f.platform {
        var rows := RowsOf(plan.config, e.platform);
        var a :| RowFor(rows, e, a) && IsRenaming(e, r.entities[i], a, format);
        var b :| RowFor(rows, f, b) && IsRenaming(f, r.entities[j], b, format);
        assert DistinctRows(e.platform, Strips(rows), format);
        RenamingsDiffer(e.platform, rows, format, e, f, a, b);
        RenamedKey(e, r.entities[i], a, format);
        RenamedKey(f, r.entities[j], b, format);
      }
    }
  }

  /** Whether a plan can be adapted does not depend on the project's address format. */
  lemma AdaptIgnoresFormat(plan: Plan, mode: Mode, format: Format)
    requires Corresponds(plan.config, plan.entities, format) && AllNamed(plan.config) && !mode.Custom?
    ensures Corresponds(plan.config, plan.entities, Long)
    ensures Adapt(plan, mode, format).Success? <==> Adapt(plan, mode, Long).Success?
  {
    NamedCorrespondenceIgnoresFormat(plan, format);
    AdaptSucceedsExactly(plan, mode, format);
    AdaptSucceedsExactly(plan, mode, Long);
    hide *;
    forall p ensures Native(p, RowsOf(plan.config, p), format) <==> Native(p, RowsOf(plan.config, p), Long) {
      NativeSame(p, RowsOf(plan.config, p), format);
    }
    forall p
      ensures DistinctRows(p, Strips(RowsOf(plan.config, p)), format) <==>
        DistinctRows(p, Strips(RowsOf(plan.config, p)), Long)
    {
      DistinctSame(p, Strips(RowsOf(plan.config, p)), format);
    }
    AllNativeSame(plan.config, format);
    StrippedDistinctSame(plan.config, format);
  }

  lemma NativeSame(p: Platform, rows: seq<Row>, format: Format)
    ensures Native(p, rows, format) <==> Native(p, rows, Long)
  {
    forall row | row in rows
      ensures RowIdentity(p, Strip(row), format).Some? <==> RowIdentity(p, Strip(row), Long).Some?
    {
      IdentityCommutesWithFormat(p, Strip(row), format);
    }
  }

  lemma DistinctSame(p: Platform, rows: seq<Row>, format: Format)
    requires forall row :: row in rows ==> Unnamed(row)
    ensures DistinctRows(p, rows, format) <==> DistinctRows(p, rows, Long)
  {
    forall i, j | 0 <= i < |rows| && 0 <= j < |rows|
      ensures RowIdentity(p, rows[i], format) == RowIdentity(p, rows[j], format) <==>
        RowIdentity(p, rows[i], Long) == RowIdentity(p, rows[j], Long)
    {
      FormatsDistinguishTheSameRows(p, rows[i], rows[j], format);
    }
  }

  lemma {:induction false} AllNativeSame(config: Config, format: Format)
    requires forall p :: Native(p, RowsOf(config, p), format) <==> Native(p, RowsOf(config, p), Long)
    ensures AllNative(config, format) <==> AllNative(config, Long)
  {
  }

  lemma {:induction false} StrippedDistinctSame(config: Config, format: Format)
    requires forall p :: DistinctRows(p, Strips(RowsOf(config, p)), format) <==>
      DistinctRows(p, Strips(RowsOf(config, p)), Long)
    ensures StrippedDistinct(config, format) <==> StrippedDistinct(config, Long)
  {
  }

  lemma NamedCorrespondenceIgnoresFormat(plan: Plan, format: Format)
    requires Corresponds(plan.config, plan.entities, format) && AllNamed(plan.config)
    ensures Corresponds(plan.config, plan.entities, Long)
  {
    forall p, row | row in RowsOf(plan.config, p)
      ensures RowIdentity(p, row, Long) == RowIdentity(p, row, format)
    {
      NamedIdentity(p, row, format);
      NamedIdentity(p, row, Long);
    }
    forall p ensures DistinctRows(p, RowsOf(plan.config, p), Long) {
      assert DistinctRows(p, RowsOf(plan.config, p), format);
    }
    forall p, row | row in RowsOf(plan.config, p)
      ensures RowKey(p, row, Long).Some? && HasEntity(plan.entities, RowKey(p, row, Long).value)
    {
      assert RowKey(p, row, Long) == RowKey(p, row, format);
    }
    forall e | e in plan.entities ensures HasRow(plan.config, KeyOf(e), Long) {
      var k := KeyOf(e);
      assert HasRow(plan.config, k, format);
      var row :| row in RowsOf(plan.config, k.platform) && RowIdentity(k.platform, row, format) == Some(k.uid);
      assert RowIdentity(k.platform, row, Long) == Some(k.uid);
    }
  }
}
