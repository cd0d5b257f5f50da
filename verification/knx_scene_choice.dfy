/** Scene choice and the site's own configuration: what leaves the plan, what stays, and what is reported. */
module KnxSceneChoice {
  import opened Common
  import opened KnxIdentity
  import opened KnxPlan
  import opened KnxManualPlan
  import opened KnxPlanSteps
  import opened KnxPlanTheorems

  /** The correspondence reads a configuration only platform by platform. */
  lemma {:induction false} CorrespondsByRows(a: Config, b: Config, entities: seq<Entity>, format: Format)
    requires Corresponds(a, entities, format) && Dict(b)
    requires forall p :: RowsOf(a, p) == RowsOf(b, p)
    ensures Corresponds(b, entities, format)
  {
    forall p ensures DistinctRows(p, RowsOf(b, p), format) {
      assert DistinctRows(p, RowsOf(a, p), format);
    }
    forall p, row | row in RowsOf(b, p)
      ensures RowKey(p, row, format).Some? && HasEntity(entities, RowKey(p, row, format).value)
    {
      assert row in RowsOf(a, p);
    }
    forall e | e in entities ensures HasRow(b, KeyOf(e), format) {
      assert HasRow(a, KeyOf(e), format);
      var row :| row in RowsOf(a, e.platform) && RowIdentity(e.platform, row, format) == Some(e.uniqueId);
      assert row in RowsOf(b, e.platform);
    }
  }

  /** Rejecting keys that no row of the platform has changes nothing. */
  lemma {:induction false} KeepAllRows(platform: Platform, rows: seq<Row>, rejected: set<Key>, format: Format)
    requires forall row :: row in rows && RowKey(platform, row, format).Some? ==>
      RowKey(platform, row, format).value !in rejected
    ensures KeepRows(platform, rows, rejected, format) == rows
  {
    if rows != [] {
      assert rows == [rows[0]] + rows[1..];
      KeepAllRows(platform, rows[1..], rejected, format);
    }
  }

  // ------------------------------------------------------------- choosing scenes

  predicate IsExcluded(row: Row, excluded: set<SceneKey>) {
    SceneKeyOf(row).Success? && SceneKeyOf(row).value in excluded
  }

  function SelectedRows(rows: seq<Row>, excluded: set<SceneKey>): seq<Row> {
    if rows == [] then []
    else (if IsExcluded(rows[0], excluded) then [] else [rows[0]]) + SelectedRows(rows[1..], excluded)
  }

  function DroppedKeys(rows: seq<Row>, excluded: set<SceneKey>, format: Format): set<Key> {
    set row | row in rows && IsExcluded(row, excluded) && RowKey(Scene, row, format).Some?
      :: RowKey(Scene, row, format).value
  }

  function ExcludedAddresses(rows: seq<Row>, excluded: set<SceneKey>): set<string> {
    set row | row in rows && IsExcluded(row, excluded) :: SceneKeyOf(row).value.address
  }

  lemma {:induction false} ChooseSucceeds(rows: seq<Row>, excluded: set<SceneKey>, format: Format, so: Choice)
    ensures ChooseRows(rows, excluded, format, so).Success? <==>
      forall row :: row in rows ==> SceneKeyOf(row).Success?
    decreases |rows|
  {
    if rows != [] {
      assert rows == [rows[0]] + rows[1..];
      if SceneKeyOf(rows[0]).Success? {
        ChooseSucceeds(
          rows[1..], excluded, format, ChooseRow(rows[0], SceneKeyOf(rows[0]).value, excluded, format, so));
      }
    }
  }

  lemma {:induction false} ChooseKeeps(rows: seq<Row>, excluded: set<SceneKey>, format: Format, so: Choice)
    requires ChooseRows(rows, excluded, format, so).Success?
    ensures ChooseRows(rows, excluded, format, so).value.kept == so.kept + SelectedRows(rows, excluded)
    decreases |rows|
  {
    if rows != [] {
      ChooseKeeps(rows[1..], excluded, format, ChooseRow(rows[0], SceneKeyOf(rows[0]).value, excluded, format, so));
      Regroup(so.kept, [rows[0]], SelectedRows(rows[1..], excluded));
    }
  }

  lemma DroppedCons(row: Row, rest: seq<Row>, excluded: set<SceneKey>, format: Format)
    ensures DroppedKeys([row] + rest, excluded, format) ==
      (if IsExcluded(row, excluded) && RowKey(Scene, row, format).Some?
       then {RowKey(Scene, row, format).value} else {}) + DroppedKeys(rest, excluded, format)
  {
    assert forall x :: x in [row] + rest <==> x == row || x in rest;
  }

  lemma {:induction false} ChooseDrops(rows: seq<Row>, excluded: set<SceneKey>, format: Format, so: Choice)
    requires ChooseRows(rows, excluded, format, so).Success?
    ensures ChooseRows(rows, excluded, format, so).value.dropped == so.dropped + DroppedKeys(rows, excluded, format)
    decreases |rows|
  {
    if rows != [] {
      assert rows == [rows[0]] + rows[1..];
      DroppedCons(rows[0], rows[1..], excluded, format);
      ChooseDrops(rows[1..], excluded, format, ChooseRow(rows[0], SceneKeyOf(rows[0]).value, excluded, format, so));
    }
  }

  lemma ExcludedCons(row: Row, rest: seq<Row>, excluded: set<SceneKey>)
    ensures ExcludedAddresses([row] + rest, excluded) ==
      (if IsExcluded(row, excluded) then {SceneKeyOf(row).value.address} else {}) + ExcludedAddresses(rest, excluded)
  {
    assert forall x :: x in [row] + rest <==> x == row || x in rest;
  }

  lemma {:induction false} ChooseReports(rows: seq<Row>, excluded: set<SceneKey>, format: Format, so: Choice)
    requires ChooseRows(rows, excluded, format, so).Success?
    ensures var r := ChooseRows(rows, excluded, format, so).value;
      so.skipped <= r.skipped && SkippedSet(r.skipped) == SkippedSet(so.skipped) + ExcludedAddresses(rows, excluded)
    decreases |rows|
  {
    hide SceneKeyOf;
    if rows != [] {
      assert rows == [rows[0]] + rows[1..];
      var key := SceneKeyOf(rows[0]).value;
      ExcludedCons(rows[0], rows[1..], excluded);
      SkippedCons(Skip(key.address, NOT_SELECTED), so.skipped);
      ChooseReports(rows[1..], excluded, format, ChooseRow(rows[0], key, excluded, format, so));
    }
  }

  /** The selected rows are the ones whose identity was not dropped. */
  lemma {:induction false} SelectedByIdentity(
    rows: seq<Row>, some: seq<Row>, excluded: set<SceneKey>, format: Format)
    requires DistinctRows(Scene, rows, format) && AllKeyed(Scene, rows, format)
    requires forall row :: row in some ==> row in rows
    ensures KeepRows(Scene, some, DroppedKeys(rows, excluded, format), format) == SelectedRows(some, excluded)
    decreases |some|
  {
    if some != [] {
      var row := some[0];
      assert some == [row] + some[1..];
      SelectedByIdentity(rows, some[1..], excluded, format);
      var key := RowKey(Scene, row, format).value;
      if key in DroppedKeys(rows, excluded, format) && !IsExcluded(row, excluded) {
        var other :| other in rows && IsExcluded(other, excluded) && RowKey(Scene, other, format) == Some(key);
        SameIdentitySameRow(Scene, rows, format, row, other);
      }
    }
  }

  lemma {:induction false} ReplaceRowsFind(config: Config, platform: Platform, rows: seq<Row>, p: Platform)
    requires Dict(config) && (RowsOf(config, platform) == [] ==> rows == [])
    ensures RowsOf(ReplaceRows(config, platform, rows), p) == if p == platform then rows else RowsOf(config, p)
  {
    if config != [] {
      NoRows(config[1..], config[0].platform);
      if config[0].platform == platform && rows == [] {
        assert ReplaceRows(config, platform, rows) == config[1..];
      } else if config[0].platform == platform {
        assert ReplaceRows(config, platform, rows)[1..] == config[1..];
      } else {
        ReplaceRowsFind(config[1..], platform, rows, p);
      }
    }
  }

  lemma {:induction false} ReplaceRowsPlatforms(config: Config, platform: Platform, rows: seq<Row>)
    ensures forall b :: b in ReplaceRows(config, platform, rows) ==>
      exists c :: c in config && c.platform == b.platform
  {
    if config != [] {
      assert config == [config[0]] + config[1..];
      ReplaceRowsPlatforms(config[1..], platform, rows);
      forall b | b in ReplaceRows(config, platform, rows) ensures exists c :: c in config && c.platform == b.platform {
        if b.platform == config[0].platform {
          assert config[0] in config;
        } else if config[0].platform == platform {
          assert b in config[1..];
        } else {
          assert b in ReplaceRows(config[1..], platform, rows);
          var c :| c in config[1..] && c.platform == b.platform;
          assert c in config;
        }
      }
    }
  }

  lemma {:induction false} ReplaceRowsDict(config: Config, platform: Platform, rows: seq<Row>)
    requires Dict(config)
    ensures Dict(ReplaceRows(config, platform, rows))
  {
    if config != [] {
      var rest := config[1..];
      forall b | b in rest ensures b.platform != config[0].platform {
        var j :| 0 <= j < |rest| && rest[j] == b;
        assert config[j + 1] == b;
      }
      if config[0].platform == platform {
        DictCons(Block(platform, rows), rest);
      } else {
        ReplaceRowsDict(rest, platform, rows);
        ReplaceRowsPlatforms(rest, platform, rows);
        DictCons(config[0], ReplaceRows(rest, platform, rows));
      }
    }
  }

  lemma {:induction false} ChooseAll(rows: seq<Row>, excluded: set<SceneKey>, format: Format)
    requires ChooseRows(rows, excluded, format, Choice([], {}, [])).Success?
    ensures var choice := ChooseRows(rows, excluded, format, Choice([], {}, [])).value;
      && choice.kept == SelectedRows(rows, excluded)
      && choice.dropped == DroppedKeys(rows, excluded, format)
      && SkippedSet(choice.skipped) == ExcludedAddresses(rows, excluded)
  {
    var none := Choice([], {}, []);
    ChooseKeeps(rows, excluded, format, none);
    ChooseDrops(rows, excluded, format, none);
    ChooseReports(rows, excluded, format, none);
  }

  /** What leaving scenes out does to the rows and entities. */
  lemma {:induction false} SelectSpec(plan: Plan, excluded: set<SceneKey>, format: Format, p: Platform)
    requires Dict(plan.config) && Select(plan, excluded, format).Success?
    ensures var rows := RowsOf(plan.config, Scene);
      var r := Select(plan, excluded, format).value;
      && RowsOf(r.config, p) == (if p == Scene then SelectedRows(rows, excluded) else RowsOf(plan.config, p))
      && Dict(r.config)
      && r.entities == KeepEntities(plan.entities, DroppedKeys(rows, excluded, format))
  {
    var rows := RowsOf(plan.config, Scene);
    ChooseAll(rows, excluded, format);
    SelectedRowsEmpty(rows, excluded);
    ReplaceRowsFind(plan.config, Scene, SelectedRows(rows, excluded), p);
    ReplaceRowsDict(plan.config, Scene, SelectedRows(rows, excluded));
  }

  /** Every scene left out is reported by its address, and nothing else is. */
  lemma SelectReportsExcluded(plan: Plan, excluded: set<SceneKey>, format: Format)
    requires Select(plan, excluded, format).Success?
    ensures var r := Select(plan, excluded, format).value;
      && plan.skipped <= r.skipped
      && SkippedSet(r.skipped) ==
           SkippedSet(plan.skipped) + ExcludedAddresses(RowsOf(plan.config, Scene), excluded)
  {
    var rows := RowsOf(plan.config, Scene);
    ChooseAll(rows, excluded, format);
    SkippedConcat(plan.skipped, ChooseRows(rows, excluded, format, Choice([], {}, [])).value.skipped);
  }

  /** Leaving scenes out succeeds exactly when every scene row has an address and a number. */
  lemma SelectSucceedsExactly(plan: Plan, excluded: set<SceneKey>, format: Format)
    ensures Select(plan, excluded, format).Success? <==>
      forall row :: row in RowsOf(plan.config, Scene) ==> SceneKeyOf(row).Success?
  {
    ChooseSucceeds(RowsOf(plan.config, Scene), excluded, format, Choice([], {}, []));
  }

  lemma {:induction false} SelectRowsByIdentity(plan: Plan, excluded: set<SceneKey>, format: Format, p: Platform)
    requires Corresponds(plan.config, plan.entities, format) && Select(plan, excluded, format).Success?
    ensures RowsOf(Select(plan, excluded, format).value.config, p) ==
      RowsOf(KeepConfig(plan.config, DroppedKeys(RowsOf(plan.config, Scene), excluded, format), format), p)
  {
    var rows := RowsOf(plan.config, Scene);
    var dropped := DroppedKeys(rows, excluded, format);
    SelectSpec(plan, excluded, format, p);
    KeepConfigSpec(plan.config, dropped, format, p);
    if p == Scene {
      assert DistinctRows(Scene, rows, format);
      SelectedByIdentity(rows, rows, excluded, format);
    } else {
      KeepAllRows(p, RowsOf(plan.config, p), dropped, format);
    }
  }

  /** Leaving scenes out keeps the bijection of rows and entities. */
  lemma SelectKeepsCorrespondence(plan: Plan, excluded: set<SceneKey>, format: Format)
    requires Corresponds(plan.config, plan.entities, format) && Select(plan, excluded, format).Success?
    ensures Corresponds(Select(plan, excluded, format).value.config, Select(plan, excluded, format).value.entities, format)
  {
    var r := Select(plan, excluded, format).value;
    var dropped := DroppedKeys(RowsOf(plan.config, Scene), excluded, format);
    SelectSpec(plan, excluded, format, Scene);
    RetainedCorresponds(plan, dropped, format);
    forall p ensures RowsOf(r.config, p) == RowsOf(KeepConfig(plan.config, dropped, format), p) {
      SelectRowsByIdentity(plan, excluded, format, p);
    }
    CorrespondsByRows(KeepConfig(plan.config, dropped, format), r.config, r.entities, format);
  }

  lemma {:induction false} SelectedRowsEmpty(rows: seq<Row>, excluded: set<SceneKey>)
    ensures rows == [] ==> SelectedRows(rows, excluded) == []
  {
  }

  lemma SkippedConcat(a: seq<Skip>, b: seq<Skip>)
    ensures SkippedSet(a + b) == SkippedSet(a) + SkippedSet(b)
  {
    assert forall s :: s in a + b <==> s in a || s in b;
  }
}
