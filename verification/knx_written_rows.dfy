/** Which rows a deployment writes, told from the planned rows, the approved ones and the site's own configuration. */
module KnxWrittenRows {
  import opened Common
  import opened KnxIdentity
  import opened KnxPlan
  import opened KnxManualPlan
  import opened KnxPlanSteps
  import opened KnxPlanTheorems
  import opened KnxSceneChoice
  import opened KnxPlanFilter
  import opened KnxDeploymentPlan

  // ------------------------------------------------------------- whose rows are whose

  /** An entity stored under a long identity has, in every format, the identity its row has in it. */
  lemma IdentityFollowsFormat(e: Entity, row: Row, long: string, mode: Mode, format: Format)
    requires Unnamed(row) && RowIdentity(e.platform, row, Long) == Some(long)
    requires e.canonical == Some(long) || (e.canonical == None && e.uniqueId == long)
    ensures !mode.Custom? ==> RowIdentity(e.platform, row, format) == Some(ManifestIdentity(e, mode, format))
    ensures mode.Custom? ==> ManifestIdentity(e, mode, format) == e.uniqueId
  {
    IdentityCommutesWithFormat(e.platform, row, format);
  }

  /** The row stands for an entity of the previous deployment. */
  ghost predicate OfPrevious(previous: Option<Previous>, format: Format, p: Platform, row: Row) {
    previous.Some?
    && exists e :: e in previous.value.entities && e.platform == p
                   && RowIdentity(p, row, format) == Some(ManifestIdentity(e, previous.value.mode, format))
  }

  /** A row of the site's own configuration. */
  ghost predicate Foreign(existing: Config, previous: Option<Previous>, format: Format, p: Platform, row: Row) {
    row in RowsOf(existing, p) && !OfPrevious(previous, format, p, row)
  }

  /** No row of the site's own configuration, and no entity made in the interface, has one of its addresses. */
  ghost predicate Clear(existing: Config, previous: Option<Previous>, ui: set<string>, format: Format, row: Row) {
    && (forall q, other, a :: Foreign(existing, previous, format, q, other) && a in RowAddresses(other) ==>
          a !in RowAddresses(row))
    && (forall text, a :: text in ui && Address(text) == Some(a) ==> a !in RowAddresses(row))
  }

  lemma OwnedIs(previous: Option<Previous>, format: Format, p: Platform, row: Row)
    ensures IsOwned(p, row, Owned(previous, format), format) <==> OfPrevious(previous, format, p, row)
  {
    hide RowIdentity;
    hide ManifestIdentity;
  }

  lemma ForeignIs(existing: Config, previous: Option<Previous>, format: Format, p: Platform, row: Row)
    ensures IsManualRow(existing, Owned(previous, format), format, p, row) <==> Foreign(existing, previous, format, p, row)
  {
    OwnedIs(previous, format, p, row);
  }

  lemma ManualIs(existing: Config, previous: Option<Previous>, ui: set<string>, format: Format, a: string)
    requires Dict(existing)
    ensures a in Manual(existing, previous, ui, format) <==>
      || (exists q, other :: Foreign(existing, previous, format, q, other) && a in RowAddresses(other))
      || (exists text :: text in ui && Address(text) == Some(a))
  {
    var owned := Owned(previous, format);
    ManualAddressesSpec(existing, owned, format, a);
    forall q, other ensures IsManualRow(existing, owned, format, q, other) <==> Foreign(existing, previous, format, q, other) {
      ForeignIs(existing, previous, format, q, other);
    }
    hide Foreign;
    hide IsManualRow;
    hide RowAddresses;
    hide ManualAddresses;
    hide Owned;
    hide Address;
    if exists text :: text in ui && Address(text) == Some(a) {
      var text :| text in ui && Address(text) == Some(a);
      assert a in Canonical(text);
    }
  }

  lemma ClearIs(existing: Config, previous: Option<Previous>, ui: set<string>, format: Format, row: Row)
    requires Dict(existing)
    ensures RowAddresses(row) * Manual(existing, previous, ui, format) == {} <==> Clear(existing, previous, ui, format, row)
  {
    hide Manual;
    hide RowAddresses;
    hide Foreign;
    hide Address;
    var manual := Manual(existing, previous, ui, format);
    forall a ensures a in manual <==>
      || (exists q, other :: Foreign(existing, previous, format, q, other) && a in RowAddresses(other))
      || (exists text :: text in ui && Address(text) == Some(a))
    {
      ManualIs(existing, previous, ui, format, a);
    }
    if Clear(existing, previous, ui, format, row) {
      forall a | a in RowAddresses(row) ensures a !in manual { }
    } else {
      if q, other, a :| Foreign(existing, previous, format, q, other) && a in RowAddresses(other) && a in RowAddresses(row) {
        assert a in manual;
        assert a in RowAddresses(row) * manual;
      } else {
        var text, a :| text in ui && Address(text) == Some(a) && a in RowAddresses(row);
        assert a in manual;
        assert a in RowAddresses(row) * manual;
      }
    }
  }

  // --------------------------------------------------------------- what is prepared

  /** The scene was not selected. */
  ghost predicate LeftOut(p: Platform, row: Row, excluded: set<SceneKey>) {
    p.Scene? && exists n, a ::
      && 1 <= n <= 64 && IsScene(row, n) && "address" in row && Address(Str(row["address"])) == Some(a)
      && SceneKey(a, n) in excluded
  }

  /** An approved entity has its identity, or an address of its and is not another scene on it. */
  ghost predicate Superseded(e: Entity, row: Row, approved: Plan, format: Format) {
    exists a :: a in approved.entities
      && (KeyOf(a) == KeyOf(e)
          || ((exists x :: x in a.addresses && x in e.addresses)
              && !(e.platform.Scene? && a.platform.Scene?
                   && exists other :: other in RowsOf(approved.config, Scene)
                        && RowIdentity(Scene, other, format) == Some(a.uniqueId) && DifferentScenes(row, other))))
  }

  /** The row's entity is superseded. */
  ghost predicate Gives(p: Platform, row: Row, entities: seq<Entity>, approved: Option<Plan>, format: Format) {
    approved.Some?
    && exists e :: e in entities && e.platform == p && RowIdentity(p, row, format) == Some(e.uniqueId)
                   && Superseded(e, row, approved.value, format)
  }

  /** The rows of a platform under the identities of the mode: in the custom mode as planned, else without their names. */
  function Given(rows: seq<Row>, mode: Mode): (r: seq<Row>)
    ensures |r| == |rows|
    ensures forall i :: 0 <= i < |r| ==> r[i] == if mode.Custom? then rows[i] else rows[i] - {"unique_id"}
  {
    seq(|rows|, i requires 0 <= i < |rows| => if mode.Custom? then rows[i] else rows[i] - {"unique_id"})
  }

  function Approved(approved: Option<Plan>, p: Platform): seq<Row> {
    if approved.Some? then RowsOf(approved.value.config, p) else []
  }

  lemma LeftOutIs(row: Row, excluded: set<SceneKey>)
    requires SceneKeyOf(row).Success?
    ensures IsExcluded(row, excluded) <==> LeftOut(Scene, row, excluded)
  {
    if IsExcluded(row, excluded) {
      assert IsScene(row, SceneNumber(row).value);
    }
  }

  lemma {:induction false} SelectedAreThose(rows: seq<Row>, excluded: set<SceneKey>)
    requires forall row :: row in rows ==> SceneKeyOf(row).Success?
    ensures SelectedRows(rows, excluded) == Those(rows, row => !LeftOut(Scene, row, excluded))
  {
    if rows != [] {
      assert rows == [rows[0]] + rows[1..];
      LeftOutIs(rows[0], excluded);
      SelectedAreThose(rows[1..], excluded);
    }
  }

  lemma {:induction false} KeptAreThose(p: Platform, rows: seq<Row>, rejected: set<Key>, format: Format)
    ensures KeepRows(p, rows, rejected, format) ==
      Those(rows, row => !(RowKey(p, row, format).Some? && RowKey(p, row, format).value in rejected))
  {
    if rows != [] { KeptAreThose(p, rows[1..], rejected, format); }
  }

  lemma {:induction false} FreeAreThose(rows: seq<Row>, manual: set<string>)
    ensures FreeRows(rows, manual) == Those(rows, row => RowAddresses(row) * manual == {})
  {
    if rows != [] { FreeAreThose(rows[1..], manual); }
  }

  /** Choosing twice is choosing by both. */
  lemma {:induction false} ThoseOfThose(rows: seq<Row>, one: Row -> bool, other: Row -> bool, both: Row -> bool)
    requires forall row :: row in rows ==> (both(row) <==> one(row) && other(row))
    ensures Those(Those(rows, one), other) == Those(rows, both)
  {
    if rows != [] {
      var row, rest := rows[0], rows[1..];
      assert row in rows;
      ThoseOfThose(rest, one, other, both);
      ThoseConcat(if one(row) then [row] else [], Those(rest, one), other);
      if one(row) { assert Those([row], other) == if other(row) then [row] else []; }
    }
  }

  /** The rows and their index. */
  lemma {:induction false} RowAt(config: Config, entities: seq<Entity>, format: Format, p: Platform, row: Row)
    requires Corresponds(config, entities, format) && row in RowsOf(config, p)
    ensures IndexedRows(config, format).Success? && RowKey(p, row, format).Some?
    ensures var k := RowKey(p, row, format).value;
      k in IndexedRows(config, format).value && IndexedRows(config, format).value[k] == row
  {
    IndexBlocksWorks(config, format, map[]);
  }

  lemma ClashIs(e: Entity, row: Row, chosen: Plan, approved: Plan, format: Format)
    requires Corresponds(chosen.config, chosen.entities, format)
    requires Corresponds(approved.config, approved.entities, format)
    requires e in chosen.entities && row in RowsOf(chosen.config, e.platform)
    requires RowIdentity(e.platform, row, format) == Some(e.uniqueId)
    ensures IndexedRows(chosen.config, format).Success? && IndexedRows(approved.config, format).Success?
    ensures var auto, manual := IndexedRows(chosen.config, format).value, IndexedRows(approved.config, format).value;
      && KeyOf(e) in auto && (forall a :: a in approved.entities ==> KeyOf(a) in manual)
      && (Superseded(e, row, approved, format) <==> exists a :: a in approved.entities && Clash(e, a, auto, manual))
  {
    CorrespondingRowsIndexed(chosen.config, chosen.entities, format);
    CorrespondingRowsIndexed(approved.config, approved.entities, format);
    RowAt(chosen.config, chosen.entities, format, e.platform, row);
    var auto, manual := IndexedRows(chosen.config, format).value, IndexedRows(approved.config, format).value;
    forall a | a in approved.entities
      ensures Clash(e, a, auto, manual) <==>
        || KeyOf(a) == KeyOf(e)
        || ((exists x :: x in a.addresses && x in e.addresses)
            && !(e.platform.Scene? && a.platform.Scene?
                 && exists other :: other in RowsOf(approved.config, Scene)
                      && RowIdentity(Scene, other, format) == Some(a.uniqueId) && DifferentScenes(row, other)))
    {
      OneClash(e, a, row, auto, approved, format);
    }
    hide Clash;
  }

  lemma OverlapIs(e: Entity, a: Entity)
    ensures Overlap(e, a) <==> exists x :: x in a.addresses && x in e.addresses
  {
    if x :| x in a.addresses && x in e.addresses { assert x in AddressSet(e) * AddressSet(a); }
    if Overlap(e, a) { var x :| x in AddressSet(e) * AddressSet(a); }
  }

  lemma OneClash(e: Entity, a: Entity, row: Row, auto: map<Key, Row>, approved: Plan, format: Format)
    requires Corresponds(approved.config, approved.entities, format) && a in approved.entities
    requires KeyOf(e) in auto && auto[KeyOf(e)] == row
    requires IndexedRows(approved.config, format).Success? && KeyOf(a) in IndexedRows(approved.config, format).value
    ensures Clash(e, a, auto, IndexedRows(approved.config, format).value) <==>
      || KeyOf(a) == KeyOf(e)
      || ((exists x :: x in a.addresses && x in e.addresses)
          && !(e.platform.Scene? && a.platform.Scene?
               && exists other :: other in RowsOf(approved.config, Scene)
                    && RowIdentity(Scene, other, format) == Some(a.uniqueId) && DifferentScenes(row, other)))
  {
    OverlapIs(e, a);
    if a.platform.Scene? {
      var k := KeyOf(a);
      assert HasRow(approved.config, k, format);
      var mine :| mine in RowsOf(approved.config, Scene) && RowIdentity(Scene, mine, format) == Some(a.uniqueId);
      RowAt(approved.config, approved.entities, format, Scene, mine);
      forall other | other in RowsOf(approved.config, Scene) && RowIdentity(Scene, other, format) == Some(a.uniqueId)
        ensures other == mine
      {
        SameIdentitySameRow(Scene, RowsOf(approved.config, Scene), format, other, mine);
      }
    }
    hide Corresponds;
    hide IndexedRows;
    hide RowIdentity;
    hide DifferentScenes;
  }

  lemma {:induction false} ThoseAll(rows: seq<Row>, chosen: Row -> bool)
    requires forall row :: row in rows ==> chosen(row)
    ensures Those(rows, chosen) == rows
  {
    if rows != [] {
      assert rows[0] in rows;
      ThoseAll(rows[1..], chosen);
    }
  }

  lemma {:induction false} GivenRows(planned: Plan, mode: Mode, format: Format, p: Platform)
    requires Corresponds(planned.config, planned.entities, format) && AllNamed(planned.config)
    requires Adapt(planned, mode, format).Success?
    ensures RowsOf(Adapt(planned, mode, format).value.config, p) == Given(RowsOf(planned.config, p), mode)
  {
    if mode.Custom? {
      assert Given(RowsOf(planned.config, p), mode) == RowsOf(planned.config, p);
    } else {
      AdaptSucceedsExactly(planned, mode, format);
      StripConfigRows(planned.config, p);
      assert Given(RowsOf(planned.config, p), mode) == Strips(RowsOf(planned.config, p));
    }
  }

  lemma {:induction false} ChosenRows(adapted: Plan, excluded: set<SceneKey>, format: Format, p: Platform)
    requires Dict(adapted.config) && Select(adapted, excluded, format).Success?
    ensures RowsOf(Select(adapted, excluded, format).value.config, p) ==
      Those(RowsOf(adapted.config, p), row => !LeftOut(p, row, excluded))
    ensures forall e :: e in Select(adapted, excluded, format).value.entities ==> e in adapted.entities
  {
    var rows := RowsOf(adapted.config, p);
    SelectSucceedsExactly(adapted, excluded, format);
    SelectSpec(adapted, excluded, format, p);
    KeepEntitiesSpec(adapted.entities, DroppedKeys(RowsOf(adapted.config, Scene), excluded, format));
    if p == Scene {
      SelectedAreThose(rows, excluded);
      ThoseSame(rows, row => !LeftOut(Scene, row, excluded), row => !LeftOut(p, row, excluded));
    } else {
      ThoseAll(rows, row => !LeftOut(p, row, excluded));
    }
  }

  /** Of the chosen rows those go whose entity is superseded. */
  lemma {:induction false} RejectedIs(chosen: Plan, all: seq<Entity>, approved: Plan, format: Format, p: Platform, row: Row)
    requires Corresponds(chosen.config, chosen.entities, format)
    requires Corresponds(approved.config, approved.entities, format)
    requires DistinctEntities(all) && (forall e :: e in chosen.entities ==> e in all) && row in RowsOf(chosen.config, p)
    ensures RejectedBy(chosen, approved, format).Success? && RowKey(p, row, format).Some?
    ensures RowKey(p, row, format).value in RejectedBy(chosen, approved, format).value <==>
      Gives(p, row, all, Some(approved), format)
  {
    RetainedClashFree(chosen, approved, format);
    var key := RowKey(p, row, format).value;
    assert HasEntity(chosen.entities, key);
    var e :| e in chosen.entities && KeyOf(e) == key;
    ClashIs(e, row, chosen, approved, format);
    forall x | x in all && KeyOf(x) == key ensures x == e { SameKeySameEntity(all, x, e); }
    hide Superseded;
    hide Corresponds;
    hide DistinctEntities;
    hide RejectedBy;
    hide RowIdentity;
    hide Clash;
  }

  lemma SameKeySameEntity(all: seq<Entity>, a: Entity, b: Entity)
    requires DistinctEntities(all) && a in all && b in all && KeyOf(a) == KeyOf(b)
    ensures a == b
  {
    var i :| 0 <= i < |all| && all[i] == a;
    var j :| 0 <= j < |all| && all[j] == b;
  }

  lemma {:induction false} MergedRows(chosen: Plan, all: seq<Entity>, approved: Plan, format: Format, p: Platform)
    requires Corresponds(chosen.config, chosen.entities, format)
    requires Corresponds(approved.config, approved.entities, format)
    requires DistinctEntities(all) && forall e :: e in chosen.entities ==> e in all
    ensures Preserve(chosen, approved, format).Success?
    ensures RowsOf(Preserve(chosen, approved, format).value.config, p) ==
      Those(RowsOf(chosen.config, p), row => !Gives(p, row, all, Some(approved), format)) + RowsOf(approved.config, p)
  {
    PreserveKeepsManual(chosen, approved, format);
    RetainedClashFree(chosen, approved, format);
    var rejected := RejectedBy(chosen, approved, format).value;
    var rows := RowsOf(chosen.config, p);
    KeepConfigSpec(chosen.config, rejected, format, p);
    KeptAreThose(p, rows, rejected, format);
    forall row | row in rows
      ensures RowKey(p, row, format).Some?
      ensures RowKey(p, row, format).value in rejected <==> Gives(p, row, all, Some(approved), format)
    {
      RejectedIs(chosen, all, approved, format, p, row);
    }
    ThoseSame(rows, row => !(RowKey(p, row, format).Some? && RowKey(p, row, format).value in rejected),
              row => !Gives(p, row, all, Some(approved), format));
    hide Preserve;
    hide RejectedBy;
    hide Gives;
    hide Corresponds;
  }

  /** The rows of the planned project that reach the configuration. */
  ghost predicate Reaches(
    p: Platform, row: Row, entities: seq<Entity>, excluded: set<SceneKey>, approved: Option<Plan>, existing: Config,
    previous: Option<Previous>, ui: set<string>, format: Format)
  {
    && !LeftOut(p, row, excluded) && !Gives(p, row, entities, approved, format)
    && Clear(existing, previous, ui, format, row)
  }

  lemma {:induction false} PreparedRows(
    planned: Plan, mode: Mode, excluded: set<SceneKey>, approved: Option<Plan>, format: Format, p: Platform)
    requires Corresponds(planned.config, planned.entities, format) && AllNamed(planned.config)
    requires approved.Some? ==> Stored(approved.value.config, approved.value.entities, mode, format)
    requires Prepare(planned, mode, excluded, approved, format).Success?
    ensures Adapt(planned, mode, format).Success?
    ensures var entities := Adapt(planned, mode, format).value.entities;
      RowsOf(Prepare(planned, mode, excluded, approved, format).value.config, p) ==
        Those(Given(RowsOf(planned.config, p), mode),
              row => !LeftOut(p, row, excluded) && !Gives(p, row, entities, approved, format))
        + Approved(approved, p)
  {
    hide Adapt;
    hide Select;
    hide Preserve;
    hide Gives;
    hide LeftOut;
    hide Corresponds;
    var adapted := Adapt(planned, mode, format).value;
    var entities, rows := adapted.entities, Given(RowsOf(planned.config, p), mode);
    AdaptedIsStored(planned, mode, format);
    GivenRows(planned, mode, format, p);
    AdaptedParts(adapted, format);
    ChosenRows(adapted, excluded, format, p);
    SelectKeepsCorrespondence(adapted, excluded, format);
    var chosen := Select(adapted, excluded, format).value;
    if approved.Some? {
      MergedRows(chosen, entities, approved.value, format, p);
    } else {
      NoneGiven(RowsOf(chosen.config, p), p, entities, format);
      assert RowsOf(chosen.config, p) + [] == RowsOf(chosen.config, p);
    }
    ThoseOfThose(rows, row => !LeftOut(p, row, excluded), row => !Gives(p, row, entities, approved, format),
                 row => !LeftOut(p, row, excluded) && !Gives(p, row, entities, approved, format));
  }

  lemma AdaptedParts(adapted: Plan, format: Format)
    requires Corresponds(adapted.config, adapted.entities, format)
    ensures Dict(adapted.config) && DistinctEntities(adapted.entities)
  {
  }

  lemma NoneGiven(rows: seq<Row>, p: Platform, entities: seq<Entity>, format: Format)
    ensures Those(rows, row => !Gives(p, row, entities, None, format)) == rows
  {
    ThoseAll(rows, row => !Gives(p, row, entities, None, format));
  }

  /** Of a prepared plan's rows those are written that are clear of the site's own. */
  lemma {:induction false} EmittedAreClear(
    plan: Plan, existing: Config, previous: Option<Previous>, ui: set<string>, format: Format, p: Platform)
    requires Corresponds(plan.config, plan.entities, format) && Dict(existing)
    requires Filter(plan, existing, previous, ui, format).Success?
    ensures RowsOf(Filter(plan, existing, previous, ui, format).value.0.config, p) ==
      Those(RowsOf(plan.config, p), row => Clear(existing, previous, ui, format, row))
  {
    hide Filter;
    hide Corresponds;
    hide Clear;
    hide RowAddresses;
    var manual, rows := Manual(existing, previous, ui, format), RowsOf(plan.config, p);
    FilterEmitsFreeRows(plan, existing, previous, ui, format, p);
    FreeAreThose(rows, manual);
    forall row ensures RowAddresses(row) * manual == {} <==> Clear(existing, previous, ui, format, row) {
      ClearIs(existing, previous, ui, format, row);
    }
    hide Manual;
    ThoseSame(rows, row => RowAddresses(row) * manual == {}, row => Clear(existing, previous, ui, format, row));
  }

  /**
    What is written for a platform: of the planned rows, named as the mode does, those that are not a scene left out,
    whose entity no approved one supersedes, and that are clear of the site's own configuration; then of the approved
    rows those that are clear of it. All are unchanged and in order.
   */
  lemma {:induction false} WrittenRowsExactly(
    planned: Plan, mode: Mode, excluded: set<SceneKey>, approved: Option<Plan>, existing: Config,
    previous: Option<Previous>, ui: set<string>, format: Format, p: Platform)
    requires Corresponds(planned.config, planned.entities, format) && AllNamed(planned.config) && Dict(existing)
    requires approved.Some? ==> Stored(approved.value.config, approved.value.entities, mode, format)
    requires PlanDeployment(planned, mode, excluded, approved, existing, previous, ui, format).Success?
    ensures Adapt(planned, mode, format).Success?
    ensures var (emission, _) := PlanDeployment(planned, mode, excluded, approved, existing, previous, ui, format).value;
      var entities := Adapt(planned, mode, format).value.entities;
      RowsOf(emission.config, p) ==
        Those(Given(RowsOf(planned.config, p), mode),
              row => Reaches(p, row, entities, excluded, approved, existing, previous, ui, format))
        + Those(Approved(approved, p), row => Clear(existing, previous, ui, format, row))
  {
    hide Prepare;
    hide Filter;
    hide Adapt;
    hide Stored;
    hide Gives;
    hide LeftOut;
    hide Clear;
    var prepared := Prepare(planned, mode, excluded, approved, format).value;
    PreparedRows(planned, mode, excluded, approved, format, p);
    PreparedIsStored(planned, mode, excluded, approved, format);
    StoredCorresponds(prepared.config, prepared.entities, mode, format);
    EmittedAreClear(prepared, existing, previous, ui, format, p);
    var entities, given := Adapt(planned, mode, format).value.entities, Given(RowsOf(planned.config, p), mode);
    var stays := (row: Row) => !LeftOut(p, row, excluded) && !Gives(p, row, entities, approved, format);
    ThoseConcat(Those(given, stays), Approved(approved, p), row => Clear(existing, previous, ui, format, row));
    ThoseOfThose(given, stays, row => Clear(existing, previous, ui, format, row),
                 row => Reaches(p, row, entities, excluded, approved, existing, previous, ui, format));
  }

  lemma StoredCorresponds(config: Config, entities: seq<Entity>, mode: Mode, format: Format)
    requires Stored(config, entities, mode, format)
    ensures Corresponds(config, entities, format)
  {
  }

  lemma MergedEntities(chosen: Plan, approved: Plan, format: Format, e: Entity)
    requires Corresponds(chosen.config, chosen.entities, format)
    requires Corresponds(approved.config, approved.entities, format)
    requires Preserve(chosen, approved, format).Success? && e in Preserve(chosen, approved, format).value.entities
    ensures e in chosen.entities || e in approved.entities
  {
    hide Corresponds;
    hide Preserve;
    hide RejectedBy;
    RetainedClashFree(chosen, approved, format);
    PreserveKeepsManual(chosen, approved, format);
    KeepEntitiesSpec(chosen.entities, RejectedBy(chosen, approved, format).value);
  }

  lemma PreparedEntities(
    planned: Plan, mode: Mode, excluded: set<SceneKey>, approved: Option<Plan>, format: Format, e: Entity)
    requires Corresponds(planned.config, planned.entities, format) && AllNamed(planned.config)
    requires approved.Some? ==> Stored(approved.value.config, approved.value.entities, mode, format)
    requires Prepare(planned, mode, excluded, approved, format).Success?
    ensures Adapt(planned, mode, format).Success?
    ensures e in Prepare(planned, mode, excluded, approved, format).value.entities ==>
      || (approved.Some? && e in approved.value.entities)
      || e in Adapt(planned, mode, format).value.entities
  {
    hide Adapt;
    hide Select;
    hide Preserve;
    hide Stored;
    hide Corresponds;
    var adapted := Adapt(planned, mode, format).value;
    AdaptedIsStored(planned, mode, format);
    StoredCorresponds(adapted.config, adapted.entities, mode, format);
    AdaptedParts(adapted, format);
    ChosenRows(adapted, excluded, format, Light);
    SelectKeepsCorrespondence(adapted, excluded, format);
    var chosen := Select(adapted, excluded, format).value;
    if approved.Some? {
      StoredCorresponds(approved.value.config, approved.value.entities, mode, format);
      if e in Preserve(chosen, approved.value, format).value.entities { MergedEntities(chosen, approved.value, format, e); }
    }
  }

  /** Every entity written is an approved one or the planned one under the identity of the mode. */
  lemma WrittenEntitiesAreTheirs(
    planned: Plan, mode: Mode, excluded: set<SceneKey>, approved: Option<Plan>, existing: Config,
    previous: Option<Previous>, ui: set<string>, format: Format, e: Entity)
    requires Corresponds(planned.config, planned.entities, format) && AllNamed(planned.config) && Dict(existing)
    requires approved.Some? ==> Stored(approved.value.config, approved.value.entities, mode, format)
    requires PlanDeployment(planned, mode, excluded, approved, existing, previous, ui, format).Success?
    ensures var (emission, _) := PlanDeployment(planned, mode, excluded, approved, existing, previous, ui, format).value;
      && Adapt(planned, mode, format).Success?
      && (e in emission.entities ==>
            (approved.Some? && e in approved.value.entities) || e in Adapt(planned, mode, format).value.entities)
  {
    hide Prepare;
    hide Filter;
    hide Adapt;
    hide Stored;
    hide Corresponds;
    var prepared := Prepare(planned, mode, excluded, approved, format).value;
    PreparedIsStored(planned, mode, excluded, approved, format);
    StoredCorresponds(prepared.config, prepared.entities, mode, format);
    EmittedArePlanned(prepared, existing, previous, ui, format);
    PreparedEntities(planned, mode, excluded, approved, format, e);
  }
}
