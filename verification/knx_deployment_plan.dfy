/** All steps from a project to the rows that are written, and what a change of identity format does to approvals. */
module KnxDeploymentPlan {
  import opened Common
  import opened KnxIdentity
  import opened KnxPlan
  import opened KnxManualPlan
  import opened KnxPlanSteps
  import opened KnxPlanTheorems
  import opened KnxSceneChoice
  import opened KnxPlanFilter
  import M = KnxPlannerModel
  import S = KnxPlannerPasses
  import R = KnxPlannedRows
  import U = KnxClimateUnits
  import I = KnxPlannedIdentities

  /** Adapt, leave scenes out, merge what was approved. */
  function Prepare(planned: Plan, mode: Mode, excluded: set<SceneKey>, approved: Option<Plan>, format: Format)
    : Result<Plan, PlanError>
  {
    match Adapt(planned, mode, format)
    case Failure(error) => Failure(error)
    case Success(adapted) =>
      match Select(adapted, excluded, format)
      case Failure(error) => Failure(error)
      case Success(chosen) =>
        match approved
        case None => Success(chosen)
        case Some(manual) => Preserve(chosen, manual, format)
  }

  /** And keep clear of the site's own configuration. */
  function PlanDeployment(
    planned: Plan, mode: Mode, excluded: set<SceneKey>, approved: Option<Plan>, existing: Config,
    previous: Option<Previous>, ui: set<string>, format: Format): Result<(Emission, Config), PlanError>
  {
    match Prepare(planned, mode, excluded, approved, format)
    case Failure(error) => Failure(error)
    case Success(plan) => Filter(plan, existing, previous, ui, format)
  }

  method PrepareDeployment(
    planned: Plan, mode: Mode, excluded: set<SceneKey>, approved: Option<Plan>, existing: Config,
    previous: Option<Previous>, ui: set<string>, format: Format)
    returns (r: Result<(Plan, Config), PlanError>)
    ensures match PlanDeployment(planned, mode, excluded, approved, existing, previous, ui, format)
      case Failure(error) => r == Failure(error)
      case Success((emission, combined)) =>
        && r.Success?
        && r.value.0.config == emission.config && r.value.0.entities == emission.entities
        && r.value.1 == combined
  {
    var adapted := AdaptPlanIdentity(planned, mode, format);
    if adapted.Failure? { return Failure(adapted.error); }
    var plan := SelectScenes(adapted.value, excluded, format);
    if plan.Failure? { return Failure(plan.error); }
    if approved.Some? {
      plan := PreserveManualPlan(plan.value, approved.value, format);
      if plan.Failure? { return Failure(plan.error); }
    }
    r := FilterExisting(plan.value, existing, previous, ui, format);
  }

  /** What a deployment stores: rows and entities in bijection, every entity found again under its identity. */
  ghost predicate Stored(config: Config, entities: seq<Entity>, mode: Mode, format: Format) {
    && Corresponds(config, entities, format)
    && forall e :: e in entities ==> ManifestIdentity(e, mode, format) == e.uniqueId
  }

  lemma AdaptedIsStored(planned: Plan, mode: Mode, format: Format)
    requires Corresponds(planned.config, planned.entities, format) && AllNamed(planned.config)
    requires Adapt(planned, mode, format).Success?
    ensures Stored(Adapt(planned, mode, format).value.config, Adapt(planned, mode, format).value.entities, mode, format)
  {
    if !mode.Custom? { AdaptKeepsCorrespondence(planned, mode, format); }
  }

  lemma ChosenIsStored(plan: Plan, excluded: set<SceneKey>, mode: Mode, format: Format)
    requires Stored(plan.config, plan.entities, mode, format) && Select(plan, excluded, format).Success?
    ensures var r := Select(plan, excluded, format).value; Stored(r.config, r.entities, mode, format)
  {
    SelectKeepsCorrespondence(plan, excluded, format);
    SelectSpec(plan, excluded, format, Scene);
    KeepEntitiesSpec(plan.entities, DroppedKeys(RowsOf(plan.config, Scene), excluded, format));
  }

  lemma MergedIsStored(plan: Plan, manual: Plan, mode: Mode, format: Format)
    requires Stored(plan.config, plan.entities, mode, format) && Stored(manual.config, manual.entities, mode, format)
    ensures Preserve(plan, manual, format).Success?
    ensures var r := Preserve(plan, manual, format).value; Stored(r.config, r.entities, mode, format)
  {
    PreserveKeepsManual(plan, manual, format);
    KeepEntitiesSpec(plan.entities, RejectedBy(plan, manual, format).value);
  }

  /** Preparing fails for a row without a native identity, two rows of one identity, or a scene without a number. */
  lemma PreparedIsStored(planned: Plan, mode: Mode, excluded: set<SceneKey>, approved: Option<Plan>, format: Format)
    requires Corresponds(planned.config, planned.entities, format) && AllNamed(planned.config)
    requires approved.Some? ==> Stored(approved.value.config, approved.value.entities, mode, format)
    ensures Prepare(planned, mode, excluded, approved, format).Success? <==>
      && Adapt(planned, mode, format).Success?
      && Select(Adapt(planned, mode, format).value, excluded, format).Success?
    ensures Prepare(planned, mode, excluded, approved, format).Success? ==>
      var r := Prepare(planned, mode, excluded, approved, format).value; Stored(r.config, r.entities, mode, format)
  {
    hide Adapt;
    hide Select;
    hide Preserve;
    hide Stored;
    var adapted := Adapt(planned, mode, format);
    if adapted.Success? {
      AdaptedIsStored(planned, mode, format);
      if Select(adapted.value, excluded, format).Success? {
        ChosenIsStored(adapted.value, excluded, mode, format);
        var chosen := Select(adapted.value, excluded, format).value;
        if approved.Some? { MergedIsStored(chosen, approved.value, mode, format); }
      }
    }
  }

  /** The rows of the site's own configuration, as one deployment tells them from its predecessor's. */
  function ForeignRows(config: Config, previous: Option<Previous>, format: Format, p: Platform): seq<Row> {
    UnownedRows(p, RowsOf(config, p), Owned(previous, format), format)
  }

  /** What is written leaves the site's own rows as they are, adds rows that touch none of their addresses, and is
      told apart again by the next deployment. */
  ghost predicate Sound(
    emission: Emission, combined: Config, mode: Mode, existing: Config, previous: Option<Previous>, ui: set<string>,
    format: Format)
  {
    && Stored(emission.config, emission.entities, mode, format)
    && Dict(combined)
    && (forall p :: RowsOf(combined, p) == ForeignRows(existing, previous, format, p) + RowsOf(emission.config, p))
    && (forall p, row, q, other ::
          row in RowsOf(emission.config, p) && IsManualRow(existing, Owned(previous, format), format, q, other) ==>
          RowAddresses(row) !! RowAddresses(other))
    && (forall p, row, text :: row in RowsOf(emission.config, p) && text in ui ==> RowAddresses(row) !! Canonical(text))
    && (IndexedRows(combined, format).Success? ==>
          forall p :: ForeignRows(combined, Some(Previous(mode, emission.entities)), format, p)
                   == ForeignRows(existing, previous, format, p))
  }

  lemma FilteredIsSound(
    plan: Plan, mode: Mode, existing: Config, previous: Option<Previous>, ui: set<string>, format: Format)
    requires Stored(plan.config, plan.entities, mode, format) && Dict(existing)
    requires Filter(plan, existing, previous, ui, format).Success?
    ensures var (emission, combined) := Filter(plan, existing, previous, ui, format).value;
      Sound(emission, combined, mode, existing, previous, ui, format)
  {
    hide Filter;
    hide Corresponds;
    hide IndexedRows;
    hide UnownedRows;
    hide RowsOf;
    hide IsManualRow;
    hide Owned;
    var (emission, combined) := Filter(plan, existing, previous, ui, format).value;
    FilterKeepsCorrespondence(plan, existing, previous, ui, format);
    EmittedArePlanned(plan, existing, previous, ui, format);
    forall p ensures RowsOf(combined, p) == ForeignRows(existing, previous, format, p) + RowsOf(emission.config, p) {
      CombinedIsManualThenEmitted(plan, existing, previous, ui, format, p);
    }
    CombinedIsManualThenEmitted(plan, existing, previous, ui, format, Light);
    forall p, row | row in RowsOf(emission.config, p)
      ensures forall q, other :: IsManualRow(existing, Owned(previous, format), format, q, other) ==>
        RowAddresses(row) !! RowAddresses(other)
      ensures forall text :: text in ui ==> RowAddresses(row) !! Canonical(text)
    {
      ManualStaysAuthoritative(plan, existing, previous, ui, format, p, row);
    }
    if IndexedRows(combined, format).Success? {
      forall p ensures ForeignRows(combined, Some(Previous(mode, emission.entities)), format, p)
                    == ForeignRows(existing, previous, format, p)
      {
        NextDeploymentSeesSameManualRows(plan, existing, previous, ui, mode, format, p);
      }
    }
  }

  /**
    From every planned project to what is written: it fails exactly for identities the mode cannot give, a scene
    without a number, or a site configuration that repeats an identity; otherwise what is written is sound.
   */
  lemma DeploymentPlanIsSound(
    planned: Plan, mode: Mode, excluded: set<SceneKey>, approved: Option<Plan>, existing: Config,
    previous: Option<Previous>, ui: set<string>, format: Format)
    requires Corresponds(planned.config, planned.entities, format) && AllNamed(planned.config) && Dict(existing)
    requires approved.Some? ==> Stored(approved.value.config, approved.value.entities, mode, format)
    ensures var r := PlanDeployment(planned, mode, excluded, approved, existing, previous, ui, format);
      && (r.Success? <==>
            && Adapt(planned, mode, format).Success?
            && Select(Adapt(planned, mode, format).value, excluded, format).Success?
            && IndexedRows(existing, format).Success?)
      && (r.Success? ==> Sound(r.value.0, r.value.1, mode, existing, previous, ui, format))
  {
    hide Adapt;
    hide Select;
    hide Prepare;
    hide Filter;
    hide Sound;
    hide IndexedRows;
    PreparedIsStored(planned, mode, excluded, approved, format);
    var prepared := Prepare(planned, mode, excluded, approved, format);
    if prepared.Success? {
      FilterEmitsFreeRows(prepared.value, existing, previous, ui, format, Light);
      if Filter(prepared.value, existing, previous, ui, format).Success? {
        FilteredIsSound(prepared.value, mode, existing, previous, ui, format);
      }
    }
  }

  /** In particular for whatever the planner makes of a project, whatever was skipped: what is written is sound, and in
      every mode only a site configuration that repeats an identity stops it. */
  lemma EveryProjectDeploysSoundly(
    records: seq<S.Record>, script: S.Script, naming: R.Naming, listing: set<M.Ga> -> seq<M.Ga>, skipped: seq<Skip>,
    mode: Mode, excluded: set<SceneKey>, approved: Option<Plan>, existing: Config, previous: Option<Previous>,
    ui: set<string>, format: Format)
    requires R.Injective(naming) && S.Conclusion(S.PlanProject(records, script)).Success? && Dict(existing)
    requires approved.Some? ==> Stored(approved.value.config, approved.value.entities, mode, format)
    ensures var entities := S.Conclusion(S.PlanProject(records, script)).value.entities;
      var r := PlanDeployment(I.PlanOf(entities, naming, listing, skipped), mode, excluded, approved, existing, previous,
                              ui, format);
      && (r.Success? ==> Sound(r.value.0, r.value.1, mode, existing, previous, ui, format))
      && (I.CanonicalRecords(records) && U.Proper(script) ==> (r.Success? <==> IndexedRows(existing, format).Success?))
  {
    hide *;
    R.EveryPlanCorresponds(records, script, naming, listing, format);
    var entities := S.Conclusion(S.PlanProject(records, script)).value.entities;
    var planned := I.PlanOf(entities, naming, listing, skipped);
    PlanOfIs(entities, naming, listing, skipped);
    DeploymentPlanIsSound(planned, mode, excluded, approved, existing, previous, ui, format);
    if I.CanonicalRecords(records) && U.Proper(script) {
      I.EveryPlanAdapts(records, script, naming, listing, skipped, mode, excluded, format);
    }
  }

  lemma {:induction false} PlanOfIs(
    entities: seq<M.Candidate>, naming: R.Naming, listing: set<M.Ga> -> seq<M.Ga>, skipped: seq<Skip>)
    ensures I.PlanOf(entities, naming, listing, skipped)
         == Plan(R.ConfigOf(entities, naming), R.EntitiesOf(entities, naming, listing), skipped)
  {
  }
}
