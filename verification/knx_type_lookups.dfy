/** The planner indexes its table of types in many places: no look-up ever meets an address without a type. */
module KnxTypeLookups {
  import opened Common
  import opened KnxPlannerModel
  import opened KnxPlannerPasses
  import opened KnxPlannerSoundness
  import opened KnxPlannerRuns

  // ------------------------------------------------------------ what is looked up where

  /** The address of every role is typed, unless it is refused before its type matters. */
  ghost predicate RefsTyped(s: State, refs: seq<Ref>) {
    forall r :: r in refs && r.address in s.groups ==> r.address in s.dpts || r.address in s.blocked
  }

  ghost predicate FieldsTyped(s: State, fields: Fields) { forall f :: f in fields ==> fields[f] in s.dpts }

  /** One group: the type of each role's address, then those of the fields it filled. */
  ghost predicate GroupLooks(s: State, refs: seq<Ref>) {
    RefsTyped(s, refs) && (Collect(s, refs, map[]).Success? ==> FieldsTyped(s, Collect(s, refs, map[]).value))
  }

  ghost predicate FunctionsLook(s: State, functions: seq<Function>)
    decreases |functions|
  {
    functions == [] ||
      var f := functions[0];
      var (next, refs) := Members(s, f, f.members, []);
      && GroupLooks(next, refs)
      && FunctionsLook(JoinGroup(next, f.name, f.kind, refs, f.scene, FunctionRole), functions[1..])
  }

  /** Finishing each command looks at the types of its fields. */
  ghost predicate FinishingLooks(s: State, dialect: Dialect, prefix: Prefix, commands: seq<Ga>, bound: Bindings)
    decreases |commands|
  {
    commands == [] ||
      var c := commands[0];
      && (c in bound ==> c in s.dpts && FieldsTyped(s, bound[c]))
      && FinishingLooks(if c in bound then Finish(s, dialect, prefix, c, bound[c]) else s, dialect, prefix, commands[1..],
                        bound)
  }

  ghost predicate ChannelLooks(
    s: State, dialect: Dialect, prefix: Prefix, commands: seq<Ga>, roles: map<Tag, seq<Ga>>)
  {
    if |commands| > 1 then
      var (next, bound) := BindMulti(s, dialect, commands, roles);
      FinishingLooks(next, dialect, prefix, commands, bound)
    else
      commands != [] && Anchors(s, commands[0]) ==>
        var (next, fields) :=
          BindSingle(s, dialect, roles, TagOrder(dialect), KeysOf(s, commands[0], false), map[]);
        commands[0] in next.dpts && FieldsTyped(next, fields)
  }

  ghost predicate ChannelsLook(s: State, begun: State, order: seq<Ga>, dialect: Dialect, prefixes: seq<Prefix>)
    decreases |prefixes|
  {
    prefixes == [] ||
      var p := prefixes[0];
      var commands, roles := TaggedAs(begun, order, dialect, p.key, Sw), RolesAt(begun, order, dialect, p.key);
      && ChannelLooks(s, dialect, p, commands, roles)
      && ChannelsLook(ChannelStep(s, dialect, p, commands, roles), begun, order, dialect, prefixes[1..])
  }

  ghost predicate NamesLook(s: State, begun: State, order: seq<Ga>, prefixes: seq<Prefix>)
    decreases |prefixes|
  {
    prefixes == [] ||
      var p := prefixes[0];
      var refs := NamedAs(begun, order, p.key);
      && GroupLooks(s, refs)
      && NamesLook(JoinGroup(s, p.name, if p.light then LightKind else OtherKind, refs, None, NameRole), begun, order,
                   prefixes[1..])
  }

  ghost predicate FallbackLooks(s: State, order: seq<Ga>)
    decreases |order|
  {
    order == [] ||
      var a := order[0];
      && (Available(s, a) && a !in s.blocked ==> a in s.dpts)
      && FallbackLooks(FallbackStep(s, a), order[1..])
  }

  // ------------------------------------------------------------------- and succeeds

  /** Whatever a group collects has its type. */
  lemma {:induction false} CollectedTyped(s: State, refs: seq<Ref>, fields: Fields)
    requires FieldsTyped(s, fields)
    ensures Collect(s, refs, fields).Success? ==> FieldsTyped(s, Collect(s, refs, fields).value)
    decreases |refs|
  {
    hide RoleEntry;
    if refs != [] {
      var entry := RoleEntry(refs[0].role);
      if entry.None? {
        CollectedTyped(s, refs[1..], fields);
      } else if Problem(s, refs[0].address, entry.value, fields).None? {
        CollectedTyped(s, refs[1..], fields[entry.value.field := refs[0].address]);
      }
    }
  }

  lemma GroupLooksUp(s: State, refs: seq<Ref>)
    requires RefsTyped(s, refs)
    ensures GroupLooks(s, refs)
  {
    CollectedTyped(s, refs, map[]);
  }

  lemma {:induction false} FunctionsLookUp(s: State, functions: seq<Function>)
    requires Inv(s) && TypedOrBlocked(s)
    ensures FunctionsLook(s, functions)
    decreases |functions|
  {
    hide Inv;
    hide Step;
    hide GroupLooks;
    if functions != [] {
      var f := functions[0];
      MembersKeep(s, f, f.members, []);
      var (next, refs) := Members(s, f, f.members, []);
      StepIs(s, next, false);
      StepKeepsTyped(s, next);
      GroupLooksUp(next, refs);
      GroupStep(next, f.name, f.kind, refs, f.scene, FunctionRole);
      var joined := JoinGroup(next, f.name, f.kind, refs, f.scene, FunctionRole);
      StepIs(next, joined, false);
      StepKeepsTyped(next, joined);
      FunctionsLookUp(joined, functions[1..]);
    }
  }

  lemma StepIs(s: State, t: State, scenes: bool)
    requires Step(s, t, scenes)
    ensures Inv(t) && Grows(s, t)
  {
  }

  lemma FilledTyped(s: State, dialect: Dialect, fields: Fields)
    requires TagsFilled(s, dialect, fields)
    ensures FieldsTyped(s, fields)
  {
  }

  lemma {:induction false} FinishingLooksUp(
    s: State, dialect: Dialect, prefix: Prefix, commands: seq<Ga>, bound: Bindings)
    requires Inv(s) && AllTagsFilled(s, dialect, bound)
    requires forall c :: c in bound ==> HasType(s, c, {BIT})
    ensures FinishingLooks(s, dialect, prefix, commands, bound)
    decreases |commands|
  {
    hide Inv;
    hide Finish;
    hide TagsFilled;
    if commands != [] {
      var c := commands[0];
      var next := if c in bound then Finish(s, dialect, prefix, c, bound[c]) else s;
      if c in bound {
        FilledTyped(s, dialect, bound[c]);
        FinishKeeps(s, dialect, prefix, c, bound[c]);
      }
      AllTagsStay(s, next, dialect, bound);
      FinishingLooksUp(next, dialect, prefix, commands[1..], bound);
    }
  }

  lemma ChannelLooksUp(s: State, dialect: Dialect, prefix: Prefix, commands: seq<Ga>, roles: map<Tag, seq<Ga>>)
    requires Inv(s)
    ensures ChannelLooks(s, dialect, prefix, commands, roles)
  {
    hide Inv;
    hide TagsFilled;
    if |commands| > 1 {
      var (next, bound) := BindMulti(s, dialect, commands, roles);
      BindMultiKeeps(s, dialect, commands, roles);
      AnchorsAre(s, commands);
      FinishingLooksUp(next, dialect, prefix, commands, bound);
    } else if commands != [] && Anchors(s, commands[0]) {
      var keys := KeysOf(s, commands[0], false);
      BindSingleKeeps(s, dialect, roles, TagOrder(dialect), keys, map[]);
      var (next, fields) := BindSingle(s, dialect, roles, TagOrder(dialect), keys, map[]);
      FilledTyped(next, dialect, fields);
    }
  }

  lemma {:induction false} ChannelsLookUp(
    s: State, begun: State, order: seq<Ga>, dialect: Dialect, prefixes: seq<Prefix>)
    requires Inv(s)
    ensures ChannelsLook(s, begun, order, dialect, prefixes)
    decreases |prefixes|
  {
    hide Inv;
    hide ChannelLooks;
    if prefixes != [] {
      var p := prefixes[0];
      var commands, roles := TaggedAs(begun, order, dialect, p.key, Sw), RolesAt(begun, order, dialect, p.key);
      ChannelLooksUp(s, dialect, p, commands, roles);
      ChannelStepKeeps(s, dialect, p, commands, roles);
      ChannelsLookUp(ChannelStep(s, dialect, p, commands, roles), begun, order, dialect, prefixes[1..]);
    }
  }

  lemma {:induction false} NamedAsFrom(s: State, order: seq<Ga>, key: string)
    ensures forall r :: r in NamedAs(s, order, key) ==> Available(s, r.address)
  {
    if order != [] { NamedAsFrom(s, order[1..], key); }
  }

  /** Names are read from addresses that were free: those are typed or blocked, and stay so. */
  lemma {:induction false} NamedRefsTyped(begun: State, now: State, order: seq<Ga>, key: string)
    requires TypedOrTaken(begun) && Step(begun, now, false)
    ensures RefsTyped(now, NamedAs(begun, order, key))
  {
    NamedAsFrom(begun, order, key);
    forall r | r in NamedAs(begun, order, key) ensures r.address in now.dpts || r.address in now.blocked {
      assert Available(begun, r.address);
    }
  }

  lemma {:induction false} NamesLookUp(s: State, begun: State, order: seq<Ga>, prefixes: seq<Prefix>)
    requires TypedOrTaken(begun) && Step(begun, s, false)
    ensures NamesLook(s, begun, order, prefixes)
    decreases |prefixes|
  {
    hide Inv;
    hide GroupLooks;
    hide TypedOrTaken;
    if prefixes != [] {
      var p := prefixes[0];
      var kind := if p.light then LightKind else OtherKind;
      var refs := NamedAs(begun, order, p.key);
      NamedRefsTyped(begun, s, order, p.key);
      GroupLooksUp(s, refs);
      GroupStep(s, p.name, kind, refs, None, NameRole);
      var next := JoinGroup(s, p.name, kind, refs, None, NameRole);
      StepTrans(begun, s, next, false);
      NamesLookUp(next, begun, order, prefixes[1..]);
    }
  }

  lemma {:induction false} FallbackLooksUp(s: State, order: seq<Ga>)
    requires Inv(s) && TypedOrTaken(s)
    ensures FallbackLooks(s, order)
    decreases |order|
  {
    hide Inv;
    hide FallbackStep;
    if order != [] {
      FallbackStepKeeps(s, order[0]);
      StepKeepsTaken(s, FallbackStep(s, order[0]), false);
      FallbackLooksUp(FallbackStep(s, order[0]), order[1..]);
    }
  }

  /** In every run on every project each look-up of a type, in whichever pass, finds one. */
  lemma EveryLookupSucceeds(records: seq<Record>, script: Script)
    ensures var s1 := Functions(Load(records), script.functions);
      var s2 := Channels(s1, s1, script.order, ClimateDialect, script.climates);
      var s3 := Channels(s2, s2, script.order, LightDialect, script.lights);
      var s4 := Scenes(s3, script.order);
      var s5 := NamedGroups(s4, s4, script.order, script.names);
      && FunctionsLook(Load(records), script.functions)
      && ChannelsLook(s1, s1, script.order, ClimateDialect, script.climates)
      && ChannelsLook(s2, s2, script.order, LightDialect, script.lights)
      && NamesLook(s4, s4, script.order, script.names)
      && FallbackLooks(s5, script.order)
      && PlanProject(records, script) == Annotate(Fallback(s5, script.order))
  {
    hide Inv;
    hide TypedOrBlocked;
    hide TypedOrTaken;
    PassesStartTyped(records, script);
    LoadEstablishes(records);
    var s1 := Functions(Load(records), script.functions);
    var s2 := Channels(s1, s1, script.order, ClimateDialect, script.climates);
    var s3 := Channels(s2, s2, script.order, LightDialect, script.lights);
    var s4 := Scenes(s3, script.order);
    var s5 := NamedGroups(s4, s4, script.order, script.names);
    FunctionsLookUp(Load(records), script.functions);
    ChannelsLookUp(s1, s1, script.order, ClimateDialect, script.climates);
    ChannelsLookUp(s2, s2, script.order, LightDialect, script.lights);
    StepSame(s4);
    NamesLookUp(s4, s4, script.order, script.names);
    FallbackLooksUp(s5, script.order);
  }
}
