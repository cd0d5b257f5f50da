/** What the planner reads from a project, that every pass takes everything in turn, and what it says in the end. */
module KnxPassLaws {
  import opened Common
  import opened KnxPlannerModel
  import opened KnxPlannerPasses

  // ----------------------------------------------------------------- reading a project

  /** The record names this group address; the broadcast address is none. */
  predicate NamesGroup(r: Record, a: Ga) { r.address == Some(a) && a != "0/0/0" }

  /** The first record that names the address. */
  ghost predicate FirstNames(records: seq<Record>, i: nat, a: Ga) {
    i < |records| && NamesGroup(records[i], a) && forall j :: 0 <= j < i ==> !NamesGroup(records[j], a)
  }

  ghost predicate Repeated(records: seq<Record>, a: Ga) {
    exists i: nat, j: nat :: FirstNames(records, i, a) && j < |records| && NamesGroup(records[j], a)
                          && records[j].group != records[i].group
  }

  /** A record under this key names no group address. */
  predicate Nameless(records: seq<Record>, k: string) {
    exists r :: r in records && r.key == k && (r.address.None? || r.address.value == "0/0/0")
  }

  /** An address's metadata are those of the first record that names it. */
  ghost predicate GroupRead(records: seq<Record>, s: State, a: Ga) {
    && (a in s.groups <==> exists i: nat :: FirstNames(records, i, a))
    && (forall i: nat :: FirstNames(records, i, a) ==> a in s.groups && s.groups[a] == records[i].group)
  }

  /** Where another record says otherwise the address is blocked; a key without an address is told as such. */
  ghost predicate ReasonRead(records: seq<Record>, s: State, k: string) {
    && (k in s.blocked <==> Repeated(records, k))
    && (k in s.issues <==> Repeated(records, k) || Nameless(records, k))
    && (k in s.issues && !Nameless(records, k) ==> s.issues[k] == DuplicateMetadata)
    && (k in s.issues && !Repeated(records, k) ==> s.issues[k] == InvalidGroupAddress)
  }

  ghost predicate Gathered(records: seq<Record>, s: State) {
    && (forall a :: GroupRead(records, s, a)) && (forall k :: ReasonRead(records, s, k))
    && s == State(s.groups, map[], s.issues, s.blocked, {}, {}, [], {}, {})
  }

  /** The turn of one record. */
  function RecordTurn(s: State, r: Record): State {
    if r.address.None? || r.address.value == "0/0/0" then s.(issues := s.issues[r.key := InvalidGroupAddress])
    else
      var a := r.address.value;
      if a in s.groups && s.groups[a] != r.group then
        s.(issues := s.issues[a := DuplicateMetadata], blocked := s.blocked + {a})
      else s.(groups := s.groups[a := r.group])
  }

  lemma {:induction false} GatherOneMore(records: seq<Record>, r: Record, s: State)
    ensures Gather(records + [r], s) == RecordTurn(Gather(records, s), r)
    decreases |records|
  {
    if records == [] {
      assert records + [r] == [r];
      assert Gather([r], s) == Gather([r][1..], RecordTurn(s, r));
      assert [r][1..] == [];
    } else {
      assert (records + [r])[1..] == records[1..] + [r];
      GatherOneMore(records[1..], r, RecordTurn(s, records[0]));
    }
  }

  lemma FirstOneMore(records: seq<Record>, r: Record, i: nat, a: Ga)
    ensures FirstNames(records + [r], i, a) <==>
      FirstNames(records, i, a)
      || (i == |records| && NamesGroup(r, a) && forall j :: 0 <= j < |records| ==> !NamesGroup(records[j], a))
  {
    var more := records + [r];
    assert forall j :: 0 <= j < |records| ==> more[j] == records[j];
    assert more[|records|] == r;
  }

  lemma {:induction false} FirstOf(records: seq<Record>, j: nat, a: Ga) returns (i: nat)
    requires j < |records| && NamesGroup(records[j], a)
    ensures i <= j && FirstNames(records, i, a)
    decreases j
  {
    if k: nat :| k < j && NamesGroup(records[k], a) { i := FirstOf(records, k, a); } else { i := j; }
  }

  lemma NamelessOneMore(records: seq<Record>, r: Record, k: string)
    ensures Nameless(records + [r], k) <==>
      Nameless(records, k) || (r.key == k && (r.address.None? || r.address.value == "0/0/0"))
  {
    assert forall x :: x in records + [r] <==> x in records || x == r;
  }

  lemma RepeatedOneMore(records: seq<Record>, r: Record, a: Ga)
    ensures Repeated(records + [r], a) <==>
      Repeated(records, a)
      || (NamesGroup(r, a) && exists i: nat :: FirstNames(records, i, a) && records[i].group != r.group)
  {
    var more := records + [r];
    assert forall j :: 0 <= j < |records| ==> more[j] == records[j];
    forall i: nat ensures FirstNames(more, i, a) <==>
      FirstNames(records, i, a)
      || (i == |records| && NamesGroup(r, a) && forall j :: 0 <= j < |records| ==> !NamesGroup(records[j], a))
    {
      FirstOneMore(records, r, i, a);
    }
    hide FirstNames;
    if Repeated(more, a) {
      var i: nat, j: nat :|
        FirstNames(more, i, a) && j < |more| && NamesGroup(more[j], a) && more[j].group != more[i].group;
    }
    if Repeated(records, a) {
      var i: nat, j: nat :|
        FirstNames(records, i, a) && j < |records| && NamesGroup(records[j], a) && records[j].group != records[i].group;
      FirstInside(records, i, a);
      assert FirstNames(more, i, a) && more[j].group != more[i].group;
    }
    if i: nat :| FirstNames(records, i, a) && NamesGroup(r, a) && records[i].group != r.group {
      FirstInside(records, i, a);
      assert FirstNames(more, i, a) && more[|records|] == r;
    }
  }

  lemma FirstInside(records: seq<Record>, i: nat, a: Ga)
    requires FirstNames(records, i, a)
    ensures i < |records| && NamesGroup(records[i], a)
  {
  }

  lemma GroupOneMore(records: seq<Record>, r: Record, s: State, a: Ga)
    requires GroupRead(records, s, a)
    ensures GroupRead(records + [r], RecordTurn(s, r), a)
  {
    var more, n: nat, t := records + [r], |records|, RecordTurn(s, r);
    forall i: nat ensures FirstNames(more, i, a) <==>
      FirstNames(records, i, a) || (i == n && NamesGroup(r, a) && forall j :: 0 <= j < n ==> !NamesGroup(records[j], a))
    {
      FirstOneMore(records, r, i, a);
    }
    forall i: nat | FirstNames(records, i, a) ensures i < n && NamesGroup(records[i], a) && more[i] == records[i] {
      FirstInside(records, i, a);
    }
    if j: nat :| j < n && NamesGroup(records[j], a) {
      var i := FirstOf(records, j, a);
      hide FirstNames;
      assert a in t.groups && t.groups[a] == s.groups[a];
      assert FirstNames(more, i, a);
    } else if NamesGroup(r, a) {
      assert FirstNames(more, n, a) && more[n] == r;
      hide FirstNames;
      assert t.groups[a] == r.group;
    } else {
      hide FirstNames;
      assert a in t.groups <==> a in s.groups;
    }
  }

  /** The record says otherwise of an address than the first one. */
  lemma DiffersIs(records: seq<Record>, r: Record, s: State, a: Ga)
    requires GroupRead(records, s, a)
    ensures (NamesGroup(r, a) && a in s.groups && s.groups[a] != r.group) <==>
      (NamesGroup(r, a) && exists i: nat :: FirstNames(records, i, a) && records[i].group != r.group)
  {
    forall i: nat | FirstNames(records, i, a) ensures i < |records| { FirstInside(records, i, a); }
    hide FirstNames;
  }

  lemma ReasonOneMore(records: seq<Record>, r: Record, s: State, k: string)
    requires GroupRead(records, s, k) && ReasonRead(records, s, k)
    ensures ReasonRead(records + [r], RecordTurn(s, r), k)
  {
    RepeatedOneMore(records, r, k);
    DiffersIs(records, r, s, k);
    NamelessOneMore(records, r, k);
    hide GroupRead;
    hide Repeated;
    hide Nameless;
    hide FirstNames;
  }

  lemma GatheredOneMore(records: seq<Record>, r: Record, s: State)
    requires Gathered(records, s)
    ensures Gathered(records + [r], RecordTurn(s, r))
  {
    hide GroupRead;
    hide ReasonRead;
    forall a ensures GroupRead(records + [r], RecordTurn(s, r), a) { GroupOneMore(records, r, s, a); }
    forall k ensures ReasonRead(records + [r], RecordTurn(s, r), k) { ReasonOneMore(records, r, s, k); }
  }

  lemma {:induction false} GatheredFrom(records: seq<Record>)
    ensures Gathered(records, Gather(records, NOTHING))
    decreases |records|
  {
    if records != [] {
      var n := |records| - 1;
      assert records == records[..n] + [records[n]];
      GatheredFrom(records[..n]);
      GatherOneMore(records[..n], records[n], NOTHING);
      GatheredOneMore(records[..n], records[n], Gather(records[..n], NOTHING));
    }
  }

  /**
    What a loaded project holds of an address: the metadata of the first record that names it, its type when they
    resolve to one, and a block with its reason when they do not or another record says otherwise.
   */
  lemma LoadReadsExactly(records: seq<Record>, a: Ga)
    ensures var s := Load(records);
      && GroupRead(records, s, a)
      && (a in s.dpts <==> a in s.groups && Resolve(s.groups[a]).Success?)
      && (a in s.dpts ==> s.dpts[a] == Resolve(s.groups[a]).value)
      && (a in s.blocked <==> Repeated(records, a) || (a in s.groups && Resolve(s.groups[a]).Failure?))
      && (if a in s.groups && Resolve(s.groups[a]).Failure? then a in s.issues && s.issues[a] == Resolve(s.groups[a]).error
          else
            && (a in s.issues <==> Repeated(records, a) || Nameless(records, a))
            && (a in s.issues && !Nameless(records, a) ==> s.issues[a] == DuplicateMetadata)
            && (a in s.issues && !Repeated(records, a) ==> s.issues[a] == InvalidGroupAddress))
      && s == State(s.groups, s.dpts, s.issues, s.blocked, {}, {}, [], {}, {})
  {
    GatheredFrom(records);
    var s := Gather(records, NOTHING);
    assert GroupRead(records, s, a) && ReasonRead(records, s, a);
    hide Repeated;
    hide Nameless;
    hide FirstNames;
    hide Gather;
    hide Resolve;
  }

  // -------------------------------------------------------------- everything in turn

  lemma {:induction false} EachFunctionJoins(s: State, before: seq<Function>, f: Function)
    ensures var (t, refs) := Members(Functions(s, before), f, f.members, []);
      Functions(s, before + [f]) == JoinGroup(t, f.name, f.kind, refs, f.scene, FunctionRole)
    decreases |before|
  {
    hide JoinGroup;
    hide Members;
    if before == [] {
      assert before + [f] == [f] && [f][1..] == [];
    } else {
      assert (before + [f])[1..] == before[1..] + [f];
      var (t, refs) := Members(s, before[0], before[0].members, []);
      EachFunctionJoins(JoinGroup(t, before[0].name, before[0].kind, refs, before[0].scene, FunctionRole), before[1..], f);
    }
  }

  lemma {:induction false} EachMemberGoes(s: State, f: Function, before: seq<Member>, m: Member, refs: seq<Ref>)
    ensures var (t, found) := Members(s, f, before, refs);
      Members(s, f, before + [m], refs) == (MemberStep(t, f, m).0, found + MemberStep(t, f, m).1)
    decreases |before|
  {
    hide MemberStep;
    if before == [] {
      assert before + [m] == [m] && [m][1..] == [];
    } else {
      assert (before + [m])[1..] == before[1..] + [m];
      var (next, more) := MemberStep(s, f, before[0]);
      EachMemberGoes(next, f, before[1..], m, refs + more);
    }
  }

  lemma {:induction false} EachChannelGoes(
    s: State, begun: State, order: seq<Ga>, dialect: Dialect, before: seq<Prefix>, p: Prefix)
    ensures Channels(s, begun, order, dialect, before + [p]) ==
      ChannelStep(Channels(s, begun, order, dialect, before), dialect, p, TaggedAs(begun, order, dialect, p.key, Sw),
                  RolesAt(begun, order, dialect, p.key))
    decreases |before|
  {
    hide ChannelStep;
    hide TaggedAs;
    hide RolesAt;
    if before == [] {
      assert before + [p] == [p] && [p][1..] == [];
    } else {
      assert (before + [p])[1..] == before[1..] + [p];
      var q := before[0];
      EachChannelGoes(
        ChannelStep(s, dialect, q, TaggedAs(begun, order, dialect, q.key, Sw), RolesAt(begun, order, dialect, q.key)),
        begun, order, dialect, before[1..], p);
    }
  }

  lemma {:induction false} EachSceneGoes(s: State, before: seq<Ga>, a: Ga)
    ensures Scenes(s, before + [a]) == SceneStep(Scenes(s, before), a)
    decreases |before|
  {
    hide SceneStep;
    if before == [] {
      assert before + [a] == [a] && [a][1..] == [];
    } else {
      assert (before + [a])[1..] == before[1..] + [a];
      EachSceneGoes(SceneStep(s, before[0]), before[1..], a);
    }
  }

  /** A named group is a light when its name says so, and has no kind and no scene otherwise. */
  lemma {:induction false} EachNameJoins(s: State, begun: State, order: seq<Ga>, before: seq<Prefix>, p: Prefix)
    ensures NamedGroups(s, begun, order, before + [p]) ==
      JoinGroup(NamedGroups(s, begun, order, before), p.name, if p.light then LightKind else OtherKind,
                NamedAs(begun, order, p.key), None, NameRole)
    decreases |before|
  {
    hide JoinGroup;
    hide NamedAs;
    if before == [] {
      assert before + [p] == [p] && [p][1..] == [];
    } else {
      assert (before + [p])[1..] == before[1..] + [p];
      var q := before[0];
      EachNameJoins(JoinGroup(s, q.name, if q.light then LightKind else OtherKind, NamedAs(begun, order, q.key), None, NameRole),
                    begun, order, before[1..], p);
    }
  }

  lemma {:induction false} EachAddressFallsBack(s: State, before: seq<Ga>, a: Ga)
    ensures Fallback(s, before + [a]) == FallbackStep(Fallback(s, before), a)
    decreases |before|
  {
    hide FallbackStep;
    if before == [] {
      assert before + [a] == [a] && [a][1..] == [];
    } else {
      assert (before + [a])[1..] == before[1..] + [a];
      EachAddressFallsBack(FallbackStep(s, before[0]), before[1..], a);
    }
  }

  /** Every pass begins where the one before it ended; the channel and name passes gather from that state. */
  lemma PassesInOrder(records: seq<Record>, script: Script)
    returns (functions: State, climates: State, lights: State, scenes: State, names: State)
    ensures
      && functions == Functions(Load(records), script.functions)
      && climates == Channels(functions, functions, script.order, ClimateDialect, script.climates)
      && lights == Channels(climates, climates, script.order, LightDialect, script.lights)
      && scenes == Scenes(lights, script.order)
      && names == NamedGroups(scenes, scenes, script.order, script.names)
      && PlanProject(records, script) == Annotate(Fallback(names, script.order))
  {
    functions := Functions(Load(records), script.functions);
    climates := Channels(functions, functions, script.order, ClimateDialect, script.climates);
    lights := Channels(climates, climates, script.order, LightDialect, script.lights);
    scenes := Scenes(lights, script.order);
    names := NamedGroups(scenes, scenes, script.order, script.names);
  }

  // --------------------------------------------------------------------- in the end

  /** Only an address that nothing uses, and of which no more is known than that the metadata do not suffice, is told
      to be not exposed or, else, of an unknown role. */
  lemma AnnotatesExactly(s: State, a: Ga)
    ensures var t := Annotate(s);
      && t == s.(issues := t.issues)
      && var open := a !in s.used && (a !in s.issues || s.issues[a] == InsufficientMetadata);
         if open && a in s.notExposed then a in t.issues && t.issues[a] == NotExposedRole
         else if open && a in s.unresolved then a in t.issues && t.issues[a] == UnresolvedRole
         else (a in t.issues <==> a in s.issues) && (a in s.issues ==> t.issues[a] == s.issues[a])
  {
  }

  /** What an entity is called for: the first of these fields it has, and for a scene also its number. */
  lemma ClaimsExactly(c: Candidate)
    ensures var f := c.settings.fields;
      ClaimOf(c).primary ==
        if Address in f then Some(f[Address])
        else if MoveLongAddress in f then Some(f[MoveLongAddress])
        else if PositionAddress in f then Some(f[PositionAddress])
        else if TargetTemperatureAddress in f then Some(f[TargetTemperatureAddress])
        else if OnOffAddress in f then Some(f[OnOffAddress])
        else if StateAddress in f then Some(f[StateAddress])
        else if TemperatureAddress in f then Some(f[TemperatureAddress])
        else None
    ensures ClaimOf(c).scene == if c.platform.Scene? then c.settings.scene else None
  {
    var f := c.settings.fields;
    hide FirstField;
    FirstFieldIs(f, PRIMARY);
    FirstFieldIs(f, PRIMARY[1..]);
    FirstFieldIs(f, PRIMARY[2..]);
    FirstFieldIs(f, PRIMARY[3..]);
    FirstFieldIs(f, PRIMARY[4..]);
    FirstFieldIs(f, PRIMARY[5..]);
    FirstFieldIs(f, PRIMARY[6..]);
    FirstFieldIs(f, PRIMARY[7..]);
  }

  lemma {:induction false} FirstFieldIs(f: Fields, order: seq<Field>)
    ensures FirstField(f, order) ==
      if order == [] then None else if order[0] in f then Some(f[order[0]]) else FirstField(f, order[1..])
  {
  }
}
