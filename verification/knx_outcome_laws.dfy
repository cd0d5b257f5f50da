/** What the planner's remaining steps do, told from what they find: members, scenes, claims and reasons. */
module KnxOutcomeLaws {
  import opened Common
  import Id = KnxIdentity
  import opened KnxPlannerModel
  import opened KnxPlannerPasses
  import opened KnxGroupVerdicts
  import opened KnxEvidence
  import opened KnxEntityLaws

  // ------------------------------------------------------------------- a function's members

  /** The role a member's own name gives it inside this function. */
  ghost predicate NamesItself(s: State, f: Function, a: Ga, role: Role) {
    a in s.groups && exists named :: s.groups[a].named == Some(named) && named.key == f.key && named.role == role
  }

  /** A wall button's relative colour temperature, named after the function. */
  predicate IsWall(s: State, f: Function, a: Ga) {
    a in s.groups && s.groups[a].wallPrefix == Some(f.key) && a in s.dpts && s.dpts[a] == Type(3, 7)
  }

  /** What a role contributes: itself, and a set point that can be written and read a command and a state. */
  ghost predicate Contributes(s: State, role: Role, a: Ga, refs: seq<Ref>) {
    if role != TempRoomSetpoint then refs == [Ref(role, a)]
    else if a in s.groups && Writes(s.groups[a]) && Reads(s.groups[a]) then
      refs == [Ref(TargetTemperature, a), Ref(TargetTemperatureState, a)]
    else refs == []
  }

  predicate HasEntry(role: Role) { RoleEntry(role).Some? || role == TempRoomSetpoint }

  lemma ContributesIs(s: State, role: Role, a: Ga)
    ensures Contributes(s, role, a, RefsFor(s, role, a))
  {
    if a in s.groups { FlagsAre(s.groups[a]); }
    hide HasWrite;
    hide HasRead;
    hide Writes;
    hide Reads;
  }

  /**
    A member without an address is reported and still joins by its text; one that is never exposed is set aside; one
    without a role of its own takes the role its name says, or is a wall button's, or stays unresolved.
   */
  lemma MemberGoesExactly(s: State, f: Function, m: Member)
    ensures var (t, refs) := MemberStep(s, f, m);
      match m.address
      case None =>
        t == s.(issues := s.issues[m.text := MissingFunctionAddress]) && Contributes(s, m.role, m.text, refs)
      case Some(a) =>
        if m.role == NotExposed then t == s.(notExposed := s.notExposed + {a}) && refs == []
        else if HasEntry(m.role) then t == s && Contributes(s, m.role, a, refs)
        else if exists role :: NamesItself(s, f, a, role) then
          t == s && exists role :: NamesItself(s, f, a, role) && Contributes(s, role, a, refs)
        else if IsWall(s, f, a) then t == s.(notExposed := s.notExposed + {a}) && refs == []
        else t == s.(unresolved := s.unresolved + {a}) && refs == []
  {
    ContributesIs(s, m.role, m.text);
    hide RoleEntry;
    hide RefsFor;
    hide Contributes;
    if m.address.Some? {
      var a := m.address.value;
      ContributesIs(s, m.role, a);
      RoleEntryOf();
      if NamedRole(s, f, a).Some? {
        var role := NamedRole(s, f, a).value;
        assert NamesItself(s, f, a, role);
        ContributesIs(s, role, a);
      }
    }
  }

  lemma RoleEntryOf()
    ensures RoleEntry(TempRoomSetpoint).None? && RoleEntry(NotExposed).None?
  {
  }

  // ------------------------------------------------------------------------- scenes

  predicate OneToSixtyFour(numbers: seq<int>) {
    && (forall n :: n in numbers ==> 1 <= n <= 64)
    && forall i, j :: 0 <= i < j < |numbers| ==> numbers[i] != numbers[j]
  }

  /** Senders of the archive name the scenes, all of them linked and sending, and something takes the scene or a wall
      key has it. */
  ghost predicate Sent(g: Group) {
    && g.scene.fromSender && g.scene.numbers.Some? && g.scene.numbers.value != []
    && OneToSixtyFour(g.scene.numbers.value)
    && g.scene.senders.Some? && g.scene.senders.value != []
    && (forall id :: id in g.scene.senders.value ==>
          id != "" && exists o :: o in g.objects && o.id == id && o.flags.communication.Yes? && o.flags.transmit.Yes?)
    && (Writes(g) || g.scene.wallKey)
  }

  /** Everything declared is one of the two scene types, and something is. */
  ghost predicate OnlyScenes(g: Group) {
    && (exists d :: Declares(g, d))
    && forall d :: Declares(g, d) ==> d == Some(Dpt(17, Some(1))) || d == Some(Dpt(18, Some(1)))
  }

  function SceneEntities(name: string, a: Ga, numbers: seq<int>): (r: seq<Candidate>)
    ensures |r| == |numbers| && forall i :: 0 <= i < |r| ==>
      r[i] == Candidate(Id.Scene, name, Settings(map[Address := a], None, false, Some(numbers[i]), None, false, None, false),
                        SceneSender)
  {
    seq(|numbers|, i requires 0 <= i < |numbers| =>
      Candidate(Id.Scene, name, Settings(map[Address := a], None, false, Some(numbers[i]), None, false, None, false),
                SceneSender))
  }

  lemma SentIs(g: Group)
    ensures SendsScenes(g) <==> Sent(g)
  {
    FlagsAre(g);
    hide HasWrite;
    hide Writes;
    if SendsScenes(g) {
      forall id | id in g.scene.senders.value
        ensures exists o :: o in g.objects && o.id == id && o.flags.communication.Yes? && o.flags.transmit.Yes?
      {
        var o :| o in g.objects && o.id == id && Sets(o, o.flags.transmit);
        assert o.flags.communication.Yes? && o.flags.transmit.Yes?;
      }
    }
    if Sent(g) {
      forall id | id in g.scene.senders.value ensures exists o :: o in g.objects && o.id == id && Sets(o, o.flags.transmit)
      {
        var o :| o in g.objects && o.id == id && o.flags.communication.Yes? && o.flags.transmit.Yes?;
        assert Sets(o, o.flags.transmit);
      }
    }
  }

  lemma OnlyScenesIs(g: Group)
    ensures Recallable(g) <==> OnlyScenes(g)
  {
    forall d: Option<Dpt> ensures d in Choices(g) <==> Declares(g, d) { ChoicesAre(g, d); }
    hide Choices;
    hide Declares;
    if Choices(g) != {} { var d :| d in Choices(g); }
  }

  lemma {:induction false} ScenesAdded(s: State, name: string, a: Ga, numbers: seq<int>)
    ensures AddScenes(s, name, a, numbers) ==
      s.(candidates := s.candidates + SceneEntities(name, a, numbers), used := if numbers == [] then s.used else s.used + {a})
    decreases |numbers|
  {
    if numbers == [] {
      assert s.candidates + [] == s.candidates;
    } else {
      var first, rest := SceneFor(name, a, numbers[0]), numbers[1..];
      OneValue(a);
      ScenesAdded(Add(s, first), name, a, rest);
      FirstScene(name, a, numbers);
      hide SceneEntities;
      Regroup(s.candidates, [first], SceneEntities(name, a, rest));
    }
  }

  lemma FirstScene(name: string, a: Ga, numbers: seq<int>)
    requires numbers != []
    ensures SceneEntities(name, a, numbers) == [SceneFor(name, a, numbers[0])] + SceneEntities(name, a, numbers[1..])
  {
  }

  /** An address becomes one scene for each number its senders name, exactly when it is free and they prove it. */
  lemma ScenesBecomeExactly(s: State, a: Ga)
    ensures var t := SceneStep(s, a);
      if a in s.groups && a !in s.used && a !in s.reserved && Sent(s.groups[a]) && OnlyScenes(s.groups[a])
         && (a in s.blocked ==> a in s.issues && s.issues[a] == ConflictingType)
      then
        t == s.(blocked := s.blocked - {a}, issues := if a in s.blocked then s.issues - {a} else s.issues,
                candidates := s.candidates + SceneEntities(s.groups[a].name, a, s.groups[a].scene.numbers.value),
                used := s.used + {a})
      else t == s
  {
    if a in s.groups {
      SentIs(s.groups[a]);
      OnlyScenesIs(s.groups[a]);
      hide Recallable;
      hide OnlyScenes;
      if Available(s, a) && Sent(s.groups[a]) && (a in s.blocked ==> a in s.issues && s.issues[a] == ConflictingType) {
        var lifted := if a in s.blocked then Unblock(s, a) else s;
        ScenesAdded(lifted, s.groups[a].name, a, s.groups[a].scene.numbers.value);
        assert a !in s.blocked ==> s.blocked - {a} == s.blocked;
        hide AddScenes;
        hide SceneEntities;
      }
      hide SendsScenes;
    }
  }

  // -------------------------------------------------------------- names and channels

  /** The free addresses whose whole name has this prefix, each under the role its name says. */
  lemma {:induction false} NamedExactly(s: State, order: seq<Ga>, key: string, r: Ref)
    ensures r in NamedAs(s, order, key) <==>
      && r.address in order && r.address in s.groups && r.address !in s.used && r.address !in s.reserved
      && s.groups[r.address].named.Some? && s.groups[r.address].named.value.key == key
      && s.groups[r.address].named.value.role == r.role
  {
    if order != [] {
      assert order == [order[0]] + order[1..];
      NamedExactly(s, order[1..], key, r);
    }
  }

  /** The free addresses whose name has this prefix and tag in the dialect. */
  lemma {:induction false} TaggedExactly(s: State, order: seq<Ga>, dialect: Dialect, key: string, tag: Tag, a: Ga)
    ensures a in TaggedAs(s, order, dialect, key, tag) <==>
      && a in order && a in s.groups && a !in s.used && a !in s.reserved
      && var tagged := if dialect == LightDialect then s.groups[a].lightTag else s.groups[a].climateTag;
         tagged.Some? && tagged.value.key == key && tagged.value.tag == tag
  {
    if order != [] {
      assert order == [order[0]] + order[1..];
      TaggedExactly(s, order[1..], dialect, key, tag, a);
    }
  }

  // ------------------------------------------------------------------ claims and reasons

  /** Nothing of it is blocked. */
  ghost predicate Stands(s: State, c: Candidate) { forall a :: a in Uses(c) ==> a !in s.blocked }

  /** Every standing candidate with its claim is the same entity. */
  ghost predicate Unrivalled(s: State, c: Candidate) {
    forall d :: d in s.candidates && Stands(s, d) && ClaimOf(d) == ClaimOf(c) ==>
      d.platform == c.platform && d.settings == c.settings
  }

  lemma StandsIs(s: State, c: Candidate)
    ensures Live(s, c) <==> Stands(s, c)
  {
  }

  lemma UnrivalledIs(s: State, c: Candidate)
    ensures !Contested(s, c) <==> Unrivalled(s, c)
  {
    forall d: Candidate ensures Live(s, d) <==> Stands(s, d) { StandsIs(s, d); }
    hide Live;
    hide Stands;
    if Contested(s, c) {
      var d :| d in s.candidates && Live(s, d) && ClaimOf(d) == ClaimOf(c) && !Alike(c, d);
      assert Stands(s, d);
    }
    if !Unrivalled(s, c) {
      var d :| d in s.candidates && Stands(s, d) && ClaimOf(d) == ClaimOf(c)
               && !(d.platform == c.platform && d.settings == c.settings);
      assert Live(s, d) && !Alike(c, d);
    }
  }

  /** It stands unrivalled here, and no standing candidate before it has its claim. */
  ghost predicate FirstOfClaim(s: State, all: seq<Candidate>, i: nat) {
    && i < |all| && Stands(s, all[i]) && Unrivalled(s, all[i])
    && forall j :: 0 <= j < i && Stands(s, all[j]) ==> ClaimOf(all[j]) != ClaimOf(all[i])
  }

  lemma SameClaimSameFate(s: State, c: Candidate, d: Candidate)
    requires ClaimOf(c) == ClaimOf(d) && Unrivalled(s, c) && d in s.candidates && Stands(s, d) && c in s.candidates
    requires Stands(s, c)
    ensures Unrivalled(s, d)
  {
    hide Stands;
    hide ClaimOf;
  }

  /** From `i` on: what is accepted are the first of their claims, among those not claimed before. */
  lemma {:induction false} AcceptedFrom(s: State, i: nat, claimed: set<Claim>, c: Candidate)
    requires i <= |s.candidates|
    requires forall x :: x in claimed <==>
      exists j :: 0 <= j < i && FirstOfClaim(s, s.candidates, j) && ClaimOf(s.candidates[j]) == x
    ensures c in Accepted(s, s.candidates[i..], claimed) <==>
      exists j: nat :: i <= j && FirstOfClaim(s, s.candidates, j) && s.candidates[j] == c
    decreases |s.candidates| - i
  {
    hide Live;
    hide Contested;
    hide Stands;
    hide Unrivalled;
    hide ClaimOf;
    if i < |s.candidates| {
      var d, rest := s.candidates[i], s.candidates[i + 1..];
      assert s.candidates[i..] == [d] + rest;
      StandsIs(s, d);
      UnrivalledIs(s, d);
      var taken := Live(s, d) && !Contested(s, d) && ClaimOf(d) !in claimed;
      FirstIs(s, i, claimed);
      var more := if taken then claimed + {ClaimOf(d)} else claimed;
      MoreClaimed(s, i, claimed, more);
      AcceptedFrom(s, i + 1, more, c);
    }
  }

  lemma MoreClaimed(s: State, i: nat, claimed: set<Claim>, more: set<Claim>)
    requires i < |s.candidates|
    requires forall x :: x in claimed <==>
      exists j :: 0 <= j < i && FirstOfClaim(s, s.candidates, j) && ClaimOf(s.candidates[j]) == x
    requires more == if FirstOfClaim(s, s.candidates, i) then claimed + {ClaimOf(s.candidates[i])} else claimed
    ensures forall x :: x in more <==>
      exists j :: 0 <= j < i + 1 && FirstOfClaim(s, s.candidates, j) && ClaimOf(s.candidates[j]) == x
  {
    hide FirstOfClaim;
    hide ClaimOf;
  }

  lemma FirstIs(s: State, i: nat, claimed: set<Claim>)
    requires i < |s.candidates|
    requires forall x :: x in claimed <==>
      exists j :: 0 <= j < i && FirstOfClaim(s, s.candidates, j) && ClaimOf(s.candidates[j]) == x
    ensures FirstOfClaim(s, s.candidates, i) <==>
      Stands(s, s.candidates[i]) && Unrivalled(s, s.candidates[i]) && ClaimOf(s.candidates[i]) !in claimed
  {
    var c := s.candidates[i];
    if Stands(s, c) && Unrivalled(s, c) && ClaimOf(c) !in claimed {
      forall j | 0 <= j < i && Stands(s, s.candidates[j]) ensures ClaimOf(s.candidates[j]) != ClaimOf(c) {
        if ClaimOf(s.candidates[j]) == ClaimOf(c) { EarliestClaims(s, j, c, claimed); }
      }
    }
  }

  /** Among the standing candidates of an unrivalled claim one comes first, and has claimed it. */
  lemma {:induction false} EarliestClaims(s: State, j: nat, c: Candidate, claimed: set<Claim>)
    requires j < |s.candidates| && Stands(s, s.candidates[j]) && ClaimOf(s.candidates[j]) == ClaimOf(c)
    requires c in s.candidates && Stands(s, c) && Unrivalled(s, c)
    requires forall k :: 0 <= k <= j && FirstOfClaim(s, s.candidates, k) ==> ClaimOf(s.candidates[k]) in claimed
    ensures ClaimOf(c) in claimed
    decreases j
  {
    hide Stands;
    hide ClaimOf;
    if k :| 0 <= k < j && Stands(s, s.candidates[k]) && ClaimOf(s.candidates[k]) == ClaimOf(c) {
      EarliestClaims(s, k, c, claimed);
    } else {
      SameClaimSameFate(s, c, s.candidates[j]);
      assert FirstOfClaim(s, s.candidates, j);
    }
  }

  /** Accepted is exactly what stands, agrees with everything else of its claim, and comes first in it. */
  lemma {:induction false} AcceptedExactly(s: State, c: Candidate)
    ensures c in Accepted(s, s.candidates, {}) <==> exists i: nat :: FirstOfClaim(s, s.candidates, i) && s.candidates[i] == c
  {
    assert s.candidates[0..] == s.candidates;
    AcceptedFrom(s, 0, {}, c);
  }

  ghost predicate RivalledAt(s: State, a: Ga) {
    exists c :: c in s.candidates && Stands(s, c) && !Unrivalled(s, c) && a in Uses(c)
  }

  /**
    What is reported, and why: every address of the project or with a reason that no accepted entity uses; contested
    claims come before the reason recorded, and without one the metadata do not suffice.
   */
  lemma ReportsExactly(s: State, a: Ga)
    requires Conclusion(s).Success?
    ensures var outcome := Conclusion(s).value;
      var mapped := exists c :: c in outcome.entities && a in Uses(c);
      && (a in outcome.skipped <==> !mapped && (a in s.groups || a in s.issues || RivalledAt(s, a)))
      && (a in outcome.skipped ==>
            (outcome.skipped[a] ==
             if RivalledAt(s, a) then ConflictingClaim else if a in s.issues then s.issues[a] else InsufficientMetadata))
  {
    RivalsAre(s, a);
    hide Accepted;
    hide Contested;
    hide Live;
    hide RivalledAt;
    hide ContestedAddresses;
    var outcome := Conclusion(s).value;
    assert a in UsedBy(outcome.entities) <==> exists c :: c in outcome.entities && a in Uses(c);
  }

  lemma RivalsAre(s: State, a: Ga)
    ensures a in ContestedAddresses(s) <==> RivalledAt(s, a)
  {
    hide Live;
    hide Contested;
    hide Stands;
    hide Unrivalled;
    forall c: Candidate ensures Live(s, c) <==> Stands(s, c) { StandsIs(s, c); }
    forall c: Candidate ensures !Contested(s, c) <==> Unrivalled(s, c) { UnrivalledIs(s, c); }
    if a in ContestedAddresses(s) {
      var c :| c in s.candidates && Live(s, c) && Contested(s, c) && a in Uses(c);
      assert Stands(s, c) && !Unrivalled(s, c);
    }
    if RivalledAt(s, a) {
      var c :| c in s.candidates && Stands(s, c) && !Unrivalled(s, c) && a in Uses(c);
      assert Live(s, c) && Contested(s, c);
    }
  }
}
