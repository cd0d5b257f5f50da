/** Climate units found by channel: no two of them share the room temperature that their identity begins with. */
module KnxClimateUnits {
  import opened Common
  import Id = KnxIdentity
  import opened KnxPlannerModel
  import opened KnxPlannerPasses
  import opened KnxPlannerSoundness
  import opened KnxPlannerRuns
  import opened KnxChannelSplit

  /** A climate entity that was joined by names and channels, not by a function. */
  predicate IsUnit(c: Candidate) { c.platform.Climate? && c.source.ObjectChannel? }

  /** The name prefix under which an address says what it is for a climate unit. */
  predicate UnitKey(s: State, a: Ga, key: string) {
    a in s.groups && s.groups[a].climateTag.Some? && s.groups[a].climateTag.value.key == key
  }

  ghost predicate KeyIn(s: State, a: Ga, keys: set<string>) { exists key :: key in keys && UnitKey(s, a, key) }

  /** Every unit reads its temperature under one of these prefixes, and no two units read the same one. */
  ghost predicate Units(s: State, keys: set<string>) {
    && (forall c :: c in s.candidates && IsUnit(c) ==>
          && TemperatureAddress in c.settings.fields && OnOffAddress in c.settings.fields
          && KeyIn(s, c.settings.fields[TemperatureAddress], keys))
    && (forall c, d ::
          (c in s.candidates && d in s.candidates && IsUnit(c) && IsUnit(d)
           && c.settings.fields[TemperatureAddress] == d.settings.fields[TemperatureAddress])
          ==> c.settings.fields[OnOffAddress] == d.settings.fields[OnOffAddress])
  }

  // -------------------------------------------------------- passes that find no units

  /** The project is the same and no unit is new. */
  ghost predicate NoNewUnits(s: State, t: State) {
    t.groups == s.groups && forall c :: c in t.candidates && IsUnit(c) ==> c in s.candidates
  }

  lemma NoNewTrans(s: State, t: State, u: State)
    requires NoNewUnits(s, t) && NoNewUnits(t, u)
    ensures NoNewUnits(s, u)
  {
  }

  lemma UnitsStay(s: State, t: State, keys: set<string>)
    requires Units(s, keys) && NoNewUnits(s, t)
    ensures Units(t, keys)
  {
    hide UnitKey;
    forall c | c in t.candidates && IsUnit(c) ensures KeyIn(t, c.settings.fields[TemperatureAddress], keys) {
      var key :| key in keys && UnitKey(s, c.settings.fields[TemperatureAddress], key);
      SameKey(s, t, c.settings.fields[TemperatureAddress], key);
    }
  }

  lemma SameKey(s: State, t: State, a: Ga, key: string)
    requires t.groups == s.groups && UnitKey(s, a, key)
    ensures UnitKey(t, a, key)
  {
  }

  lemma AddNone(s: State, c: Candidate)
    requires !IsUnit(c)
    ensures NoNewUnits(s, Add(s, c))
  {
  }

  lemma ImpulsesNone(s: State, name: string, fields: Fields, mentioned: set<Ga>, source: Source)
    requires !source.ObjectChannel?
    ensures NoNewUnits(s, Impulses(s, name, fields, mentioned, source))
  {
    hide Refuse;
    hide ButtonFor;
    hide ImpulseCover;
    var wall, rest := fields.Keys * WALL, fields - WALL;
    if rest.Keys == IMPULSES {
      if wall == WALL && fields[MoveLongAddress] in s.groups { CoverNone(s, name, fields, source); }
      forall f | f in fields ensures !IsUnit(ButtonFor(name, fields, f, source)) { ButtonNone(name, fields, f, source); }
    } else {
      RefuseNone(s, mentioned, IncompatibleRoles);
    }
  }

  lemma ButtonNone(name: string, fields: Fields, f: Field, source: Source)
    requires f in fields
    ensures !IsUnit(ButtonFor(name, fields, f, source))
  {
  }

  lemma CoverNone(s: State, name: string, fields: Fields, source: Source)
    requires WALL <= fields.Keys && fields[MoveLongAddress] in s.groups
    ensures !IsUnit(ImpulseCover(s, name, fields, source))
  {
  }

  lemma RefuseNone(s: State, mentioned: set<Ga>, issue: Issue)
    ensures forall t: State :: t.groups == s.groups && t.candidates == s.candidates ==>
      NoNewUnits(s, Refuse(t, mentioned, issue))
  {
  }

  lemma JoinNone(s: State, name: string, kind: Kind, refs: seq<Ref>, scene: Option<int>, source: Source)
    requires !source.ObjectChannel?
    ensures NoNewUnits(s, JoinGroup(s, name, kind, refs, scene, source))
  {
    hide Judge;
    hide Collect;
    hide Impulses;
    hide Allowed;
    hide Mentioned;
    var collected := Collect(s, refs, map[]);
    if collected.Success? { ImpulsesNone(s, name, collected.value, Mentioned(s, refs), source); }
  }

  lemma {:induction false} MembersNone(s: State, f: Function, members: seq<Member>, refs: seq<Ref>)
    ensures NoNewUnits(s, Members(s, f, members, refs).0)
    decreases |members|
  {
    if members != [] {
      MemberNotes(s, f, members[0]);
      hide MemberStep;
      var (next, more) := MemberStep(s, f, members[0]);
      MembersNone(next, f, members[1..], refs + more);
    }
  }

  lemma {:induction false} FunctionsNone(s: State, functions: seq<Function>)
    ensures NoNewUnits(s, Functions(s, functions))
    decreases |functions|
  {
    if functions != [] {
      hide JoinGroup;
      hide Members;
      hide NoNewUnits;
      var f := functions[0];
      var (next, refs) := Members(s, f, f.members, []);
      MembersNone(s, f, f.members, []);
      var joined := JoinGroup(next, f.name, f.kind, refs, f.scene, FunctionRole);
      JoinNone(next, f.name, f.kind, refs, f.scene, FunctionRole);
      NoNewTrans(s, next, joined);
      FunctionsNone(joined, functions[1..]);
      NoNewTrans(s, joined, Functions(s, functions));
    } else {
      assert NoNewUnits(s, s);
    }
  }

  /** Binding neither adds entities nor changes the project. */
  ghost predicate SameBooks(s: State, t: State) { t.groups == s.groups && t.candidates == s.candidates }

  lemma BindBooks(s: State, a: Ga, tag: Tag, types: set<Type>, anchor: set<string>)
    ensures SameBooks(s, Bind(s, a, tag, types, anchor).0)
  {
    hide KeysOf;
    hide Relaxes;
    hide SetDefault;
  }

  lemma {:induction false} BindSingleBooks(
    s: State, dialect: Dialect, roles: map<Tag, seq<Ga>>, tags: seq<Tag>, anchor: set<string>, fields: Fields)
    ensures var (t, r) := BindSingle(s, dialect, roles, tags, anchor, fields);
      && SameBooks(s, t)
      && forall f :: f in r ==> (f in fields && r[f] == fields[f]) || exists tag :: r[f] in Dialected(roles, tag)
    decreases |tags|
  {
    if tags != [] {
      hide Bind;
      hide BlockAll;
      hide Dialected;
      var addresses, entry := Dialected(roles, tags[0]), TagEntry(dialect, tags[0]);
      if addresses == [] || entry.None? {
        BindSingleBooks(s, dialect, roles, tags[1..], anchor, fields);
      } else if |addresses| != 1 {
        BlockBooks(s, Elements(addresses));
        BindSingleBooks(BlockAll(s, Elements(addresses)), dialect, roles, tags[1..], anchor, fields);
      } else {
        var (next, bound) := Bind(s, addresses[0], tags[0], entry.value.types, anchor);
        BindBooks(s, addresses[0], tags[0], entry.value.types, anchor);
        assert addresses[0] in Dialected(roles, tags[0]);
        BindSingleBooks(next, dialect, roles, tags[1..], anchor,
                        if bound then fields[entry.value.field := addresses[0]] else fields);
      }
    }
  }

  lemma BlockBooks(s: State, addresses: set<Ga>)
    ensures SameBooks(s, BlockAll(s, addresses))
  {
  }

  lemma {:induction false} BindClaimsBooks(
    s: State, anchors: map<Ga, string>, claims: map<Ga, seq<Ga>>, commands: seq<Ga>, tag: Tag, entry: Entry,
    bound: Bindings)
    ensures SameBooks(s, BindClaims(s, anchors, claims, commands, tag, entry, bound).0)
    decreases |commands|
  {
    if commands != [] {
      hide Bind;
      hide Elements;
      hide SetDefaults;
      var c := commands[0];
      if c !in claims || c !in anchors || claims[c] == [] {
        BindClaimsBooks(s, anchors, claims, commands[1..], tag, entry, bound);
      } else if |claims[c]| != 1 {
        var told := s.(issues := SetDefaults(s.issues, Elements(claims[c]), AmbiguousRole));
        BindClaimsBooks(told, anchors, claims, commands[1..], tag, entry, bound);
      } else {
        var (next, ok) := Bind(s, claims[c][0], tag, entry.types, {anchors[c]});
        BindBooks(s, claims[c][0], tag, entry.types, {anchors[c]});
        BindClaimsBooks(next, anchors, claims, commands[1..], tag, entry,
                        if ok && c in bound then bound[c := bound[c][entry.field := claims[c][0]]] else bound);
      }
    }
  }

  lemma {:induction false} BindTagsBooks(
    s: State, dialect: Dialect, anchors: map<Ga, string>, roles: map<Tag, seq<Ga>>, commands: seq<Ga>,
    tags: seq<Tag>, bound: Bindings)
    ensures SameBooks(s, BindTags(s, dialect, anchors, roles, commands, tags, bound).0)
    decreases |tags|
  {
    if tags != [] {
      hide BindClaims;
      hide ClaimsFor;
      hide Dialected;
      var tag, addresses := tags[0], Dialected(roles, tags[0]);
      var entry := TagEntry(dialect, tag);
      if entry.None? {
        BindTagsBooks(s, dialect, anchors, roles, commands, tags[1..], bound);
      } else {
        var told, claims := Told(s, anchors, addresses, tag), ClaimsFor(s, anchors, addresses, tag);
        assert SameBooks(s, told);
        hide Told;
        BindClaimsBooks(told, anchors, claims, commands, tag, entry.value, bound);
        var (next, more) := BindClaims(told, anchors, claims, commands, tag, entry.value, bound);
        BindTagsBooks(next, dialect, anchors, roles, commands, tags[1..], more);
      }
    }
  }

  lemma BindMultiBooks(s: State, dialect: Dialect, commands: seq<Ga>, roles: map<Tag, seq<Ga>>)
    ensures SameBooks(s, BindMulti(s, dialect, commands, roles).0)
  {
    hide BindTags;
    hide BlockAll;
    var doubled, apart := DoubledOf(AllAnchors(s, commands)), Distinct(AllAnchors(s, commands));
    BlockBooks(s, doubled);
    BindTagsBooks(BlockAll(s, doubled), dialect, apart, roles, commands, TagOrder(dialect), Unbound(apart));
  }

  lemma FinishLightNone(s: State, prefix: Prefix, command: Ga, fields: Fields)
    ensures NoNewUnits(s, Finish(s, LightDialect, prefix, command, fields))
  {
    hide DropOrphans;
    hide SameEncoding;
    hide ColorModeOf;
  }

  lemma {:induction false} FinishLightsNone(s: State, prefix: Prefix, commands: seq<Ga>, bound: Bindings)
    ensures NoNewUnits(s, FinishAll(s, LightDialect, prefix, commands, bound))
    decreases |commands|
  {
    if commands != [] {
      hide Finish;
      var next := if commands[0] in bound then Finish(s, LightDialect, prefix, commands[0], bound[commands[0]]) else s;
      if commands[0] in bound { FinishLightNone(s, prefix, commands[0], bound[commands[0]]); }
      FinishLightsNone(next, prefix, commands[1..], bound);
      NoNewTrans(s, next, FinishAll(s, LightDialect, prefix, commands, bound));
    }
  }

  lemma LightStepNone(s: State, prefix: Prefix, commands: seq<Ga>, roles: map<Tag, seq<Ga>>)
    ensures NoNewUnits(s, ChannelStep(s, LightDialect, prefix, commands, roles))
  {
    hide Finish;
    hide FinishAll;
    hide BindMulti;
    hide BindSingle;
    hide Anchors;
    hide KeysOf;
    if |commands| > 1 {
      var (next, bound) := BindMulti(s, LightDialect, commands, roles);
      BindMultiBooks(s, LightDialect, commands, roles);
      FinishLightsNone(next, prefix, commands, bound);
    } else if |commands| == 1 {
      var keys := KeysOf(s, commands[0], false);
      var (next, fields) := BindSingle(s, LightDialect, roles, TagOrder(LightDialect), keys, map[]);
      BindSingleBooks(s, LightDialect, roles, TagOrder(LightDialect), keys, map[]);
      FinishLightNone(next, prefix, commands[0], fields);
    }
  }

  lemma {:induction false} LightsNone(s: State, begun: State, order: seq<Ga>, prefixes: seq<Prefix>)
    ensures NoNewUnits(s, Channels(s, begun, order, LightDialect, prefixes))
    decreases |prefixes|
  {
    if prefixes != [] {
      hide ChannelStep;
      hide TaggedAs;
      hide RolesAt;
      var p := prefixes[0];
      var commands, roles := TaggedAs(begun, order, LightDialect, p.key, Sw), RolesAt(begun, order, LightDialect, p.key);
      var next := ChannelStep(s, LightDialect, p, commands, roles);
      LightStepNone(s, p, commands, roles);
      LightsNone(next, begun, order, prefixes[1..]);
      NoNewTrans(s, next, Channels(s, begun, order, LightDialect, prefixes));
    }
  }

  lemma {:induction false} AddScenesNone(s: State, name: string, a: Ga, numbers: seq<int>)
    ensures NoNewUnits(s, AddScenes(s, name, a, numbers))
    decreases |numbers|
  {
    if numbers != [] {
      var next := Add(s, SceneFor(name, a, numbers[0]));
      AddNone(s, SceneFor(name, a, numbers[0]));
      AddScenesNone(next, name, a, numbers[1..]);
      NoNewTrans(s, next, AddScenes(s, name, a, numbers));
    }
  }

  lemma {:induction false} ScenesNone(s: State, order: seq<Ga>)
    ensures NoNewUnits(s, Scenes(s, order))
    decreases |order|
  {
    if order != [] {
      var a := order[0];
      if SceneStep(s, a) != s {
        var next := if a in s.blocked then Unblock(s, a) else s;
        assert NoNewUnits(s, next);
        AddScenesNone(next, s.groups[a].name, a, s.groups[a].scene.numbers.value);
        NoNewTrans(s, next, SceneStep(s, a));
      }
      hide SceneStep;
      ScenesNone(SceneStep(s, a), order[1..]);
      NoNewTrans(s, SceneStep(s, a), Scenes(s, order));
    }
  }

  lemma {:induction false} NamesNone(s: State, begun: State, order: seq<Ga>, prefixes: seq<Prefix>)
    ensures NoNewUnits(s, NamedGroups(s, begun, order, prefixes))
    decreases |prefixes|
  {
    if prefixes != [] {
      hide JoinGroup;
      hide NamedAs;
      var p := prefixes[0];
      var kind, refs := if p.light then LightKind else OtherKind, NamedAs(begun, order, p.key);
      var next := JoinGroup(s, p.name, kind, refs, None, NameRole);
      JoinNone(s, p.name, kind, refs, None, NameRole);
      NamesNone(next, begun, order, prefixes[1..]);
      NoNewTrans(s, next, NamedGroups(s, begun, order, prefixes));
    }
  }

  lemma FallbackStepNone(s: State, a: Ga)
    ensures NoNewUnits(s, FallbackStep(s, a))
  {
    hide Read;
    hide HasRead;
  }

  lemma {:induction false} FallbackNone(s: State, order: seq<Ga>)
    ensures NoNewUnits(s, Fallback(s, order))
    decreases |order|
  {
    if order != [] {
      FallbackStepNone(s, order[0]);
      hide FallbackStep;
      FallbackNone(FallbackStep(s, order[0]), order[1..]);
      NoNewTrans(s, FallbackStep(s, order[0]), Fallback(s, order));
    }
  }

  // ------------------------------------------------------------- the pass that does

  /** A unit made of a command and the temperature bound to it. */
  predicate MadeFrom(bound: Bindings, commands: seq<Ga>, c: Candidate, command: Ga) {
    && command in commands && command in bound
    && TemperatureAddress in bound[command]
    && Holds(c.settings.fields, TemperatureAddress, bound[command][TemperatureAddress])
    && Holds(c.settings.fields, OnOffAddress, command)
  }

  ghost predicate FromCommands(s: State, t: State, bound: Bindings, commands: seq<Ga>) {
    && t.groups == s.groups
    && forall c :: c in t.candidates && IsUnit(c) && c !in s.candidates ==>
         exists command :: MadeFrom(bound, commands, c, command)
  }

  lemma FinishUnitFrom(s: State, prefix: Prefix, command: Ga, fields: Fields)
    ensures var t := Finish(s, ClimateDialect, prefix, command, fields);
      && t.groups == s.groups
      && forall c :: c in t.candidates && c !in s.candidates ==>
           && TemperatureAddress in fields
           && Holds(c.settings.fields, TemperatureAddress, fields[TemperatureAddress])
           && Holds(c.settings.fields, OnOffAddress, command)
  {
    hide FanStages;
  }

  lemma {:induction false} FinishUnitsFrom(s: State, prefix: Prefix, commands: seq<Ga>, bound: Bindings)
    ensures FromCommands(s, FinishAll(s, ClimateDialect, prefix, commands, bound), bound, commands)
    decreases |commands|
  {
    if commands != [] {
      hide Finish;
      hide MadeFrom;
      var command, rest := commands[0], commands[1..];
      assert commands == [command] + rest;
      var next := if command in bound then Finish(s, ClimateDialect, prefix, command, bound[command]) else s;
      if command in bound { FinishUnitFrom(s, prefix, command, bound[command]); }
      FinishUnitsFrom(next, prefix, rest, bound);
      var t := FinishAll(s, ClimateDialect, prefix, commands, bound);
      forall c | c in t.candidates && IsUnit(c) && c !in s.candidates
        ensures exists x :: MadeFrom(bound, commands, c, x)
      {
        if c in next.candidates {
          MadeFirst(bound, commands, c);
        } else {
          var x :| MadeFrom(bound, rest, c, x);
          MadeLater(bound, commands, c, x);
        }
      }
    }
  }

  lemma MadeFirst(bound: Bindings, commands: seq<Ga>, c: Candidate)
    requires commands != [] && commands[0] in bound && TemperatureAddress in bound[commands[0]]
    requires Holds(c.settings.fields, TemperatureAddress, bound[commands[0]][TemperatureAddress])
    requires Holds(c.settings.fields, OnOffAddress, commands[0])
    ensures MadeFrom(bound, commands, c, commands[0])
  {
  }

  lemma MadeLater(bound: Bindings, commands: seq<Ga>, c: Candidate, x: Ga)
    requires commands != [] && MadeFrom(bound, commands[1..], c, x)
    ensures MadeFrom(bound, commands, c, x)
  {
  }

  /** What a binding of one step guarantees: temperatures under the prefix, each for one command. */
  ghost predicate GoodBinding(s: State, bound: Bindings, key: string) {
    && (forall x :: x in bound && TemperatureAddress in bound[x] ==> UnitKey(s, bound[x][TemperatureAddress], key))
    && (forall x, y ::
          (x in bound && y in bound && TemperatureAddress in bound[x] && TemperatureAddress in bound[y]
           && bound[x][TemperatureAddress] == bound[y][TemperatureAddress])
          ==> x == y)
  }

  lemma ListedUnder(begun: State, order: seq<Ga>, key: string, tag: Tag, a: Ga)
    requires a in Dialected(RolesAt(begun, order, ClimateDialect, key), tag)
    ensures UnitKey(begun, a, key)
  {
    TaggedAsSpec(begun, order, ClimateDialect, key, tag);
  }

  lemma {:induction false} MultiBindsWell(s: State, begun: State, order: seq<Ga>, key: string)
    requires s.groups == begun.groups && NoDup(order)
    ensures var commands, roles := TaggedAs(begun, order, ClimateDialect, key, Sw), RolesAt(begun, order, ClimateDialect, key);
      GoodBinding(s, BindMulti(s, ClimateDialect, commands, roles).1, key)
  {
    hide BindMulti;
    hide TaggedAs;
    hide RolesAt;
    hide UnitKey;
    var commands, roles := TaggedAs(begun, order, ClimateDialect, key, Sw), RolesAt(begun, order, ClimateDialect, key);
    var bound := BindMulti(s, ClimateDialect, commands, roles).1;
    GatheredListsAreSeparate(begun, order, ClimateDialect, key);
    SplitKeys(s, ClimateDialect, commands, roles);
    forall x | x in bound && TemperatureAddress in bound[x] ensures UnitKey(s, bound[x][TemperatureAddress], key) {
      var a := bound[x][TemperatureAddress];
      assert Holds(bound[x], TemperatureAddress, a);
      SplitListed(s, commands, roles, x, a);
      var tag :| a in Dialected(roles, tag);
      ListedUnder(begun, order, key, tag, a);
      SameKey(begun, s, a, key);
    }
    forall x, y | x in bound && y in bound && TemperatureAddress in bound[x] && TemperatureAddress in bound[y]
      && bound[x][TemperatureAddress] == bound[y][TemperatureAddress]
      ensures x == y
    {
      var a := bound[x][TemperatureAddress];
      assert Holds(bound[x], TemperatureAddress, a) && Holds(bound[y], TemperatureAddress, a);
      SplitIsInjective(s, ClimateDialect, commands, roles, x, TemperatureAddress, y, TemperatureAddress, a);
    }
  }

  lemma SplitListed(s: State, commands: seq<Ga>, roles: map<Tag, seq<Ga>>, x: Ga, a: Ga)
    requires SplitInput(commands, roles) && x in BindMulti(s, ClimateDialect, commands, roles).1
    requires Holds(BindMulti(s, ClimateDialect, commands, roles).1[x], TemperatureAddress, a)
    ensures exists tag :: a in Dialected(roles, tag)
  {
    hide BindMulti;
    hide Apart;
    hide SplitInput;
    hide Dialected;
    SplitKeys(s, ClimateDialect, commands, roles);
    SplitExactly(s, ClimateDialect, commands, roles, x, TemperatureAddress, a);
    var tag :| TagFills(ClimateDialect, TagOrder(ClimateDialect), tag, TemperatureAddress)
      && Wins(s, ClimateDialect, Dialected(roles, tag), tag, x, a);
  }

  lemma {:induction false} SingleBindsWell(
    s: State, begun: State, order: seq<Ga>, key: string, command: Ga, anchor: set<string>)
    requires s.groups == begun.groups
    ensures var roles := RolesAt(begun, order, ClimateDialect, key);
      var fields := BindSingle(s, ClimateDialect, roles, TagOrder(ClimateDialect), anchor, map[]).1;
      GoodBinding(s, map[command := fields], key)
  {
    hide RolesAt;
    hide UnitKey;
    hide BindSingle;
    var roles := RolesAt(begun, order, ClimateDialect, key);
    BindSingleBooks(s, ClimateDialect, roles, TagOrder(ClimateDialect), anchor, map[]);
    var fields := BindSingle(s, ClimateDialect, roles, TagOrder(ClimateDialect), anchor, map[]).1;
    if TemperatureAddress in fields {
      var tag :| fields[TemperatureAddress] in Dialected(roles, tag);
      ListedUnder(begun, order, key, tag, fields[TemperatureAddress]);
      SameKey(begun, s, fields[TemperatureAddress], key);
    }
  }

  /** New units of one prefix meet neither each other nor those of other prefixes. */
  lemma NewUnits(s: State, t: State, bound: Bindings, commands: seq<Ga>, key: string, keys: set<string>)
    requires Units(s, keys) && key !in keys && FromCommands(s, t, bound, commands) && GoodBinding(s, bound, key)
    ensures Units(t, keys + {key})
  {
    hide UnitKey;
    forall c | c in t.candidates && IsUnit(c)
      ensures TemperatureAddress in c.settings.fields && OnOffAddress in c.settings.fields
      ensures KeyIn(t, c.settings.fields[TemperatureAddress], keys + {key})
    {
      var k;
      if c in s.candidates {
        k :| k in keys && UnitKey(s, c.settings.fields[TemperatureAddress], k);
      } else {
        var x :| MadeFrom(bound, commands, c, x);
        k := key;
      }
      SameKey(s, t, c.settings.fields[TemperatureAddress], k);
    }
    forall c, d | c in t.candidates && d in t.candidates && IsUnit(c) && IsUnit(d)
      && c.settings.fields[TemperatureAddress] == d.settings.fields[TemperatureAddress]
      ensures c.settings.fields[OnOffAddress] == d.settings.fields[OnOffAddress]
    {
      if c !in s.candidates && d !in s.candidates {
        var x :| MadeFrom(bound, commands, c, x);
        var y :| MadeFrom(bound, commands, d, y);
      } else if c !in s.candidates {
        OldAndNew(s, bound, commands, key, keys, d, c);
      } else if d !in s.candidates {
        OldAndNew(s, bound, commands, key, keys, c, d);
      }
    }
  }

  lemma OldAndNew(
    s: State, bound: Bindings, commands: seq<Ga>, key: string, keys: set<string>, older: Candidate, newer: Candidate)
    requires Units(s, keys) && key !in keys && GoodBinding(s, bound, key)
    requires older in s.candidates && IsUnit(older) && exists x :: MadeFrom(bound, commands, newer, x)
    ensures older.settings.fields[TemperatureAddress] != newer.settings.fields[TemperatureAddress]
  {
    var x :| MadeFrom(bound, commands, newer, x);
    var k :| k in keys && UnitKey(s, older.settings.fields[TemperatureAddress], k);
    assert UnitKey(s, bound[x][TemperatureAddress], key);
  }

  lemma MoreKeys(s: State, keys: set<string>, more: set<string>)
    requires Units(s, keys) && keys <= more
    ensures Units(s, more)
  {
    hide UnitKey;
    forall c | c in s.candidates && IsUnit(c) ensures KeyIn(s, c.settings.fields[TemperatureAddress], more) {
      var k :| k in keys && UnitKey(s, c.settings.fields[TemperatureAddress], k);
    }
  }

  lemma {:induction false} ClimateStepUnits(s: State, begun: State, order: seq<Ga>, prefix: Prefix, keys: set<string>)
    requires Units(s, keys) && prefix.key !in keys && s.groups == begun.groups && NoDup(order)
    ensures var commands := TaggedAs(begun, order, ClimateDialect, prefix.key, Sw);
      var roles := RolesAt(begun, order, ClimateDialect, prefix.key);
      var t := ChannelStep(s, ClimateDialect, prefix, commands, roles);
      Units(t, keys + {prefix.key}) && t.groups == s.groups
  {
    hide Units;
    hide GoodBinding;
    hide Finish;
    hide FinishAll;
    hide BindMulti;
    hide BindSingle;
    hide Anchors;
    hide KeysOf;
    hide TaggedAs;
    hide RolesAt;
    hide MadeFrom;
    var commands := TaggedAs(begun, order, ClimateDialect, prefix.key, Sw);
    var roles := RolesAt(begun, order, ClimateDialect, prefix.key);
    MoreKeys(s, keys, keys + {prefix.key});
    if |commands| > 1 {
      var (next, bound) := BindMulti(s, ClimateDialect, commands, roles);
      BindMultiBooks(s, ClimateDialect, commands, roles);
      MultiBindsWell(s, begun, order, prefix.key);
      FinishUnitsFrom(next, prefix, commands, bound);
      NewUnits(s, FinishAll(next, ClimateDialect, prefix, commands, bound), bound, commands, prefix.key, keys);
    } else if |commands| == 1 && Anchors(s, commands[0]) {
      var anchor := KeysOf(s, commands[0], false);
      var (next, fields) := BindSingle(s, ClimateDialect, roles, TagOrder(ClimateDialect), anchor, map[]);
      BindSingleBooks(s, ClimateDialect, roles, TagOrder(ClimateDialect), anchor, map[]);
      SingleBindsWell(s, begun, order, prefix.key, commands[0], anchor);
      SingleUnitFrom(next, prefix, commands, fields);
      NewUnits(s, Finish(next, ClimateDialect, prefix, commands[0], fields), map[commands[0] := fields], commands,
               prefix.key, keys);
    }
  }

  lemma SingleUnitFrom(s: State, prefix: Prefix, commands: seq<Ga>, fields: Fields)
    requires |commands| == 1
    ensures FromCommands(s, Finish(s, ClimateDialect, prefix, commands[0], fields), map[commands[0] := fields], commands)
  {
    hide Finish;
    var t, bound := Finish(s, ClimateDialect, prefix, commands[0], fields), map[commands[0] := fields];
    FinishUnitFrom(s, prefix, commands[0], fields);
    forall c | c in t.candidates && IsUnit(c) && c !in s.candidates ensures exists x :: MadeFrom(bound, commands, c, x) {
      MadeFirst(bound, commands, c);
    }
  }

  function KeysOfPrefixes(prefixes: seq<Prefix>): set<string> { set p | p in prefixes :: p.key }

  /** Each prefix is taken once. */
  ghost predicate DistinctPrefixes(prefixes: seq<Prefix>) {
    forall i, j :: 0 <= i < j < |prefixes| ==> prefixes[i].key != prefixes[j].key
  }

  lemma PrefixesTail(prefixes: seq<Prefix>)
    requires DistinctPrefixes(prefixes) && prefixes != []
    ensures DistinctPrefixes(prefixes[1..]) && prefixes[0].key !in KeysOfPrefixes(prefixes[1..])
    ensures KeysOfPrefixes(prefixes) == {prefixes[0].key} + KeysOfPrefixes(prefixes[1..])
  {
    var rest := prefixes[1..];
    assert prefixes == [prefixes[0]] + rest;
    forall i, j | 0 <= i < j < |rest| ensures rest[i].key != rest[j].key {
      assert rest[i] == prefixes[i + 1] && rest[j] == prefixes[j + 1];
    }
    forall i | 0 <= i < |rest| ensures rest[i].key != prefixes[0].key { assert rest[i] == prefixes[i + 1]; }
  }

  lemma {:induction false} ClimatesUnits(
    s: State, begun: State, order: seq<Ga>, prefixes: seq<Prefix>, keys: set<string>)
    requires Units(s, keys) && s.groups == begun.groups && NoDup(order)
    requires DistinctPrefixes(prefixes) && keys !! KeysOfPrefixes(prefixes)
    ensures Units(Channels(s, begun, order, ClimateDialect, prefixes), keys + KeysOfPrefixes(prefixes))
    decreases |prefixes|
  {
    if prefixes == [] {
      assert keys + KeysOfPrefixes(prefixes) == keys;
    } else {
      hide Units;
      hide ChannelStep;
      hide TaggedAs;
      hide RolesAt;
      var p := prefixes[0];
      var next := ChannelStep(s, ClimateDialect, p, TaggedAs(begun, order, ClimateDialect, p.key, Sw),
                              RolesAt(begun, order, ClimateDialect, p.key));
      PrefixesTail(prefixes);
      ClimateStepUnits(s, begun, order, p, keys);
      ClimatesUnits(next, begun, order, prefixes[1..], keys + {p.key});
      assert keys + {p.key} + KeysOfPrefixes(prefixes[1..]) == keys + KeysOfPrefixes(prefixes);
    }
  }

  // ---------------------------------------------------------------------- a whole run

  /** What sorting a project's addresses and grouping its names give. */
  ghost predicate Proper(script: Script) { NoDup(script.order) && DistinctPrefixes(script.climates) }

  lemma LoadedNone(records: seq<Record>)
    ensures Load(records).candidates == []
  {
    GatherIssues(records, NOTHING);
  }

  /** After a whole run no two climate units read the same room temperature. */
  lemma UnitsAreApart(records: seq<Record>, script: Script)
    requires Proper(script)
    ensures Units(PlanProject(records, script), KeysOfPrefixes(script.climates))
  {
    hide Units;
    hide NoNewUnits;
    var s0, keys := Load(records), KeysOfPrefixes(script.climates);
    LoadedNone(records);
    assert Units(s0, {}) by { NothingYet(s0); }
    var s1 := Functions(s0, script.functions);
    FunctionsNone(s0, script.functions);
    UnitsStay(s0, s1, {});
    var s2 := Channels(s1, s1, script.order, ClimateDialect, script.climates);
    ClimatesUnits(s1, s1, script.order, script.climates, {});
    assert {} + keys == keys;
    var s3 := Channels(s2, s2, script.order, LightDialect, script.lights);
    LightsNone(s2, s2, script.order, script.lights);
    UnitsStay(s2, s3, keys);
    var s4 := Scenes(s3, script.order);
    ScenesNone(s3, script.order);
    UnitsStay(s3, s4, keys);
    var s5 := NamedGroups(s4, s4, script.order, script.names);
    NamesNone(s4, s4, script.order, script.names);
    UnitsStay(s4, s5, keys);
    var s6 := Fallback(s5, script.order);
    FallbackNone(s5, script.order);
    UnitsStay(s5, s6, keys);
    AnnotateNone(s6);
    UnitsStay(s6, Annotate(s6), keys);
  }

  lemma NothingYet(s: State)
    requires s.candidates == []
    ensures Units(s, {})
  {
  }

  lemma AnnotateNone(s: State)
    ensures NoNewUnits(s, Annotate(s))
  {
    hide IsGeneric;
    hide SetAll;
  }
}
