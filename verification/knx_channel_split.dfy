/** Splitting several commands under one name: who gets which address, exactly, and in no particular order. */
module KnxChannelSplit {
  import opened Common
  import opened KnxPlannerModel
  import opened KnxPlannerPasses

  // ------------------------------------------------------------- one address at a time

  predicate Conflicted(s: State, a: Ga) { a in s.issues && s.issues[a] == ConflictingType }

  /** Two states say the same about one address, as far as binding it goes. */
  ghost predicate SameAt(s: State, t: State, a: Ga) {
    && t.groups == s.groups
    && (a in s.dpts <==> a in t.dpts) && (a in s.dpts ==> s.dpts[a] == t.dpts[a])
    && (a in s.blocked <==> a in t.blocked)
    && (Conflicted(s, a) <==> Conflicted(t, a))
  }

  lemma RelaxesAlike(s: State, t: State, a: Ga, tag: Tag)
    requires SameAt(s, t, a)
    ensures SameAt(Relax(s, a, tag), Relax(t, a, tag), a)
  {
  }

  lemma RelaxElsewhere(s: State, a: Ga, tag: Tag, x: Ga)
    requires x != a
    ensures SameAt(s, Relax(s, a, tag), x)
  {
  }

  lemma BindsAlike(s: State, t: State, a: Ga, tag: Tag, types: set<Type>, anchor: set<string>)
    requires SameAt(s, t, a)
    ensures Bind(s, a, tag, types, anchor).1 == Bind(t, a, tag, types, anchor).1
  {
    RelaxesAlike(s, t, a, tag);
    hide Relax;
    hide SetDefault;
  }

  lemma BindElsewhere(s: State, a: Ga, tag: Tag, types: set<Type>, anchor: set<string>, x: Ga)
    requires x != a
    ensures SameAt(s, Bind(s, a, tag, types, anchor).0, x)
  {
    RelaxElsewhere(s, a, tag, x);
    hide Relax;
    hide KeysOf;
  }

  lemma NotesKeep(s: State, addresses: set<Ga>, issue: Issue, x: Ga)
    requires issue != ConflictingType
    ensures SameAt(s, s.(issues := SetDefaults(s.issues, addresses, issue)), x)
  {
  }

  lemma BlockElsewhere(s: State, addresses: set<Ga>, x: Ga)
    requires x !in addresses
    ensures SameAt(s, BlockAll(s, addresses), x)
  {
  }

  // -------------------------------------------------------------------- who wins

  predicate NoDup(addresses: seq<Ga>) { forall i, j :: 0 <= i < j < |addresses| ==> addresses[i] != addresses[j] }

  /** The address a command gets for a tag: the only one its channel claims, if that one can be bound. */
  function Won(
    s: State, dialect: Dialect, anchors: map<Ga, string>, addresses: seq<Ga>, tag: Tag, c: Ga): Option<Ga>
    requires c in anchors
  {
    var claims := Claimants(s, anchors, addresses, tag, c);
    if TagEntry(dialect, tag).Some? && |claims| == 1
       && Bind(s, claims[0], tag, TagEntry(dialect, tag).value.types, {anchors[c]}).1
    then Some(claims[0])
    else None
  }

  lemma {:induction false} ClaimantsSame(
    s: State, t: State, anchors: map<Ga, string>, addresses: seq<Ga>, tag: Tag, c: Ga)
    requires t.groups == s.groups
    ensures Claimants(s, anchors, addresses, tag, c) == Claimants(t, anchors, addresses, tag, c)
  {
    if addresses != [] {
      ClaimantsSame(s, t, anchors, addresses[1..], tag, c);
      assert Owner(s, anchors, addresses[0], tag) == Owner(t, anchors, addresses[0], tag);
    }
  }

  lemma {:induction false} ClaimantsSpec(s: State, anchors: map<Ga, string>, addresses: seq<Ga>, tag: Tag, c: Ga)
    ensures forall a :: a in Claimants(s, anchors, addresses, tag, c) <==>
      a in addresses && Owner(s, anchors, a, tag) == Some(c)
    ensures NoDup(addresses) ==> NoDup(Claimants(s, anchors, addresses, tag, c))
  {
    if addresses != [] {
      var a, rest := addresses[0], addresses[1..];
      assert addresses == [a] + rest;
      ClaimantsSpec(s, anchors, rest, tag, c);
      if NoDup(addresses) {
        forall i, j | 0 <= i < j < |rest| ensures rest[i] != rest[j] {
          assert rest[i] == addresses[i + 1] && rest[j] == addresses[j + 1];
        }
        assert a !in rest;
      }
    }
  }

  /** Every command gets what it won for this tag, whatever the others did. */
  lemma {:induction false} BindClaimsExactly(
    s: State, dialect: Dialect, anchors: map<Ga, string>, claims: map<Ga, seq<Ga>>, commands: seq<Ga>, tag: Tag,
    bound: Bindings, addresses: seq<Ga>, c: Ga)
    requires NoDup(commands) && TagEntry(dialect, tag).Some? && claims.Keys == anchors.Keys
    requires forall d :: d in anchors ==> claims[d] == Claimants(s, anchors, addresses, tag, d)
    requires bound.Keys == anchors.Keys && c in anchors
    ensures var entry := TagEntry(dialect, tag).value;
      var r := BindClaims(s, anchors, claims, commands, tag, entry, bound).1;
      && r.Keys == bound.Keys
      && r[c] == if c in commands && Won(s, dialect, anchors, addresses, tag, c).Some?
                 then bound[c][entry.field := Won(s, dialect, anchors, addresses, tag, c).value] else bound[c]
    decreases |commands|
  {
    hide Claimants;
    hide Bind;
    hide Won;
    hide BindOne;
    hide SameAt;
    if commands != [] {
      var d, rest := commands[0], commands[1..];
      var entry := TagEntry(dialect, tag).value;
      NoDupTail(commands);
      var (next, more) := BindOne(s, anchors, claims, d, tag, entry, bound);
      BindStep(s, anchors, claims, commands, tag, entry, bound);
      BindOneKeeps(s, anchors, claims, d, tag, entry, bound, addresses, c);
      forall e | e in anchors ensures claims[e] == Claimants(next, anchors, addresses, tag, e) {
        ClaimantsSame(s, next, anchors, addresses, tag, e);
      }
      BindClaimsExactly(next, dialect, anchors, claims, rest, tag, more, addresses, c);
      if d == c {
        BindOneMine(s, dialect, anchors, claims, tag, bound, addresses, c);
      } else {
        WonAfter(s, next, dialect, anchors, claims, addresses, tag, d, c);
      }
    }
  }

  lemma NoDupTail(commands: seq<Ga>)
    requires NoDup(commands) && commands != []
    ensures NoDup(commands[1..]) && commands[0] !in commands[1..]
    ensures forall c :: c in commands <==> c == commands[0] || c in commands[1..]
  {
    assert commands == [commands[0]] + commands[1..];
    forall i, j | 0 <= i < j < |commands[1..]| ensures commands[1..][i] != commands[1..][j] {
      assert commands[1..][i] == commands[i + 1] && commands[1..][j] == commands[j + 1];
    }
  }

  lemma {:induction false} BindStep(
    s: State, anchors: map<Ga, string>, claims: map<Ga, seq<Ga>>, commands: seq<Ga>, tag: Tag, entry: Entry,
    bound: Bindings)
    requires commands != []
    ensures var (next, more) := BindOne(s, anchors, claims, commands[0], tag, entry, bound);
      BindClaims(s, anchors, claims, commands, tag, entry, bound)
      == BindClaims(next, anchors, claims, commands[1..], tag, entry, more)
  {
    hide Bind;
    hide SetDefaults;
    hide Elements;
  }

  lemma {:induction false} BindOneMine(
    s: State, dialect: Dialect, anchors: map<Ga, string>, claims: map<Ga, seq<Ga>>, tag: Tag, bound: Bindings,
    addresses: seq<Ga>, c: Ga)
    requires TagEntry(dialect, tag).Some? && c in anchors && c in claims && c in bound
    requires claims[c] == Claimants(s, anchors, addresses, tag, c)
    ensures var entry := TagEntry(dialect, tag).value;
      var won := Won(s, dialect, anchors, addresses, tag, c);
      BindOne(s, anchors, claims, c, tag, entry, bound).1[c]
      == if won.Some? then bound[c][entry.field := won.value] else bound[c]
  {
    hide Claimants;
    hide Bind;
    hide SetDefaults;
    hide Elements;
  }

  /** One turn of the loop over commands. */
  function BindOne(
    s: State, anchors: map<Ga, string>, claims: map<Ga, seq<Ga>>, d: Ga, tag: Tag, entry: Entry, bound: Bindings)
    : (State, Bindings)
  {
    if d !in claims || d !in anchors || claims[d] == [] then (s, bound)
    else if |claims[d]| != 1 then
      (s.(issues := SetDefaults(s.issues, Elements(claims[d]), AmbiguousRole)), bound)
    else
      var (next, ok) := Bind(s, claims[d][0], tag, entry.types, {anchors[d]});
      (next, if ok && d in bound then bound[d := bound[d][entry.field := claims[d][0]]] else bound)
  }

  lemma BindOneKeeps(
    s: State, anchors: map<Ga, string>, claims: map<Ga, seq<Ga>>, d: Ga, tag: Tag, entry: Entry, bound: Bindings,
    addresses: seq<Ga>, c: Ga)
    requires c in bound
    ensures var (next, more) := BindOne(s, anchors, claims, d, tag, entry, bound);
      && next.groups == s.groups && more.Keys == bound.Keys
      && (d != c ==> more[c] == bound[c])
      && forall x :: !(d in claims && claims[d] == [x]) ==> SameAt(s, next, x)
  {
    var next := BindOne(s, anchors, claims, d, tag, entry, bound).0;
    forall x | !(d in claims && claims[d] == [x]) ensures SameAt(s, next, x) {
      if d in claims && d in anchors && claims[d] != [] {
        if |claims[d]| != 1 {
          NotesKeep(s, Elements(claims[d]), AmbiguousRole, x);
        } else {
          assert claims[d] == [claims[d][0]];
          BindElsewhere(s, claims[d][0], tag, entry.types, {anchors[d]}, x);
        }
      }
    }
  }

  lemma {:induction false} WonAfter(
    s: State, next: State, dialect: Dialect, anchors: map<Ga, string>, claims: map<Ga, seq<Ga>>, addresses: seq<Ga>,
    tag: Tag, d: Ga, c: Ga)
    requires d != c && c in anchors && claims.Keys == anchors.Keys && next.groups == s.groups
    requires forall e :: e in anchors ==> claims[e] == Claimants(s, anchors, addresses, tag, e)
    requires forall x :: !(d in claims && claims[d] == [x]) ==> SameAt(s, next, x)
    ensures Won(next, dialect, anchors, addresses, tag, c) == Won(s, dialect, anchors, addresses, tag, c)
  {
    ClaimantsSame(s, next, anchors, addresses, tag, c);
    var mine := Claimants(s, anchors, addresses, tag, c);
    if |mine| == 1 && TagEntry(dialect, tag).Some? {
      assert mine[0] in mine;
      ClaimantsSpec(s, anchors, addresses, tag, c);
      if d in claims && claims[d] == [mine[0]] {
        assert mine[0] in claims[d];
        ClaimantsSpec(s, anchors, addresses, tag, d);
      }
      BindsAlike(s, next, mine[0], tag, TagEntry(dialect, tag).value.types, {anchors[c]});
    }
  }

  lemma SameTrans(s: State, t: State, u: State, x: Ga)
    requires SameAt(s, t, x) && SameAt(t, u, x)
    ensures SameAt(s, u, x)
  {
  }

  /** Binding one tag's claims says nothing about addresses that do not have the tag. */
  lemma {:induction false} BindClaimsElsewhere(
    s: State, anchors: map<Ga, string>, claims: map<Ga, seq<Ga>>, commands: seq<Ga>, tag: Tag, entry: Entry,
    bound: Bindings, x: Ga)
    requires forall d :: d in claims ==> x !in claims[d]
    ensures SameAt(s, BindClaims(s, anchors, claims, commands, tag, entry, bound).0, x)
    decreases |commands|
  {
    if commands != [] {
      var d := commands[0];
      var (next, more) := BindOne(s, anchors, claims, d, tag, entry, bound);
      if d in claims && d in anchors && claims[d] != [] {
        if |claims[d]| != 1 {
          NotesKeep(s, Elements(claims[d]), AmbiguousRole, x);
        } else {
          assert claims[d][0] in claims[d];
          BindElsewhere(s, claims[d][0], tag, entry.types, {anchors[d]}, x);
        }
      }
      BindClaimsElsewhere(next, anchors, claims, commands[1..], tag, entry, more, x);
      SameTrans(s, next, BindClaims(s, anchors, claims, commands, tag, entry, bound).0, x);
    }
  }

  // ------------------------------------------------------------------- all the tags

  /** No address has two tags, and none is a command. */
  ghost predicate Separate(roles: map<Tag, seq<Ga>>, commands: seq<Ga>) {
    && (forall t, x :: t in roles && x in roles[t] ==> x !in commands)
    && (forall t, u, x :: t in roles && u in roles && x in roles[t] && x in roles[u] ==> t == u)
  }

  predicate DistinctTags(dialect: Dialect, tags: seq<Tag>) {
    && (forall i :: 0 <= i < |tags| ==> TagEntry(dialect, tags[i]).Some?)
    && (forall i, j :: 0 <= i < j < |tags| ==>
          tags[i] != tags[j]
          && TagEntry(dialect, tags[i]).value.field != TagEntry(dialect, tags[j]).value.field)
  }

  function FieldOrder(dialect: Dialect): seq<Field> {
    match dialect
    case LightDialect =>
      [ColorTemperatureAddress, ColorTemperatureStateAddress, StateAddress, BrightnessAddress, BrightnessStateAddress]
    case ClimateDialect =>
      [FanSpeedAddress, FanSpeedStateAddress, ControllerModeAddress, ControllerModeStateAddress, OnOffStateAddress,
       TargetTemperatureAddress, TargetTemperatureStateAddress, TemperatureAddress]
  }

  lemma FieldOfTag(dialect: Dialect, i: nat)
    requires i < |TagOrder(dialect)|
    ensures |FieldOrder(dialect)| == |TagOrder(dialect)| && TagEntry(dialect, TagOrder(dialect)[i]).Some?
    ensures TagEntry(dialect, TagOrder(dialect)[i]).value.field == FieldOrder(dialect)[i]
  {
  }

  lemma OrdersDistinct(dialect: Dialect, i: nat, j: nat)
    requires i < j < |TagOrder(dialect)|
    ensures |FieldOrder(dialect)| == |TagOrder(dialect)|
    ensures TagOrder(dialect)[i] != TagOrder(dialect)[j] && FieldOrder(dialect)[i] != FieldOrder(dialect)[j]
  {
  }

  lemma TagOrderDistinct(dialect: Dialect)
    ensures DistinctTags(dialect, TagOrder(dialect))
  {
    hide TagEntry;
    hide TagOrder;
    hide FieldOrder;
    var tags := TagOrder(dialect);
    forall i | 0 <= i < |tags| ensures TagEntry(dialect, tags[i]).Some? { FieldOfTag(dialect, i); }
    forall i, j | 0 <= i < j < |tags|
      ensures tags[i] != tags[j] && TagEntry(dialect, tags[i]).value.field != TagEntry(dialect, tags[j]).value.field
    {
      FieldOfTag(dialect, i);
      FieldOfTag(dialect, j);
      OrdersDistinct(dialect, i, j);
    }
  }

  lemma DistinctTagsTail(dialect: Dialect, tags: seq<Tag>)
    requires DistinctTags(dialect, tags) && tags != []
    ensures DistinctTags(dialect, tags[1..]) && tags[0] !in tags[1..] && TagEntry(dialect, tags[0]).Some?
    ensures forall t :: t in tags[1..] ==>
      TagEntry(dialect, t).Some? && TagEntry(dialect, t).value.field != TagEntry(dialect, tags[0]).value.field
  {
    var rest := tags[1..];
    forall i, j | 0 <= i < j < |rest|
      ensures rest[i] != rest[j] && TagEntry(dialect, rest[i]).value.field != TagEntry(dialect, rest[j]).value.field
    {
      assert rest[i] == tags[i + 1] && rest[j] == tags[j + 1];
    }
    forall t | t in rest
      ensures TagEntry(dialect, t).Some? && t != tags[0]
      ensures TagEntry(dialect, t).value.field != TagEntry(dialect, tags[0]).value.field
    {
      var i :| 0 <= i < |rest| && rest[i] == t;
      assert tags[i + 1] == t;
    }
  }

  /** The tag that fills a field, among some tags. */
  predicate TagFills(dialect: Dialect, tags: seq<Tag>, t: Tag, f: Field) {
    t in tags && TagEntry(dialect, t).Some? && TagEntry(dialect, t).value.field == f
  }

  predicate Holds(fields: Fields, f: Field, a: Ga) { f in fields && fields[f] == a }

  predicate SameField(before: Fields, after: Fields, f: Field) {
    (f in before <==> f in after) && (f in before ==> before[f] == after[f])
  }

  predicate FieldIs(before: Fields, after: Fields, f: Field, won: Option<Ga>) {
    match won
    case Some(a) => f in after && after[f] == a
    case None => SameField(before, after, f)
  }

  function With(fields: Fields, f: Field, won: Option<Ga>): Fields {
    match won
    case Some(a) => fields[f := a]
    case None => fields
  }

  lemma WonStays(
    s: State, t: State, dialect: Dialect, anchors: map<Ga, string>, addresses: seq<Ga>, tag: Tag, c: Ga)
    requires c in anchors && t.groups == s.groups && forall x :: x in addresses ==> SameAt(s, t, x)
    ensures Won(s, dialect, anchors, addresses, tag, c) == Won(t, dialect, anchors, addresses, tag, c)
  {
    ClaimantsSame(s, t, anchors, addresses, tag, c);
    ClaimantsSpec(s, anchors, addresses, tag, c);
    var mine := Claimants(s, anchors, addresses, tag, c);
    if |mine| == 1 && TagEntry(dialect, tag).Some? {
      assert mine[0] in mine;
      BindsAlike(s, t, mine[0], tag, TagEntry(dialect, tag).value.types, {anchors[c]});
    }
  }

  lemma {:induction false} TagStepElsewhere(
    s: State, dialect: Dialect, anchors: map<Ga, string>, addresses: seq<Ga>, commands: seq<Ga>, tag: Tag,
    bound: Bindings, x: Ga)
    requires TagEntry(dialect, tag).Some? && x !in addresses
    ensures SameAt(s, BindClaims(Told(s, anchors, addresses, tag), anchors, ClaimsFor(s, anchors, addresses, tag),
                                 commands, tag, TagEntry(dialect, tag).value, bound).0, x)
  {
    var told := Told(s, anchors, addresses, tag);
    var claims := ClaimsFor(s, anchors, addresses, tag);
    NotesKeep(s, Unowned(s, anchors, addresses, tag), UnprovenChannel, x);
    forall d | d in claims ensures x !in claims[d] { ClaimantsSpec(s, anchors, addresses, tag, d); }
    BindClaimsElsewhere(told, anchors, claims, commands, tag, TagEntry(dialect, tag).value, bound, x);
    SameTrans(s, told, BindClaims(told, anchors, claims, commands, tag, TagEntry(dialect, tag).value, bound).0, x);
  }

  lemma {:induction false} TagStepExactly(
    s: State, dialect: Dialect, anchors: map<Ga, string>, addresses: seq<Ga>, commands: seq<Ga>, tag: Tag,
    bound: Bindings, c: Ga)
    requires TagEntry(dialect, tag).Some? && NoDup(commands) && bound.Keys == anchors.Keys && c in anchors
    requires c in commands
    ensures var entry := TagEntry(dialect, tag).value;
      var r := BindClaims(Told(s, anchors, addresses, tag), anchors, ClaimsFor(s, anchors, addresses, tag),
                          commands, tag, entry, bound).1;
      && r.Keys == bound.Keys
      && r[c] == With(bound[c], entry.field, Won(s, dialect, anchors, addresses, tag, c))
  {
    var told := Told(s, anchors, addresses, tag);
    forall x | x in addresses ensures SameAt(s, told, x) {
      NotesKeep(s, Unowned(s, anchors, addresses, tag), UnprovenChannel, x);
    }
    WonStays(s, told, dialect, anchors, addresses, tag, c);
    var claims := ClaimsFor(s, anchors, addresses, tag);
    forall d | d in anchors ensures claims[d] == Claimants(told, anchors, addresses, tag, d) {
      ClaimantsSame(s, told, anchors, addresses, tag, d);
    }
    BindClaimsExactly(told, dialect, anchors, claims, commands, tag, bound, addresses, c);
  }

  /** Field by field, a command holds what it won for the tag of that field, and nothing else. */
  lemma {:induction false} BindTagsExactly(
    s: State, dialect: Dialect, anchors: map<Ga, string>, roles: map<Tag, seq<Ga>>, commands: seq<Ga>,
    tags: seq<Tag>, bound: Bindings, c: Ga, f: Field)
    requires DistinctTags(dialect, tags) && Separate(roles, commands) && NoDup(commands)
    requires bound.Keys == anchors.Keys && c in anchors && c in commands
    ensures var r := BindTags(s, dialect, anchors, roles, commands, tags, bound).1;
      && r.Keys == bound.Keys
      && (forall t :: TagFills(dialect, tags, t, f) ==>
            FieldIs(bound[c], r[c], f, Won(s, dialect, anchors, Dialected(roles, t), t, c)))
      && ((forall t :: !TagFills(dialect, tags, t, f)) ==> SameField(bound[c], r[c], f))
    decreases |tags|
  {
    if tags != [] {
      var tag, addresses := tags[0], Dialected(roles, tags[0]);
      DistinctTagsTail(dialect, tags);
      var entry := TagEntry(dialect, tag).value;
      var (next, more) := BindClaims(Told(s, anchors, addresses, tag), anchors,
                                     ClaimsFor(s, anchors, addresses, tag), commands, tag, entry, bound);
      TagStepExactly(s, dialect, anchors, addresses, commands, tag, bound, c);
      BindTagsExactly(next, dialect, anchors, roles, commands, tags[1..], more, c, f);
      assert BindTags(s, dialect, anchors, roles, commands, tags, bound)
          == BindTags(next, dialect, anchors, roles, commands, tags[1..], more);
      TagsCons(dialect, tags, f);
      var r := BindTags(s, dialect, anchors, roles, commands, tags, bound).1;
      var won := Won(s, dialect, anchors, addresses, tag, c);
      forall t | TagFills(dialect, tags, t, f)
        ensures FieldIs(bound[c], r[c], f, Won(s, dialect, anchors, Dialected(roles, t), t, c))
      {
        if t == tag {
          FieldFirst(bound[c], more[c], r[c], f, won);
        } else {
          TagLater(s, next, dialect, anchors, roles, commands, tag, bound, t, c);
          FieldLater(bound[c], more[c], r[c], f, entry.field, won,
                     Won(s, dialect, anchors, Dialected(roles, t), t, c));
        }
      }
      if forall t :: !TagFills(dialect, tags, t, f) {
        assert !TagFills(dialect, tags, tag, f);
        FieldLater(bound[c], more[c], r[c], f, entry.field, won, None);
      }
    }
  }

  lemma FieldFirst(before: Fields, middle: Fields, after: Fields, f: Field, won: Option<Ga>)
    requires middle == With(before, f, won) && SameField(middle, after, f)
    ensures FieldIs(before, after, f, won)
  {
  }

  lemma FieldLater(
    before: Fields, middle: Fields, after: Fields, f: Field, other: Field, won: Option<Ga>, later: Option<Ga>)
    requires middle == With(before, other, won) && other != f && FieldIs(middle, after, f, later)
    ensures FieldIs(before, after, f, later)
  {
  }

  lemma {:induction false} TagLater(
    s: State, next: State, dialect: Dialect, anchors: map<Ga, string>, roles: map<Tag, seq<Ga>>, commands: seq<Ga>,
    tag: Tag, bound: Bindings, t: Tag, c: Ga)
    requires t != tag && TagEntry(dialect, tag).Some? && Separate(roles, commands) && c in anchors
    requires next == BindClaims(Told(s, anchors, Dialected(roles, tag), tag), anchors,
                                ClaimsFor(s, anchors, Dialected(roles, tag), tag), commands, tag,
                                TagEntry(dialect, tag).value, bound).0
    ensures Won(s, dialect, anchors, Dialected(roles, t), t, c) == Won(next, dialect, anchors, Dialected(roles, t), t, c)
  {
    forall x | x in Dialected(roles, t) ensures SameAt(s, next, x) {
      assert x !in Dialected(roles, tag);
      TagStepElsewhere(s, dialect, anchors, Dialected(roles, tag), commands, tag, bound, x);
    }
    if Dialected(roles, t) == [] {
      assert Claimants(s, anchors, [], t, c) == [] && Claimants(next, anchors, [], t, c) == [];
    } else {
      assert Dialected(roles, t)[0] in Dialected(roles, t);
      WonStays(s, next, dialect, anchors, Dialected(roles, t), t, c);
    }
  }

  lemma TagsCons(dialect: Dialect, tags: seq<Tag>, f: Field)
    requires DistinctTags(dialect, tags) && tags != []
    ensures forall t :: TagFills(dialect, tags, t, f) <==>
      (t == tags[0] && TagEntry(dialect, t).value.field == f) || TagFills(dialect, tags[1..], t, f)
    ensures TagEntry(dialect, tags[0]).value.field == f ==> forall t :: !TagFills(dialect, tags[1..], t, f)
  {
    DistinctTagsTail(dialect, tags);
    assert forall t :: t in tags <==> t == tags[0] || t in tags[1..];
  }

  // ----------------------------------------------------------------------- the split

  function Apart(s: State, commands: seq<Ga>): map<Ga, string> { Distinct(AllAnchors(s, commands)) }

  /** The commands that are split: those with one channel that no other command has. */
  lemma ApartExactly(s: State, commands: seq<Ga>, c: Ga)
    ensures c in Apart(s, commands) <==>
      && c in commands && Anchors(s, c)
      && forall d :: d in commands && d != c && Anchors(s, d) ==> KeysOf(s, d, false) != KeysOf(s, c, false)
    ensures c in Apart(s, commands) ==> {Apart(s, commands)[c]} == KeysOf(s, c, false)
    ensures forall d :: c in Apart(s, commands) && d in Apart(s, commands) && d != c ==>
      Apart(s, commands)[c] != Apart(s, commands)[d]
  {
    var anchors := AllAnchors(s, commands);
    forall d | d in anchors ensures {anchors[d]} == KeysOf(s, d, false) {}
    if c in anchors && !Doubled(anchors, c) {
      forall d | d in commands && d != c && Anchors(s, d) ensures KeysOf(s, d, false) != KeysOf(s, c, false) {
        assert d in anchors && anchors[d] != anchors[c];
        assert anchors[c] in KeysOf(s, c, false) && anchors[c] !in {anchors[d]};
      }
    }
    if c in anchors && Doubled(anchors, c) {
      var d :| d in anchors && d != c && anchors[d] == anchors[c];
      assert KeysOf(s, d, false) == KeysOf(s, c, false);
    }
  }

  /** An address belongs to a command exactly when the command's channel is its only one. */
  lemma OwnerExactly(s: State, commands: seq<Ga>, a: Ga, tag: Tag, c: Ga)
    requires c in Apart(s, commands)
    ensures Owner(s, Apart(s, commands), a, tag) == Some(c) <==>
      KeysOf(s, a, IsFeedback(tag)) == KeysOf(s, c, false)
  {
    var anchors := Apart(s, commands);
    var keys := KeysOf(s, a, IsFeedback(tag));
    ApartExactly(s, commands, c);
    if |keys| == 1 {
      var matched := set d | d in anchors && anchors[d] == Only(keys);
      if anchors[c] == Only(keys) {
        forall d | d in matched ensures d == c { ApartExactly(s, commands, c); }
        assert matched == {c};
      } else {
        assert c !in matched;
      }
      assert keys == {anchors[c]} <==> anchors[c] == Only(keys);
    }
  }

  /** The address's type fits the tag, after the one relaxation for feedback bits. */
  predicate Fits(s: State, dialect: Dialect, a: Ga, tag: Tag) {
    && TagEntry(dialect, tag).Some?
    && a !in Relax(s, a, tag).blocked && HasType(Relax(s, a, tag), a, TagEntry(dialect, tag).value.types)
  }

  /** A command wins an address: it alone among the tag's addresses is on the command's channel, and it fits. */
  predicate Wins(s: State, dialect: Dialect, addresses: seq<Ga>, tag: Tag, c: Ga, a: Ga) {
    && a in addresses && Fits(s, dialect, a, tag)
    && forall b :: b in addresses ==>
         (KeysOf(s, b, IsFeedback(tag)) == KeysOf(s, c, false) <==> b == a)
  }

  lemma {:induction false} MineExactly(s: State, commands: seq<Ga>, addresses: seq<Ga>, tag: Tag, c: Ga)
    requires c in Apart(s, commands) && NoDup(addresses)
    ensures var mine := Claimants(s, Apart(s, commands), addresses, tag, c);
      && NoDup(mine)
      && forall b :: b in mine <==> b in addresses && KeysOf(s, b, IsFeedback(tag)) == KeysOf(s, c, false)
  {
    ClaimantsSpec(s, Apart(s, commands), addresses, tag, c);
    forall b ensures
      Owner(s, Apart(s, commands), b, tag) == Some(c) <==> KeysOf(s, b, IsFeedback(tag)) == KeysOf(s, c, false)
    {
      OwnerExactly(s, commands, b, tag, c);
    }
  }

  lemma FitsExactly(s: State, dialect: Dialect, a: Ga, tag: Tag, anchor: string)
    requires KeysOf(s, a, IsFeedback(tag)) == {anchor} && TagEntry(dialect, tag).Some?
    ensures Fits(s, dialect, a, tag) <==> Bind(s, a, tag, TagEntry(dialect, tag).value.types, {anchor}).1
  {
  }

  lemma WonWins(s: State, dialect: Dialect, commands: seq<Ga>, addresses: seq<Ga>, tag: Tag, c: Ga, a: Ga)
    requires c in Apart(s, commands) && NoDup(addresses)
    requires Won(s, dialect, Apart(s, commands), addresses, tag, c) == Some(a)
    ensures Wins(s, dialect, addresses, tag, c, a)
  {
    var mine := Claimants(s, Apart(s, commands), addresses, tag, c);
    MineExactly(s, commands, addresses, tag, c);
    ApartExactly(s, commands, c);
    assert mine == [a];
    assert a in mine;
    FitsExactly(s, dialect, a, tag, Apart(s, commands)[c]);
    forall b | b in addresses ensures KeysOf(s, b, IsFeedback(tag)) == KeysOf(s, c, false) <==> b == a {
      assert b in mine <==> b == a;
    }
  }

  lemma WinsWon(s: State, dialect: Dialect, commands: seq<Ga>, addresses: seq<Ga>, tag: Tag, c: Ga, a: Ga)
    requires c in Apart(s, commands) && NoDup(addresses) && Wins(s, dialect, addresses, tag, c, a)
    ensures Won(s, dialect, Apart(s, commands), addresses, tag, c) == Some(a)
  {
    var mine := Claimants(s, Apart(s, commands), addresses, tag, c);
    MineExactly(s, commands, addresses, tag, c);
    ApartExactly(s, commands, c);
    assert a in mine;
    forall b | b in mine ensures b == a {
      assert b in addresses;
    }
    AllOne(mine, a);
    FitsExactly(s, dialect, a, tag, Apart(s, commands)[c]);
  }

  lemma WonExactly(s: State, dialect: Dialect, commands: seq<Ga>, addresses: seq<Ga>, tag: Tag, c: Ga, a: Ga)
    requires c in Apart(s, commands) && NoDup(addresses)
    ensures Won(s, dialect, Apart(s, commands), addresses, tag, c) == Some(a) <==>
      Wins(s, dialect, addresses, tag, c, a)
  {
    if Wins(s, dialect, addresses, tag, c, a) { WinsWon(s, dialect, commands, addresses, tag, c, a); }
    if Won(s, dialect, Apart(s, commands), addresses, tag, c) == Some(a) {
      WonWins(s, dialect, commands, addresses, tag, c, a);
    }
  }

  lemma SamePlace(list: seq<Ga>, i: nat, j: nat)
    requires NoDup(list) && i < |list| && j < |list| && list[i] == list[j]
    ensures i == j
  {
  }

  lemma AllOne(list: seq<Ga>, a: Ga)
    requires NoDup(list) && a in list && forall b :: b in list ==> b == a
    ensures list == [a]
  {
    assert list[0] in list && list[|list| - 1] in list;
    SamePlace(list, 0, |list| - 1);
  }

  ghost predicate SplitInput(commands: seq<Ga>, roles: map<Tag, seq<Ga>>) {
    NoDup(commands) && Separate(roles, commands) && forall t :: t in roles ==> NoDup(roles[t])
  }

  lemma SplitByWins(
    s: State, dialect: Dialect, commands: seq<Ga>, roles: map<Tag, seq<Ga>>, c: Ga, f: Field)
    requires NoDup(commands) && Separate(roles, commands) && c in Apart(s, commands)
    ensures c in BindMulti(s, dialect, commands, roles).1
    ensures var fields := BindMulti(s, dialect, commands, roles).1[c];
      && (forall t :: TagFills(dialect, TagOrder(dialect), t, f) ==>
            FieldIs(map[], fields, f, Won(s, dialect, Apart(s, commands), Dialected(roles, t), t, c)))
      && ((forall t :: !TagFills(dialect, TagOrder(dialect), t, f)) ==> f !in fields)
  {
    var anchors := Apart(s, commands);
    var begun := BlockAll(s, DoubledOf(AllAnchors(s, commands)));
    TagOrderDistinct(dialect);
    ApartExactly(s, commands, c);
    BindTagsExactly(begun, dialect, anchors, roles, commands, TagOrder(dialect), Unbound(anchors), c, f);
    forall t ensures Won(begun, dialect, anchors, Dialected(roles, t), t, c)
      == Won(s, dialect, anchors, Dialected(roles, t), t, c)
    {
      WonBegun(s, dialect, commands, roles, t, c);
    }
  }

  ghost predicate WinsField(
    s: State, dialect: Dialect, roles: map<Tag, seq<Ga>>, c: Ga, f: Field, a: Ga)
  {
    exists t :: TagFills(dialect, TagOrder(dialect), t, f) && Wins(s, dialect, Dialected(roles, t), t, c, a)
  }

  /** Exactly who gets what: the field of a tag holds the address the command wins for that tag. */
  lemma SplitExactly(
    s: State, dialect: Dialect, commands: seq<Ga>, roles: map<Tag, seq<Ga>>, c: Ga, f: Field, a: Ga)
    requires SplitInput(commands, roles)
    requires c in Apart(s, commands)
    ensures c in BindMulti(s, dialect, commands, roles).1
    ensures Holds(BindMulti(s, dialect, commands, roles).1[c], f, a) <==> WinsField(s, dialect, roles, c, f, a)
  {
    SplitByWins(s, dialect, commands, roles, c, f);
    var fields := BindMulti(s, dialect, commands, roles).1[c];
    if t :| TagFills(dialect, TagOrder(dialect), t, f) {
      var addresses := Dialected(roles, t);
      var won := Won(s, dialect, Apart(s, commands), addresses, t, c);
      NoDupAt(roles, t);
      WonExactly(s, dialect, commands, addresses, t, c, a);
      OneTag(dialect, t, f);
      WonField(s, dialect, roles, t, c, f, a);
      HoldsExactly(fields, f, won, a);
    } else {
      assert f !in fields;
    }
  }

  lemma NoDupAt(roles: map<Tag, seq<Ga>>, t: Tag)
    requires forall u :: u in roles ==> NoDup(roles[u])
    ensures NoDup(Dialected(roles, t))
  {
  }

  lemma WonField(s: State, dialect: Dialect, roles: map<Tag, seq<Ga>>, t: Tag, c: Ga, f: Field, a: Ga)
    requires TagFills(dialect, TagOrder(dialect), t, f)
    requires forall u :: TagFills(dialect, TagOrder(dialect), u, f) ==> u == t
    ensures WinsField(s, dialect, roles, c, f, a) <==> Wins(s, dialect, Dialected(roles, t), t, c, a)
  {
  }

  lemma HoldsExactly(fields: Fields, f: Field, won: Option<Ga>, a: Ga)
    requires FieldIs(map[], fields, f, won)
    ensures Holds(fields, f, a) <==> won == Some(a)
  {
  }

  lemma OneTag(dialect: Dialect, t: Tag, f: Field)
    requires TagFills(dialect, TagOrder(dialect), t, f)
    ensures forall u :: TagFills(dialect, TagOrder(dialect), u, f) ==> u == t
  {
  }

  lemma WonBegun(s: State, dialect: Dialect, commands: seq<Ga>, roles: map<Tag, seq<Ga>>, t: Tag, c: Ga)
    requires Separate(roles, commands) && c in Apart(s, commands)
    ensures Won(BlockAll(s, DoubledOf(AllAnchors(s, commands))), dialect, Apart(s, commands), Dialected(roles, t), t, c)
      == Won(s, dialect, Apart(s, commands), Dialected(roles, t), t, c)
  {
    var doubled := DoubledOf(AllAnchors(s, commands));
    forall x | x in Dialected(roles, t) ensures SameAt(s, BlockAll(s, doubled), x) {
      assert x !in commands;
      BlockElsewhere(s, doubled, x);
    }
    WonStays(s, BlockAll(s, doubled), dialect, Apart(s, commands), Dialected(roles, t), t, c);
  }

  lemma {:induction false} BindClaimsKeys(
    s: State, anchors: map<Ga, string>, claims: map<Ga, seq<Ga>>, commands: seq<Ga>, tag: Tag, entry: Entry,
    bound: Bindings)
    ensures BindClaims(s, anchors, claims, commands, tag, entry, bound).1.Keys == bound.Keys
    decreases |commands|
  {
    if commands != [] {
      var (next, more) := BindOne(s, anchors, claims, commands[0], tag, entry, bound);
      BindClaimsKeys(next, anchors, claims, commands[1..], tag, entry, more);
    }
  }

  lemma {:induction false} BindTagsKeys(
    s: State, dialect: Dialect, anchors: map<Ga, string>, roles: map<Tag, seq<Ga>>, commands: seq<Ga>,
    tags: seq<Tag>, bound: Bindings)
    ensures BindTags(s, dialect, anchors, roles, commands, tags, bound).1.Keys == bound.Keys
    decreases |tags|
  {
    if tags != [] {
      var tag, addresses := tags[0], Dialected(roles, tags[0]);
      if TagEntry(dialect, tag).None? {
        BindTagsKeys(s, dialect, anchors, roles, commands, tags[1..], bound);
      } else {
        var told, claims := Told(s, anchors, addresses, tag), ClaimsFor(s, anchors, addresses, tag);
        BindClaimsKeys(told, anchors, claims, commands, tag, TagEntry(dialect, tag).value, bound);
        var (next, more) := BindClaims(told, anchors, claims, commands, tag, TagEntry(dialect, tag).value, bound);
        BindTagsKeys(next, dialect, anchors, roles, commands, tags[1..], more);
      }
    }
  }

  /** An address is bound to one field of one command at most, and both are on the same single channel. */
  lemma SplitIsInjective(
    s: State, dialect: Dialect, commands: seq<Ga>, roles: map<Tag, seq<Ga>>, c: Ga, f: Field, d: Ga, g: Field, a: Ga)
    requires SplitInput(commands, roles)
    requires c in BindMulti(s, dialect, commands, roles).1 && d in BindMulti(s, dialect, commands, roles).1
    requires Holds(BindMulti(s, dialect, commands, roles).1[c], f, a)
    requires Holds(BindMulti(s, dialect, commands, roles).1[d], g, a)
    ensures c == d && f == g
    ensures |KeysOf(s, c, false)| == 1 && exists feedback :: KeysOf(s, a, feedback) == KeysOf(s, c, false)
  {
    hide BindMulti;
    hide Wins;
    hide TagOrder;
    hide Apart;
    hide KeysOf;
    SplitKeys(s, dialect, commands, roles);
    SplitExactly(s, dialect, commands, roles, c, f, a);
    SplitExactly(s, dialect, commands, roles, d, g, a);
    var t :| TagFills(dialect, TagOrder(dialect), t, f) && Wins(s, dialect, Dialected(roles, t), t, c, a);
    var u :| TagFills(dialect, TagOrder(dialect), u, g) && Wins(s, dialect, Dialected(roles, u), u, d, a);
    WinnersMeet(s, dialect, commands, roles, t, u, c, d, a);
  }

  lemma WinnersMeet(
    s: State, dialect: Dialect, commands: seq<Ga>, roles: map<Tag, seq<Ga>>, t: Tag, u: Tag, c: Ga, d: Ga, a: Ga)
    requires Separate(roles, commands) && c in Apart(s, commands) && d in Apart(s, commands)
    requires Wins(s, dialect, Dialected(roles, t), t, c, a) && Wins(s, dialect, Dialected(roles, u), u, d, a)
    ensures t == u && c == d
    ensures |KeysOf(s, c, false)| == 1 && exists feedback :: KeysOf(s, a, feedback) == KeysOf(s, c, false)
  {
    hide Apart;
    hide KeysOf;
    assert a in Dialected(roles, t) && a in Dialected(roles, u);
    assert t == u;
    assert KeysOf(s, a, IsFeedback(t)) == KeysOf(s, c, false) == KeysOf(s, d, false);
    ApartExactly(s, commands, c);
    ApartExactly(s, commands, d);
  }

  ghost predicate SameElements(a: seq<Ga>, b: seq<Ga>) { forall x :: x in a <==> x in b }

  ghost predicate SameLists(roles: map<Tag, seq<Ga>>, again: map<Tag, seq<Ga>>) {
    roles.Keys == again.Keys && forall t :: t in roles ==> SameElements(roles[t], again[t])
  }

  lemma ApartIgnoresOrder(s: State, commands: seq<Ga>, others: seq<Ga>)
    requires SameElements(commands, others)
    ensures Apart(s, commands).Keys == Apart(s, others).Keys
  {
    forall c ensures c in Apart(s, commands) <==> c in Apart(s, others) {
      ApartExactly(s, commands, c);
      ApartExactly(s, others, c);
    }
  }

  lemma WinsIgnoresOrder(
    s: State, dialect: Dialect, roles: map<Tag, seq<Ga>>, again: map<Tag, seq<Ga>>, c: Ga, f: Field, a: Ga)
    requires SameLists(roles, again)
    ensures WinsField(s, dialect, roles, c, f, a) <==> WinsField(s, dialect, again, c, f, a)
  {
    forall t ensures Wins(s, dialect, Dialected(roles, t), t, c, a) <==> Wins(s, dialect, Dialected(again, t), t, c, a) {
      assert SameElements(Dialected(roles, t), Dialected(again, t));
    }
  }

  lemma FieldsIgnoreOrder(
    s: State, dialect: Dialect, commands: seq<Ga>, roles: map<Tag, seq<Ga>>, others: seq<Ga>,
    again: map<Tag, seq<Ga>>, c: Ga)
    requires SplitInput(commands, roles) && SplitInput(others, again)
    requires SameLists(roles, again) && c in Apart(s, commands) && c in Apart(s, others)
    ensures c in BindMulti(s, dialect, commands, roles).1 && c in BindMulti(s, dialect, others, again).1
    ensures BindMulti(s, dialect, commands, roles).1[c] == BindMulti(s, dialect, others, again).1[c]
  {
    SplitKeys(s, dialect, commands, roles);
    SplitKeys(s, dialect, others, again);
    var one, two := BindMulti(s, dialect, commands, roles).1[c], BindMulti(s, dialect, others, again).1[c];
    forall f, a ensures Holds(one, f, a) <==> Holds(two, f, a) {
      SplitExactly(s, dialect, commands, roles, c, f, a);
      SplitExactly(s, dialect, others, again, c, f, a);
      WinsIgnoresOrder(s, dialect, roles, again, c, f, a);
    }
    SameFields(one, two);
  }

  /** The order of commands, and of the addresses under a tag, does not matter. */
  lemma SplitIgnoresOrder(
    s: State, dialect: Dialect, commands: seq<Ga>, roles: map<Tag, seq<Ga>>,
    others: seq<Ga>, again: map<Tag, seq<Ga>>)
    requires SplitInput(commands, roles) && SplitInput(others, again)
    requires SameElements(commands, others) && SameLists(roles, again)
    ensures BindMulti(s, dialect, commands, roles).1 == BindMulti(s, dialect, others, again).1
  {
    hide BindMulti;
    hide Apart;
    hide SplitInput;
    hide SameLists;
    ApartIgnoresOrder(s, commands, others);
    SplitKeys(s, dialect, commands, roles);
    SplitKeys(s, dialect, others, again);
    forall c | c in Apart(s, commands)
      ensures BindMulti(s, dialect, commands, roles).1[c] == BindMulti(s, dialect, others, again).1[c]
    {
      FieldsIgnoreOrder(s, dialect, commands, roles, others, again, c);
    }
  }

  lemma SplitKeys(s: State, dialect: Dialect, commands: seq<Ga>, roles: map<Tag, seq<Ga>>)
    ensures BindMulti(s, dialect, commands, roles).1.Keys == Apart(s, commands).Keys
  {
    BindTagsKeys(BlockAll(s, DoubledOf(AllAnchors(s, commands))), dialect, Apart(s, commands), roles, commands,
                 TagOrder(dialect), Unbound(Apart(s, commands)));
  }

  lemma SameFields(x: Fields, y: Fields)
    requires forall f, a :: Holds(x, f, a) <==> Holds(y, f, a)
    ensures x == y
  {
    forall f ensures f in x <==> f in y {
      if f in x { assert Holds(x, f, x[f]); }
      if f in y { assert Holds(y, f, y[f]); }
    }
    forall f | f in x ensures x[f] == y[f] { assert Holds(x, f, x[f]); }
  }

  // ---------------------------------------------------- what a pass hands to the split

  lemma {:induction false} TaggedAsSpec(s: State, order: seq<Ga>, dialect: Dialect, key: string, tag: Tag)
    ensures forall a :: a in TaggedAs(s, order, dialect, key, tag) <==>
      a in order && Available(s, a) && TagOf(s.groups[a], dialect).Some?
      && TagOf(s.groups[a], dialect).value.key == key && TagOf(s.groups[a], dialect).value.tag == tag
    ensures NoDup(order) ==> NoDup(TaggedAs(s, order, dialect, key, tag))
  {
    if order != [] {
      var a, rest := order[0], order[1..];
      assert order == [a] + rest;
      TaggedAsSpec(s, rest, dialect, key, tag);
      if NoDup(order) {
        forall i, j | 0 <= i < j < |rest| ensures rest[i] != rest[j] {
          assert rest[i] == order[i + 1] && rest[j] == order[j + 1];
        }
        assert a !in rest;
      }
    }
  }

  /** The lists a pass collects never share an address, so the split applies to them. */
  lemma {:induction false} GatheredListsAreSeparate(s: State, order: seq<Ga>, dialect: Dialect, key: string)
    requires NoDup(order)
    ensures var commands := TaggedAs(s, order, dialect, key, Sw);
      var roles := RolesAt(s, order, dialect, key);
      SplitInput(commands, roles)
  {
    hide TaggedAs;
    hide TagOf;
    var roles := RolesAt(s, order, dialect, key);
    TaggedAsSpec(s, order, dialect, key, Sw);
    forall t | t in roles
      ensures NoDup(roles[t])
      ensures forall a :: a in roles[t] ==>
        Available(s, a) && TagOf(s.groups[a], dialect).Some? && TagOf(s.groups[a], dialect).value.tag == t
    {
      TaggedAsSpec(s, order, dialect, key, t);
    }
  }
}
