/** What an abbreviated name's addresses become, told from their objects, types and tags. */
module KnxChannelLaws {
  import opened Common
  import opened KnxPlannerModel
  import opened KnxPlannerPasses
  import E = KnxEvidence
  import L = KnxEntityLaws
  import X = KnxChannelSplit

  // ----------------------------------------------------------------------- the tables

  /** Which tag fills a field in each dialect. */
  function TagsFor(dialect: Dialect, f: Field): seq<Tag> {
    match (dialect, f)
    case (LightDialect, StateAddress) => [SwFb]
    case (LightDialect, BrightnessAddress) => [Val]
    case (LightDialect, BrightnessStateAddress) => [ValFb]
    case (LightDialect, ColorTemperatureAddress) => [Ct]
    case (LightDialect, ColorTemperatureStateAddress) => [CtFb]
    case (ClimateDialect, OnOffStateAddress) => [SwFb]
    case (ClimateDialect, TargetTemperatureAddress) => [Val]
    case (ClimateDialect, TargetTemperatureStateAddress) => [ValFb]
    case (ClimateDialect, TemperatureAddress) => [RealFb]
    case (ClimateDialect, ControllerModeAddress) => [Mode]
    case (ClimateDialect, ControllerModeStateAddress) => [ModeFb]
    case (ClimateDialect, FanSpeedAddress) => [FanTag]
    case (ClimateDialect, FanSpeedStateAddress) => [FanFb]
    case (_, _) => []
  }

  function TypesOfTag(dialect: Dialect, tag: Tag): seq<(int, int)> {
    match tag
    case SwFb => [(1, 1), (1, 11)]
    case Val | ValFb => if dialect.LightDialect? then [(5, 1)] else [(9, 1)]
    case Ct | CtFb => [(7, 600), (5, 1)]
    case Mode | ModeFb => [(20, 105)]
    case FanTag | FanFb => [(5, 1), (5, 100)]
    case RealFb => [(9, 1)]
    case Sw => [(1, 1)]
  }

  /** Beside the command, the tags of a dialect fill exactly these fields, from these types. */
  lemma TagTableExactly(dialect: Dialect, tag: Tag, f: Field)
    ensures (tag in TagOrder(dialect) && TagEntry(dialect, tag).Some? && TagEntry(dialect, tag).value.field == f) <==>
      tag in TagsFor(dialect, f)
  {
    match dialect
    case LightDialect => LightTable(tag, f);
    case ClimateDialect => ClimateTable(tag, f);
  }

  lemma LightTable(tag: Tag, f: Field)
    ensures (tag in TagOrder(LightDialect) && TagEntry(LightDialect, tag).Some?
             && TagEntry(LightDialect, tag).value.field == f) <==> tag in TagsFor(LightDialect, f)
  {
    match tag { case _ => }
  }

  lemma ClimateTable(tag: Tag, f: Field)
    ensures (tag in TagOrder(ClimateDialect) && TagEntry(ClimateDialect, tag).Some?
             && TagEntry(ClimateDialect, tag).value.field == f) <==> tag in TagsFor(ClimateDialect, f)
  {
    match tag { case _ => }
  }

  lemma TagTypesExactly(dialect: Dialect, tag: Tag, t: Type)
    requires tag in TagOrder(dialect)
    ensures TagEntry(dialect, tag).Some?
    ensures t in TagEntry(dialect, tag).value.types <==> (t.main, t.sub) in TypesOfTag(dialect, tag)
  {
    match dialect
    case LightDialect => match tag { case _ => }
    case ClimateDialect => match tag { case _ => }
  }

  // --------------------------------------------------------------------- one address

  /** Some object on this channel receives the command, or produces the feedback. */
  predicate ProvenOn(g: Group, feedback: bool, key: string) {
    exists o :: o in g.objects && o.channel == Some(key) && if feedback then E.Produces(o) else E.Receives(o)
  }

  /** This is the one channel the address is proven on. */
  ghost predicate OnChannel(s: State, a: Ga, feedback: bool, key: string) {
    a in s.groups && forall k :: ProvenOn(s.groups[a], feedback, k) <==> k == key
  }

  predicate IsCommandTag(tag: Tag) { tag == Sw || tag == Val || tag == Ct || tag == Mode || tag == FanTag }

  /** Only one-bit switch and state encodings are declared, switch or state among them. */
  ghost predicate MixedBits(g: Group) {
    && (forall d :: E.Declares(g, Some(d)) ==> d in [Dpt(1, Some(1)), Dpt(1, Some(2)), Dpt(1, Some(11))])
    && (E.Declares(g, Some(Dpt(1, Some(1)))) || E.Declares(g, Some(Dpt(1, Some(11)))))
  }

  /** A feedback bit whose encodings conflict only among themselves. */
  ghost predicate Reconciled(s: State, a: Ga, tag: Tag) {
    tag == SwFb && a in s.groups && a in s.issues && s.issues[a] == ConflictingType && MixedBits(s.groups[a])
  }

  ghost predicate Suits(s: State, dialect: Dialect, a: Ga, tag: Tag) {
    || Reconciled(s, a, tag)
    || (a !in s.blocked && a in s.dpts && (s.dpts[a].main, s.dpts[a].sub) in TypesOfTag(dialect, tag))
  }

  /** What the planner holds of one address: its type, whether it is blocked, and the reason recorded. */
  datatype Mark = Mark(dpt: Option<Type>, blocked: bool, issue: Option<Issue>)

  function At(s: State, a: Ga): Mark {
    Mark(if a in s.dpts then Some(s.dpts[a]) else None, a in s.blocked, if a in s.issues then Some(s.issues[a]) else None)
  }

  /** A reason, unless there is one. */
  function Noted(m: Mark, issue: Issue): Mark { if m.issue.Some? then m else m.(issue := Some(issue)) }

  /** Only the marks differ. */
  ghost predicate OnlyMarks(s: State, t: State) { t == s.(dpts := t.dpts, blocked := t.blocked, issues := t.issues) }

  /** What becomes of an address that is tried for a tag on a channel. */
  ghost function Tried(s: State, dialect: Dialect, a: Ga, tag: Tag, key: string): Mark {
    if !OnChannel(s, a, !IsCommandTag(tag), key) then Noted(At(s, a), UnprovenChannel)
    else if Reconciled(s, a, tag) then Mark(Some(Type(1, 11)), false, None)
    else if Suits(s, dialect, a, tag) then At(s, a)
    else Noted(At(s, a), TypeMismatch)
  }

  lemma ChannelIs(s: State, a: Ga, feedback: bool, key: string)
    ensures KeysOf(s, a, feedback) == {key} <==> OnChannel(s, a, feedback, key)
  {
    if a in s.groups {
      var keys := ActuatorKeys(s.groups[a], feedback);
      forall k ensures k in keys <==> ProvenOn(s.groups[a], feedback, k) { E.KeysAreProven(s.groups[a], feedback, k); }
      hide ActuatorKeys;
      hide ProvenOn;
      if OnChannel(s, a, feedback, key) { assert keys == {key}; }
      if keys == {key} {
        forall k ensures k in keys <==> k == key { }
      }
    }
  }

  lemma MixIs(g: Group)
    ensures IsFeedbackMix(g) <==> MixedBits(g)
  {
    forall d: Option<Dpt> ensures d in Choices(g) <==> E.Declares(g, d) { E.ChoicesAre(g, d); }
    hide Choices;
    hide E.Declares;
    var choices := set d | d in Choices(g) && d.Some? :: d.value;
    forall d ensures d in choices <==> E.Declares(g, Some(d)) { assert Some(d) in Choices(g) <==> E.Declares(g, Some(d)); }
  }

  lemma RelaxIs(s: State, a: Ga, tag: Tag)
    ensures Relaxes(s, a, tag) <==> Reconciled(s, a, tag)
  {
    if a in s.groups { MixIs(s.groups[a]); }
    hide IsFeedbackMix;
    hide MixedBits;
  }

  lemma TagSays(tag: Tag)
    ensures IsFeedback(tag) == !IsCommandTag(tag)
  {
  }

  lemma SuitsTyped(s: State, dialect: Dialect, a: Ga, tag: Tag)
    requires tag in TagOrder(dialect)
    ensures TagEntry(dialect, tag).Some?
    ensures var types := TagEntry(dialect, tag).value.types;
      && (tag.SwFb? ==> STATE_BIT in types)
      && (Suits(s, dialect, a, tag) <==> Reconciled(s, a, tag) || (a !in s.blocked && HasType(s, a, types)))
  {
    TagTypesExactly(dialect, tag, STATE_BIT);
    if a in s.dpts { TagTypesExactly(dialect, tag, s.dpts[a]); }
    hide TagEntry;
    hide TagOrder;
    hide Reconciled;
  }

  lemma RelaxedIs(s: State, a: Ga, tag: Tag)
    ensures var t := Relax(s, a, tag);
      && OnlyMarks(s, t) && (forall x :: x != a ==> At(t, x) == At(s, x))
      && At(t, a) == if Reconciled(s, a, tag) then Mark(Some(STATE_BIT), false, None) else At(s, a)
  {
    RelaxIs(s, a, tag);
    hide Reconciled;
    hide Relaxes;
  }

  /** Trying one address: it is bound exactly when it is on the channel and suits the tag. */
  lemma BindExactly(s: State, dialect: Dialect, a: Ga, tag: Tag, key: string)
    requires tag in TagOrder(dialect)
    ensures TagEntry(dialect, tag).Some?
    ensures var (t, ok) := Bind(s, a, tag, TagEntry(dialect, tag).value.types, {key});
      && (ok <==> OnChannel(s, a, !IsCommandTag(tag), key) && Suits(s, dialect, a, tag))
      && OnlyMarks(s, t) && At(t, a) == Tried(s, dialect, a, tag, key)
      && forall x :: x != a ==> At(t, x) == At(s, x)
  {
    TagSays(tag);
    ChannelIs(s, a, IsFeedback(tag), key);
    SuitsTyped(s, dialect, a, tag);
    RelaxedIs(s, a, tag);
    assert Reconciled(s, a, tag) ==> tag.SwFb?;
    hide KeysOf;
    hide OnChannel;
    hide IsFeedback;
    hide TagEntry;
    hide TagOrder;
    hide Reconciled;
    hide Relax;
    hide Suits;
    hide SetDefault;
    NotedOne(s, a, UnprovenChannel);
    NotedOne(Relax(s, a, tag), a, TypeMismatch);
  }

  lemma NotedOne(s: State, a: Ga, issue: Issue)
    ensures var t := s.(issues := SetDefault(s.issues, a, issue));
      OnlyMarks(s, t) && At(t, a) == Noted(At(s, a), issue) && forall x :: x != a ==> At(t, x) == At(s, x)
  {
  }

  // --------------------------------------------------------------------- one command

  ghost predicate NoneTwice(roles: map<Tag, seq<Ga>>) {
    forall t, u, x :: x in Dialected(roles, t) && x in Dialected(roles, u) ==> t == u
  }

  function FieldOfTag(dialect: Dialect, tag: Tag): Field
    requires TagEntry(dialect, tag).Some?
  {
    TagEntry(dialect, tag).value.field
  }

  /** The only address with the tag, on the channel and of a type that suits. */
  ghost predicate Bound(s: State, dialect: Dialect, roles: map<Tag, seq<Ga>>, tag: Tag, key: string, a: Ga) {
    Dialected(roles, tag) == [a] && OnChannel(s, a, !IsCommandTag(tag), key) && Suits(s, dialect, a, tag)
  }

  /** What becomes of one of the addresses with this tag. */
  ghost function SingleMark(s: State, dialect: Dialect, roles: map<Tag, seq<Ga>>, tag: Tag, key: string, x: Ga): Mark {
    if |Dialected(roles, tag)| > 1 then Mark(At(s, x).dpt, true, Some(AmbiguousRole)) else Tried(s, dialect, x, tag, key)
  }

  lemma SameTried(s: State, t: State, dialect: Dialect, x: Ga, tag: Tag, key: string)
    requires OnlyMarks(s, t) && At(t, x) == At(s, x)
    ensures Tried(t, dialect, x, tag, key) == Tried(s, dialect, x, tag, key)
    ensures Suits(t, dialect, x, tag) == Suits(s, dialect, x, tag)
    ensures OnChannel(t, x, !IsCommandTag(tag), key) == OnChannel(s, x, !IsCommandTag(tag), key)
  {
  }

  /** The turn of one tag. */
  function SingleTurn(s: State, dialect: Dialect, roles: map<Tag, seq<Ga>>, tag: Tag, key: string, fields: Fields)
    : (State, Fields)
    requires TagEntry(dialect, tag).Some?
  {
    var addresses := Dialected(roles, tag);
    if addresses == [] then (s, fields)
    else if |addresses| != 1 then (BlockAll(s, Elements(addresses)), fields)
    else
      var (next, ok) := Bind(s, addresses[0], tag, TagEntry(dialect, tag).value.types, {key});
      (next, if ok then fields[FieldOfTag(dialect, tag) := addresses[0]] else fields)
  }

  lemma {:induction false} SingleGoes(
    s: State, dialect: Dialect, roles: map<Tag, seq<Ga>>, tags: seq<Tag>, key: string, fields: Fields)
    requires tags != [] && TagEntry(dialect, tags[0]).Some?
    ensures var (next, more) := SingleTurn(s, dialect, roles, tags[0], key, fields);
      BindSingle(s, dialect, roles, tags, {key}, fields) == BindSingle(next, dialect, roles, tags[1..], {key}, more)
  {
    hide Bind;
    hide BlockAll;
  }

  lemma SingleTurnIs(s: State, dialect: Dialect, roles: map<Tag, seq<Ga>>, tag: Tag, key: string, fields: Fields)
    requires tag in TagOrder(dialect) && TagEntry(dialect, tag).Some?
    ensures var (t, r) := SingleTurn(s, dialect, roles, tag, key, fields);
      && OnlyMarks(s, t)
      && (forall x :: x in Dialected(roles, tag) ==> At(t, x) == SingleMark(s, dialect, roles, tag, key, x))
      && (forall x :: x !in Dialected(roles, tag) ==> At(t, x) == At(s, x))
      && r == (if exists a :: Bound(s, dialect, roles, tag, key, a)
               then fields[FieldOfTag(dialect, tag) := Dialected(roles, tag)[0]] else fields)
  {
    var addresses := Dialected(roles, tag);
    if |addresses| == 1 {
      BindExactly(s, dialect, addresses[0], tag, key);
      assert addresses == [addresses[0]];
      assert Bound(s, dialect, roles, tag, key, addresses[0]) <==>
        OnChannel(s, addresses[0], !IsCommandTag(tag), key) && Suits(s, dialect, addresses[0], tag);
    }
    hide Bind;
    hide Tried;
    hide OnChannel;
    hide Suits;
    hide TagOrder;
    hide TagEntry;
  }

  lemma BoundIs(s: State, dialect: Dialect, roles: map<Tag, seq<Ga>>, tag: Tag, key: string, a: Ga)
    requires Bound(s, dialect, roles, tag, key, a)
    ensures Dialected(roles, tag) == [a]
  {
  }

  /** The one address bound for a tag, if one is. */
  lemma OneBound(s: State, dialect: Dialect, roles: map<Tag, seq<Ga>>, tag: Tag, key: string) returns (won: Option<Ga>)
    ensures forall a :: Bound(s, dialect, roles, tag, key, a) <==> won == Some(a)
    ensures won.Some? ==> Dialected(roles, tag) == [won.value]
  {
    won := None;
    if x :| Bound(s, dialect, roles, tag, key, x) {
      won := Some(x);
      forall a | Bound(s, dialect, roles, tag, key, a) ensures a == x {
        BoundIs(s, dialect, roles, tag, key, a);
        BoundIs(s, dialect, roles, tag, key, x);
        assert [a][0] == [x][0];
      }
      BoundIs(s, dialect, roles, tag, key, x);
    }
  }

  /** A field comes from the first tag or from a later one. */
  lemma FieldComes(
    s: State, next: State, dialect: Dialect, roles: map<Tag, seq<Ga>>, tag: Tag, rest: seq<Tag>, key: string,
    fields: Fields, won: Option<Ga>, final: Fields, f: Field, a: Ga)
    requires f !in fields && TagEntry(dialect, tag).Some? && forall u :: u in rest ==> TagEntry(dialect, u).Some?
    requires forall u :: u in rest ==> FieldOfTag(dialect, u) != FieldOfTag(dialect, tag)
    requires forall u :: u in rest ==> (Bound(next, dialect, roles, u, key, a) <==> Bound(s, dialect, roles, u, key, a))
    requires Bound(s, dialect, roles, tag, key, a) <==> won == Some(a)
    requires won.Some? ==> X.Holds(final, FieldOfTag(dialect, tag), won.value)
    requires !(won.Some? && f == FieldOfTag(dialect, tag)) ==>
      (X.Holds(final, f, a) <==>
       exists u :: u in rest && FieldOfTag(dialect, u) == f && Bound(next, dialect, roles, u, key, a))
    ensures X.Holds(final, f, a) <==>
      (FieldOfTag(dialect, tag) == f && Bound(s, dialect, roles, tag, key, a))
      || exists u :: u in rest && FieldOfTag(dialect, u) == f && Bound(s, dialect, roles, u, key, a)
  {
    hide TagEntry;
    hide Bound;
    hide FieldOfTag;
  }

  lemma {:induction false} SingleExactly(
    s: State, dialect: Dialect, roles: map<Tag, seq<Ga>>, tags: seq<Tag>, key: string, fields: Fields)
    requires X.DistinctTags(dialect, tags) && NoneTwice(roles)
    requires forall tag :: tag in tags ==> tag in TagOrder(dialect)
    requires forall tag :: tag in tags ==> TagEntry(dialect, tag).Some? && FieldOfTag(dialect, tag) !in fields
    ensures var (t, r) := BindSingle(s, dialect, roles, tags, {key}, fields);
      && OnlyMarks(s, t)
      && (forall tag, x :: tag in tags && x in Dialected(roles, tag) ==>
            At(t, x) == SingleMark(s, dialect, roles, tag, key, x))
      && (forall x :: (forall tag :: tag in tags ==> x !in Dialected(roles, tag)) ==> At(t, x) == At(s, x))
      && (forall f :: f in fields ==> f in r && r[f] == fields[f])
      && (forall f, a :: f !in fields ==>
            (X.Holds(r, f, a) <==>
             exists tag :: tag in tags && FieldOfTag(dialect, tag) == f && Bound(s, dialect, roles, tag, key, a)))
    decreases |tags|
  {
    hide Tried;
    hide OnChannel;
    hide Suits;
    hide TagOrder;
    hide TagEntry;
    hide SingleTurn;
    if tags != [] {
      var tag, rest := tags[0], tags[1..];
      X.DistinctTagsTail(dialect, tags);
      assert forall u :: u in tags <==> u == tag || u in rest;
      var (next, more) := SingleTurn(s, dialect, roles, tag, key, fields);
      SingleGoes(s, dialect, roles, tags, key, fields);
      SingleTurnIs(s, dialect, roles, tag, key, fields);
      SingleExactly(next, dialect, roles, rest, key, more);
      forall u, x | u in rest && x in Dialected(roles, u)
        ensures SingleMark(next, dialect, roles, u, key, x) == SingleMark(s, dialect, roles, u, key, x)
        ensures Bound(next, dialect, roles, u, key, x) <==> Bound(s, dialect, roles, u, key, x)
      {
        assert x !in Dialected(roles, tag);
        SameTried(s, next, dialect, x, u, key);
      }
      forall u, x | u in rest && x !in Dialected(roles, u)
        ensures !Bound(next, dialect, roles, u, key, x) && !Bound(s, dialect, roles, u, key, x)
      {
        assert x in [x];
      }
      var won := OneBound(s, dialect, roles, tag, key);
      hide Bound;
      var final := BindSingle(s, dialect, roles, tags, {key}, fields).1;
      assert more == if won.Some? then fields[FieldOfTag(dialect, tag) := won.value] else fields;
      forall f, a | f !in fields
        ensures X.Holds(final, f, a) <==>
          exists u :: u in tags && FieldOfTag(dialect, u) == f && Bound(s, dialect, roles, u, key, a)
      {
        FieldComes(s, next, dialect, roles, tag, rest, key, fields, won, final, f, a);
      }
    }
  }

  /** A free switch bit with one channel of its own. */
  ghost predicate Commands(s: State, c: Ga, key: string) {
    c !in s.blocked && c in s.dpts && s.dpts[c] == Type(1, 1) && OnChannel(s, c, false, key)
  }

  lemma OneKey(keys: set<string>) returns (key: Option<string>)
    ensures |keys| == 1 <==> key.Some?
    ensures key.Some? ==> keys == {key.value}
    ensures key.None? ==> forall k :: keys != {k}
  {
    key := None;
    if |keys| == 1 {
      var k :| k in keys;
      assert |keys - {k}| == 0;
      forall x | x in keys ensures x == k { assert x in keys - {k} || x == k; }
      key := Some(k);
    }
    forall k | keys == {k} ensures |keys| == 1 { }
  }

  lemma AnchorsIs(s: State, c: Ga)
    ensures Anchors(s, c) <==> exists key :: Commands(s, c, key)
    ensures forall key :: Commands(s, c, key) ==> KeysOf(s, c, false) == {key}
  {
    var key := OneKey(KeysOf(s, c, false));
    forall k ensures KeysOf(s, c, false) == {k} <==> OnChannel(s, c, false, k) { ChannelIs(s, c, false, k); }
    hide KeysOf;
    hide OnChannel;
    if key.Some? && c !in s.blocked && HasType(s, c, {BIT}) { assert Commands(s, c, key.value); }
  }

  /** What is made of a command and its fields. */
  ghost predicate Finished(s: State, t: State, dialect: Dialect, prefix: Prefix, c: Ga, fields: Fields) {
    match dialect
    case LightDialect => L.OutputBecomes(s, t, prefix.name, prefix.light, fields[Address := c])
    case ClimateDialect => L.UnitBecomes(s, t, prefix.name, fields[OnOffAddress := c])
  }

  lemma FinishIs(s: State, dialect: Dialect, prefix: Prefix, c: Ga, fields: Fields)
    ensures Finished(s, Finish(s, dialect, prefix, c, fields), dialect, prefix, c, fields)
  {
    hide L.OutputBecomes;
    hide L.UnitBecomes;
    match dialect
    case LightDialect => L.OutputBecomesExactly(s, prefix.name, prefix.light, fields[Address := c]);
    case ClimateDialect => L.UnitBecomesExactly(s, prefix.name, fields[OnOffAddress := c]);
  }

  /** The marks after the only command under a name has been tried with every tag. */
  ghost predicate MarksAfterOne(s: State, t: State, dialect: Dialect, roles: map<Tag, seq<Ga>>, key: string) {
    && OnlyMarks(s, t)
    && (forall tag, x :: tag in TagOrder(dialect) && x in Dialected(roles, tag) ==>
          At(t, x) == SingleMark(s, dialect, roles, tag, key, x))
    && (forall x :: (forall tag :: tag in TagOrder(dialect) ==> x !in Dialected(roles, tag)) ==> At(t, x) == At(s, x))
  }

  ghost predicate FieldsOfOne(s: State, fields: Fields, dialect: Dialect, roles: map<Tag, seq<Ga>>, key: string) {
    forall f, a :: X.Holds(fields, f, a) <==>
      exists tag :: tag in TagsFor(dialect, f) && Bound(s, dialect, roles, tag, key, a)
  }

  /**
    The only command under a name: when it is a free switch bit on one channel, it is finished with every address that
    alone has its tag, is on that channel, and suits; otherwise nothing happens here.
   */
  lemma OneCommandGoes(s: State, dialect: Dialect, prefix: Prefix, c: Ga, roles: map<Tag, seq<Ga>>)
    requires NoneTwice(roles)
    ensures var t := ChannelStep(s, dialect, prefix, [c], roles);
      && (forall key :: Commands(s, c, key) ==>
            exists marked, fields ::
              && MarksAfterOne(s, marked, dialect, roles, key) && FieldsOfOne(s, fields, dialect, roles, key)
              && Finished(marked, t, dialect, prefix, c, fields))
      && ((forall key :: !Commands(s, c, key)) ==> t == s)
  {
    hide Commands;
    hide Anchors;
    hide MarksAfterOne;
    hide FieldsOfOne;
    hide Finished;
    hide Finish;
    hide BindSingle;
    AnchorsIs(s, c);
    forall key | Commands(s, c, key)
      ensures exists marked, fields ::
        && MarksAfterOne(s, marked, dialect, roles, key) && FieldsOfOne(s, fields, dialect, roles, key)
        && Finished(marked, ChannelStep(s, dialect, prefix, [c], roles), dialect, prefix, c, fields)
    {
      assert KeysOf(s, c, false) == {key};
      var (marked, fields) := BindSingle(s, dialect, roles, TagOrder(dialect), {key}, map[]);
      OneCommandBinds(s, dialect, roles, key);
      FinishIs(marked, dialect, prefix, c, fields);
    }
  }

  lemma {:induction false} OneCommandBinds(s: State, dialect: Dialect, roles: map<Tag, seq<Ga>>, key: string)
    requires NoneTwice(roles)
    ensures var (marked, fields) := BindSingle(s, dialect, roles, TagOrder(dialect), {key}, map[]);
      MarksAfterOne(s, marked, dialect, roles, key) && FieldsOfOne(s, fields, dialect, roles, key)
  {
    hide TagsFor;
    hide TagOrder;
    hide TagEntry;
    hide Bound;
    hide BindSingle;
    hide NoneTwice;
    hide SingleMark;
    var order := TagOrder(dialect);
    X.TagOrderDistinct(dialect);
    forall tag | tag in order ensures TagEntry(dialect, tag).Some? { TagTypesExactly(dialect, tag, BIT); }
    SingleExactly(s, dialect, roles, order, key, map[]);
    forall tag, f
      ensures tag in TagsFor(dialect, f) <==> tag in order && TagEntry(dialect, tag).Some? && FieldOfTag(dialect, tag) == f
    {
      TagTableExactly(dialect, tag, f);
    }
  }

  // -------------------------------------------------------------------- more commands

  /** One of several commands under a name: its channel is no other's. */
  ghost predicate Apart(s: State, commands: seq<Ga>, c: Ga, key: string) {
    c in commands && Commands(s, c, key) && forall d :: d in commands && d != c ==> !Commands(s, d, key)
  }

  /** The command gets this address for the tag: it alone is on the command's channel, and it suits. */
  ghost predicate Won(s: State, dialect: Dialect, roles: map<Tag, seq<Ga>>, tag: Tag, key: string, a: Ga) {
    && a in Dialected(roles, tag) && Suits(s, dialect, a, tag)
    && forall b :: b in Dialected(roles, tag) ==> (OnChannel(s, b, !IsCommandTag(tag), key) <==> b == a)
  }

  ghost predicate FieldsWon(s: State, fields: Fields, dialect: Dialect, roles: map<Tag, seq<Ga>>, key: string) {
    forall f, a :: X.Holds(fields, f, a) <==>
      exists tag :: tag in TagsFor(dialect, f) && Won(s, dialect, roles, tag, key, a)
  }

  lemma ApartIs(s: State, commands: seq<Ga>, c: Ga)
    ensures c in X.Apart(s, commands) <==> exists key :: Apart(s, commands, c, key)
    ensures forall key :: Apart(s, commands, c, key) ==> KeysOf(s, c, false) == {key}
  {
    X.ApartExactly(s, commands, c);
    forall d ensures Anchors(s, d) <==> exists key :: Commands(s, d, key) { AnchorsIs(s, d); }
    forall d, key | Commands(s, d, key) ensures KeysOf(s, d, false) == {key} { AnchorsIs(s, d); }
    hide X.Apart;
    hide Anchors;
    hide KeysOf;
    hide Commands;
    if c in X.Apart(s, commands) {
      var key :| Commands(s, c, key);
      assert Apart(s, commands, c, key);
    }
    if key :| Apart(s, commands, c, key) {
      forall d | d in commands && d != c && Anchors(s, d) ensures KeysOf(s, d, false) != KeysOf(s, c, false) {
        var other :| Commands(s, d, other);
        if other != key { assert other in KeysOf(s, d, false) && other !in {key}; }
      }
    }
  }

  lemma SuitsIs(s: State, dialect: Dialect, a: Ga, tag: Tag)
    requires tag in TagOrder(dialect)
    ensures X.Fits(s, dialect, a, tag) <==> Suits(s, dialect, a, tag)
  {
    RelaxIs(s, a, tag);
    TagTypesExactly(dialect, tag, STATE_BIT);
    if a in s.dpts { TagTypesExactly(dialect, tag, s.dpts[a]); }
    hide TagEntry;
    hide TagOrder;
    hide Reconciled;
    hide Relaxes;
  }

  lemma WonIs(s: State, dialect: Dialect, roles: map<Tag, seq<Ga>>, tag: Tag, c: Ga, key: string, a: Ga)
    requires tag in TagOrder(dialect) && KeysOf(s, c, false) == {key}
    ensures X.Wins(s, dialect, Dialected(roles, tag), tag, c, a) <==> Won(s, dialect, roles, tag, key, a)
  {
    TagSays(tag);
    SuitsIs(s, dialect, a, tag);
    forall b ensures KeysOf(s, b, IsFeedback(tag)) == {key} <==> OnChannel(s, b, !IsCommandTag(tag), key) {
      ChannelIs(s, b, IsFeedback(tag), key);
    }
    hide X.Fits;
    hide Suits;
    hide OnChannel;
    hide KeysOf;
    hide IsFeedback;
  }

  lemma SplitFields(s: State, dialect: Dialect, commands: seq<Ga>, roles: map<Tag, seq<Ga>>, c: Ga, key: string)
    requires X.SplitInput(commands, roles) && Apart(s, commands, c, key)
    ensures var bound := BindMulti(s, dialect, commands, roles).1;
      c in bound && FieldsWon(s, bound[c], dialect, roles, key)
  {
    hide Apart;
    hide BindMulti;
    hide X.SplitInput;
    hide X.Apart;
    ApartIs(s, commands, c);
    X.SplitExactly(s, dialect, commands, roles, c, Address, c);
    forall f, a
      ensures X.Holds(BindMulti(s, dialect, commands, roles).1[c], f, a) <==>
        exists tag :: tag in TagsFor(dialect, f) && Won(s, dialect, roles, tag, key, a)
    {
      X.SplitExactly(s, dialect, commands, roles, c, f, a);
      forall tag
        ensures X.TagFills(dialect, TagOrder(dialect), tag, f) <==> tag in TagsFor(dialect, f)
        ensures tag in TagsFor(dialect, f) ==>
          (X.Wins(s, dialect, Dialected(roles, tag), tag, c, a) <==> Won(s, dialect, roles, tag, key, a))
      {
        TagTableExactly(dialect, tag, f);
        if tag in TagsFor(dialect, f) { WonIs(s, dialect, roles, tag, c, key, a); }
      }
      hide Won;
      hide X.Wins;
      hide TagsFor;
      hide X.TagFills;
    }
  }

  /** The commands are finished one after the other. */
  ghost predicate FinishedAll(
    s: State, marked: State, t: State, dialect: Dialect, prefix: Prefix, commands: seq<Ga>, roles: map<Tag, seq<Ga>>)
  {
    exists course: seq<State> ::
      && |course| == |commands| + 1 && course[0] == marked && course[|commands|] == t
      && forall i :: 0 <= i < |commands| ==>
           FinishedOne(s, course[i], course[i + 1], dialect, prefix, commands, roles, commands[i])
  }

  /** A command on a channel of its own is finished with the fields it won; any other is passed over. */
  ghost predicate FinishedOne(
    s: State, before: State, after: State, dialect: Dialect, prefix: Prefix, commands: seq<Ga>, roles: map<Tag, seq<Ga>>,
    c: Ga)
  {
    && (forall key :: Apart(s, commands, c, key) ==>
          exists fields :: FieldsWon(s, fields, dialect, roles, key) && Finished(before, after, dialect, prefix, c, fields))
    && ((forall key :: !Apart(s, commands, c, key)) ==> after == before)
  }

  lemma FinishTurn(
    s: State, before: State, dialect: Dialect, prefix: Prefix, commands: seq<Ga>, roles: map<Tag, seq<Ga>>, c: Ga,
    bound: Bindings)
    requires X.SplitInput(commands, roles) && bound == BindMulti(s, dialect, commands, roles).1
    ensures var after := if c in bound then Finish(before, dialect, prefix, c, bound[c]) else before;
      FinishedOne(s, before, after, dialect, prefix, commands, roles, c)
  {
    hide Apart;
    hide BindMulti;
    hide X.SplitInput;
    hide X.Apart;
    hide Finish;
    hide Finished;
    hide FieldsWon;
    ApartIs(s, commands, c);
    X.SplitKeys(s, dialect, commands, roles);
    forall key | Apart(s, commands, c, key) ensures c in bound && FieldsWon(s, bound[c], dialect, roles, key) {
      SplitFields(s, dialect, commands, roles, c, key);
    }
    if c in bound { FinishIs(before, dialect, prefix, c, bound[c]); }
  }

  lemma {:induction false} FinishCourse(
    s: State, from: State, dialect: Dialect, prefix: Prefix, commands: seq<Ga>, rest: seq<Ga>, roles: map<Tag, seq<Ga>>,
    bound: Bindings) returns (course: seq<State>)
    requires X.SplitInput(commands, roles) && bound == BindMulti(s, dialect, commands, roles).1
    ensures |course| == |rest| + 1 && course[0] == from
    ensures course[|rest|] == FinishAll(from, dialect, prefix, rest, bound)
    ensures forall i :: 0 <= i < |rest| ==>
      FinishedOne(s, course[i], course[i + 1], dialect, prefix, commands, roles, rest[i])
    decreases |rest|
  {
    hide BindMulti;
    hide FinishedOne;
    hide Finish;
    hide X.SplitInput;
    if rest == [] {
      course := [from];
    } else {
      var c := rest[0];
      var next := if c in bound then Finish(from, dialect, prefix, c, bound[c]) else from;
      FinishTurn(s, from, dialect, prefix, commands, roles, c, bound);
      var more := FinishCourse(s, next, dialect, prefix, commands, rest[1..], roles, bound);
      course := [from] + more;
      forall i | 0 <= i < |rest|
        ensures FinishedOne(s, course[i], course[i + 1], dialect, prefix, commands, roles, rest[i])
      {
        if i > 0 { assert course[i] == more[i - 1] && course[i + 1] == more[i] && rest[i] == rest[1..][i - 1]; }
      }
    }
  }

  // ------------------------------------------------- what the split leaves recorded

  /** What becomes of the addresses one command claims for a tag. */
  ghost function ClaimMark(s: State, dialect: Dialect, tag: Tag, claimed: seq<Ga>, key: string, x: Ga): Mark {
    if |claimed| > 1 then Noted(At(s, x), AmbiguousRole) else Tried(s, dialect, x, tag, key)
  }

  lemma ClaimTurn(
    s: State, dialect: Dialect, anchors: map<Ga, string>, claims: map<Ga, seq<Ga>>, c: Ga, tag: Tag, bound: Bindings)
    requires tag in TagOrder(dialect) && TagEntry(dialect, tag).Some? && claims.Keys == anchors.Keys
    ensures var t := X.BindOne(s, anchors, claims, c, tag, TagEntry(dialect, tag).value, bound).0;
      && OnlyMarks(s, t)
      && (c in claims ==> forall x :: x in claims[c] ==> At(t, x) == ClaimMark(s, dialect, tag, claims[c], anchors[c], x))
      && (forall x :: !(c in claims && x in claims[c]) ==> At(t, x) == At(s, x))
  {
    hide TagOrder;
    hide TagEntry;
    hide Tried;
    if c in claims && claims[c] != [] {
      if |claims[c]| == 1 {
        OneClaimed(s, dialect, anchors, claims, c, claims[c][0], tag, bound);
      } else {
        ManyClaimed(s, anchors, claims, c, tag, TagEntry(dialect, tag).value, bound);
      }
      hide X.BindOne;
    }
  }

  lemma ManyClaimed(
    s: State, anchors: map<Ga, string>, claims: map<Ga, seq<Ga>>, c: Ga, tag: Tag, entry: Entry, bound: Bindings)
    requires c in claims && c in anchors && |claims[c]| > 1
    ensures var t := X.BindOne(s, anchors, claims, c, tag, entry, bound).0;
      && OnlyMarks(s, t)
      && (forall x :: x in claims[c] ==> At(t, x) == Noted(At(s, x), AmbiguousRole))
      && (forall x :: x !in claims[c] ==> At(t, x) == At(s, x))
  {
    hide Bind;
    NotedAre(s, Elements(claims[c]), AmbiguousRole);
  }

  lemma NotedAre(s: State, addresses: set<Ga>, issue: Issue)
    ensures var t := s.(issues := SetDefaults(s.issues, addresses, issue));
      && OnlyMarks(s, t)
      && (forall x :: x in addresses ==> At(t, x) == Noted(At(s, x), issue))
      && (forall x :: x !in addresses ==> At(t, x) == At(s, x))
  {
  }

  lemma OneClaimed(
    s: State, dialect: Dialect, anchors: map<Ga, string>, claims: map<Ga, seq<Ga>>, c: Ga, a: Ga, tag: Tag, bound: Bindings)
    requires tag in TagOrder(dialect) && TagEntry(dialect, tag).Some? && c in claims && c in anchors && claims[c] == [a]
    ensures var t := X.BindOne(s, anchors, claims, c, tag, TagEntry(dialect, tag).value, bound).0;
      && OnlyMarks(s, t) && At(t, a) == Tried(s, dialect, a, tag, anchors[c]) && forall x :: x != a ==> At(t, x) == At(s, x)
  {
    BindExactly(s, dialect, a, tag, anchors[c]);
    hide Bind;
    hide Tried;
    hide TagOrder;
    hide TagEntry;
  }

  /** No address is claimed by two commands. */
  ghost predicate ClaimedOnce(claims: map<Ga, seq<Ga>>) {
    forall c, d, x :: c in claims && d in claims && x in claims[c] && x in claims[d] ==> c == d
  }

  lemma {:induction false} ClaimsMark(
    s: State, dialect: Dialect, anchors: map<Ga, string>, claims: map<Ga, seq<Ga>>, commands: seq<Ga>, tag: Tag,
    bound: Bindings)
    requires tag in TagOrder(dialect) && TagEntry(dialect, tag).Some? && claims.Keys == anchors.Keys
    requires X.NoDup(commands) && ClaimedOnce(claims)
    ensures var t := BindClaims(s, anchors, claims, commands, tag, TagEntry(dialect, tag).value, bound).0;
      && OnlyMarks(s, t)
      && (forall c, x :: c in commands && c in claims && x in claims[c] ==>
            At(t, x) == ClaimMark(s, dialect, tag, claims[c], anchors[c], x))
      && (forall x :: (forall c :: c in commands && c in claims ==> x !in claims[c]) ==> At(t, x) == At(s, x))
    decreases |commands|
  {
    hide TagOrder;
    hide TagEntry;
    hide X.BindOne;
    hide Tried;
    if commands != [] {
      var d, rest := commands[0], commands[1..];
      X.NoDupTail(commands);
      var (next, more) := X.BindOne(s, anchors, claims, d, tag, TagEntry(dialect, tag).value, bound);
      X.BindStep(s, anchors, claims, commands, tag, TagEntry(dialect, tag).value, bound);
      ClaimTurn(s, dialect, anchors, claims, d, tag, bound);
      ClaimsMark(next, dialect, anchors, claims, rest, tag, more);
      forall c, x | c in rest && c in claims && x in claims[c]
        ensures At(next, x) == At(s, x)
        ensures ClaimMark(next, dialect, tag, claims[c], anchors[c], x) == ClaimMark(s, dialect, tag, claims[c], anchors[c], x)
      {
        assert !(d in claims && x in claims[d]);
        SameTried(s, next, dialect, x, tag, anchors[c]);
      }
    }
  }

  /** Another address with the tag belongs to the same command. */
  ghost predicate Rivalled(s: State, anchors: map<Ga, string>, addresses: seq<Ga>, tag: Tag, x: Ga) {
    exists y :: y in addresses && y != x && Owner(s, anchors, y, tag) == Owner(s, anchors, x, tag)
  }

  /** What becomes of an address that has a tag, when several commands share the name. */
  ghost function ManyMark(
    s: State, dialect: Dialect, anchors: map<Ga, string>, addresses: seq<Ga>, tag: Tag, x: Ga): Mark
  {
    if Owner(s, anchors, x, tag).None? then Noted(At(s, x), UnprovenChannel)
    else if Rivalled(s, anchors, addresses, tag, x) then Noted(At(s, x), AmbiguousRole)
    else if Owner(s, anchors, x, tag).value in anchors then
      Tried(s, dialect, x, tag, anchors[Owner(s, anchors, x, tag).value])
    else At(s, x)
  }

  lemma OwnerIn(s: State, anchors: map<Ga, string>, x: Ga, tag: Tag)
    ensures Owner(s, anchors, x, tag).Some? ==> Owner(s, anchors, x, tag).value in anchors
  {
    var keys := KeysOf(s, x, IsFeedback(tag));
    if |keys| == 1 {
      var matched := set c | c in anchors && anchors[c] == Only(keys);
      if |matched| == 1 { assert Only(matched) in matched; }
    }
  }

  lemma {:induction false} ClaimsAre(s: State, anchors: map<Ga, string>, addresses: seq<Ga>, tag: Tag, c: Ga, x: Ga)
    requires X.NoDup(addresses) && c in anchors
    ensures var claimed := Claimants(s, anchors, addresses, tag, c);
      && (x in claimed <==> x in addresses && Owner(s, anchors, x, tag) == Some(c))
      && (x in claimed ==>
            (|claimed| > 1 <==> exists y :: y in addresses && y != x && Owner(s, anchors, y, tag) == Some(c)))
  {
    var claimed := Claimants(s, anchors, addresses, tag, c);
    X.ClaimantsSpec(s, anchors, addresses, tag, c);
    hide Claimants;
    hide Owner;
    if x in claimed && |claimed| > 1 {
      var y := if claimed[0] == x then claimed[1] else claimed[0];
      assert y in claimed && y != x;
    }
    if y :| x in claimed && y in addresses && y != x && Owner(s, anchors, y, tag) == Some(c) {
      assert y in claimed;
      var i :| 0 <= i < |claimed| && claimed[i] == x;
      var j :| 0 <= j < |claimed| && claimed[j] == y;
      assert i != j;
    }
  }

  lemma ToldMarks(s: State, anchors: map<Ga, string>, addresses: seq<Ga>, tag: Tag)
    ensures var t := Told(s, anchors, addresses, tag);
      && OnlyMarks(s, t)
      && forall x :: At(t, x) ==
           if x in addresses && Owner(s, anchors, x, tag).None? then Noted(At(s, x), UnprovenChannel) else At(s, x)
  {
    hide Owner;
    NotedAre(s, Unowned(s, anchors, addresses, tag), UnprovenChannel);
    hide SetDefaults;
    hide Noted;
    hide At;
    forall x ensures x in Unowned(s, anchors, addresses, tag) <==> x in addresses && Owner(s, anchors, x, tag).None? { }
  }

  lemma ClaimsForIs(s: State, anchors: map<Ga, string>, addresses: seq<Ga>, tag: Tag)
    requires X.NoDup(addresses)
    ensures var claims := ClaimsFor(s, anchors, addresses, tag);
      && claims.Keys == anchors.Keys && ClaimedOnce(claims)
      && forall c, x :: c in anchors ==>
           && (x in claims[c] <==> x in addresses && Owner(s, anchors, x, tag) == Some(c))
           && (x in claims[c] ==>
                 (|claims[c]| > 1 <==> exists y :: y in addresses && y != x && Owner(s, anchors, y, tag) == Some(c)))
  {
    hide Owner;
    hide Claimants;
    var claims := ClaimsFor(s, anchors, addresses, tag);
    forall c, x | c in anchors
      ensures x in claims[c] <==> x in addresses && Owner(s, anchors, x, tag) == Some(c)
      ensures x in claims[c] ==>
        (|claims[c]| > 1 <==> exists y :: y in addresses && y != x && Owner(s, anchors, y, tag) == Some(c))
    {
      ClaimsAre(s, anchors, addresses, tag, c, x);
    }
    forall c, d, x | c in claims && d in claims && x in claims[c] && x in claims[d] ensures c == d {
      assert Owner(s, anchors, x, tag) == Some(c) && Owner(s, anchors, x, tag) == Some(d);
    }
  }

  /** The turn of one tag over all commands. */
  lemma {:induction false} TagMarks(
    s: State, dialect: Dialect, anchors: map<Ga, string>, addresses: seq<Ga>, commands: seq<Ga>, tag: Tag, bound: Bindings)
    requires tag in TagOrder(dialect) && TagEntry(dialect, tag).Some? && X.NoDup(addresses) && X.NoDup(commands)
    requires forall c :: c in anchors ==> c in commands
    ensures var t := BindClaims(Told(s, anchors, addresses, tag), anchors, ClaimsFor(s, anchors, addresses, tag),
                                commands, tag, TagEntry(dialect, tag).value, bound).0;
      && OnlyMarks(s, t)
      && (forall x :: x in addresses ==> At(t, x) == ManyMark(s, dialect, anchors, addresses, tag, x))
      && (forall x :: x !in addresses ==> At(t, x) == At(s, x))
  {
    hide TagOrder;
    hide TagEntry;
    hide Tried;
    hide Owner;
    hide Told;
    hide ClaimsFor;
    hide ClaimedOnce;
    hide BindClaims;
    hide X.NoDup;
    var told, claims := Told(s, anchors, addresses, tag), ClaimsFor(s, anchors, addresses, tag);
    ClaimsForIs(s, anchors, addresses, tag);
    ToldMarks(s, anchors, addresses, tag);
    ClaimsMark(told, dialect, anchors, claims, commands, tag, bound);
    var t := BindClaims(told, anchors, claims, commands, tag, TagEntry(dialect, tag).value, bound).0;
    forall x | x in addresses ensures At(t, x) == ManyMark(s, dialect, anchors, addresses, tag, x) {
      OneMarked(s, told, t, dialect, anchors, claims, addresses, commands, tag, x);
    }
  }

  lemma OneMarked(
    s: State, told: State, t: State, dialect: Dialect, anchors: map<Ga, string>, claims: map<Ga, seq<Ga>>,
    addresses: seq<Ga>, commands: seq<Ga>, tag: Tag, x: Ga)
    requires x in addresses && claims.Keys == anchors.Keys && forall c :: c in anchors ==> c in commands
    requires forall c :: c in anchors ==> (x in claims[c] <==> Owner(s, anchors, x, tag) == Some(c))
    requires forall c :: c in anchors && x in claims[c] ==>
      (|claims[c]| > 1 <==> exists y :: y in addresses && y != x && Owner(s, anchors, y, tag) == Some(c))
    requires OnlyMarks(s, told)
    requires At(told, x) == if Owner(s, anchors, x, tag).None? then Noted(At(s, x), UnprovenChannel) else At(s, x)
    requires forall c :: c in commands && c in claims && x in claims[c] ==>
      At(t, x) == ClaimMark(told, dialect, tag, claims[c], anchors[c], x)
    requires (forall c :: c in commands && c in claims ==> x !in claims[c]) ==> At(t, x) == At(told, x)
    ensures At(t, x) == ManyMark(s, dialect, anchors, addresses, tag, x)
  {
    hide Tried;
    OwnerIn(s, anchors, x, tag);
    hide Owner;
    if Owner(s, anchors, x, tag).Some? {
      var c := Owner(s, anchors, x, tag).value;
      assert x in claims[c];
      SameTried(s, told, dialect, x, tag, anchors[c]);
    }
  }

  lemma SameMany(
    s: State, t: State, dialect: Dialect, anchors: map<Ga, string>, addresses: seq<Ga>, tag: Tag, x: Ga)
    requires OnlyMarks(s, t) && At(t, x) == At(s, x)
    ensures ManyMark(t, dialect, anchors, addresses, tag, x) == ManyMark(s, dialect, anchors, addresses, tag, x)
  {
    assert t.groups == s.groups;
    SameRivals(s, t, anchors, addresses, tag, x);
    SameOwner(s, t, anchors, x, tag);
    hide Tried;
    hide Noted;
    hide At;
    hide Owner;
    hide Rivalled;
    if Owner(s, anchors, x, tag).Some? && Owner(s, anchors, x, tag).value in anchors {
      SameTried(s, t, dialect, x, tag, anchors[Owner(s, anchors, x, tag).value]);
    }
  }

  lemma SameRivals(s: State, t: State, anchors: map<Ga, string>, addresses: seq<Ga>, tag: Tag, x: Ga)
    requires t.groups == s.groups
    ensures Rivalled(t, anchors, addresses, tag, x) <==> Rivalled(s, anchors, addresses, tag, x)
  {
    forall y ensures Owner(t, anchors, y, tag) == Owner(s, anchors, y, tag) { SameOwner(s, t, anchors, y, tag); }
    hide Owner;
  }

  lemma SameOwner(s: State, t: State, anchors: map<Ga, string>, y: Ga, tag: Tag)
    requires t.groups == s.groups
    ensures Owner(t, anchors, y, tag) == Owner(s, anchors, y, tag)
  {
  }

  lemma {:induction false} TagsMark(
    s: State, dialect: Dialect, anchors: map<Ga, string>, roles: map<Tag, seq<Ga>>, commands: seq<Ga>, tags: seq<Tag>,
    bound: Bindings)
    requires X.DistinctTags(dialect, tags) && NoneTwice(roles) && X.NoDup(commands)
    requires forall tag :: tag in tags ==> tag in TagOrder(dialect) && X.NoDup(Dialected(roles, tag))
    requires forall c :: c in anchors ==> c in commands
    ensures var t := BindTags(s, dialect, anchors, roles, commands, tags, bound).0;
      && OnlyMarks(s, t)
      && (forall tag, x :: tag in tags && x in Dialected(roles, tag) ==>
            At(t, x) == ManyMark(s, dialect, anchors, Dialected(roles, tag), tag, x))
      && (forall x :: (forall tag :: tag in tags ==> x !in Dialected(roles, tag)) ==> At(t, x) == At(s, x))
    decreases |tags|
  {
    hide TagOrder;
    hide TagEntry;
    hide ManyMark;
    hide BindClaims;
    hide Told;
    hide ClaimsFor;
    hide X.NoDup;
    if tags != [] {
      var tag, rest := tags[0], tags[1..];
      X.DistinctTagsTail(dialect, tags);
      assert forall u :: u in tags <==> u == tag || u in rest;
      var addresses := Dialected(roles, tag);
      TagMarks(s, dialect, anchors, addresses, commands, tag, bound);
      var (next, more) := BindClaims(Told(s, anchors, addresses, tag), anchors, ClaimsFor(s, anchors, addresses, tag),
                                     commands, tag, TagEntry(dialect, tag).value, bound);
      TagsMark(next, dialect, anchors, roles, commands, rest, more);
      forall u, x | u in rest && x in Dialected(roles, u)
        ensures At(next, x) == At(s, x)
        ensures ManyMark(next, dialect, anchors, Dialected(roles, u), u, x)
             == ManyMark(s, dialect, anchors, Dialected(roles, u), u, x)
      {
        assert x !in addresses;
        SameMany(s, next, dialect, anchors, Dialected(roles, u), u, x);
      }
    }
  }

  /** The address is on the channel of one of the separate commands. */
  ghost predicate OnOne(s: State, commands: seq<Ga>, tag: Tag, x: Ga, c: Ga, key: string) {
    Apart(s, commands, c, key) && OnChannel(s, x, !IsCommandTag(tag), key)
  }

  /** What the split records of an address: without such a command it is unproven, with another address of its tag on
      the same channel ambiguous, and otherwise it is tried. */
  ghost predicate SplitMark(
    s: State, dialect: Dialect, commands: seq<Ga>, addresses: seq<Ga>, tag: Tag, x: Ga, m: Mark)
  {
    && ((forall c, key :: !OnOne(s, commands, tag, x, c, key)) ==> m == Noted(At(s, x), UnprovenChannel))
    && forall c, key :: OnOne(s, commands, tag, x, c, key) ==>
         m == if exists y :: y in addresses && y != x && OnChannel(s, y, !IsCommandTag(tag), key)
              then Noted(At(s, x), AmbiguousRole) else Tried(s, dialect, x, tag, key)
  }

  lemma OwnerIs(s: State, commands: seq<Ga>, tag: Tag, x: Ga, c: Ga, key: string)
    requires Apart(s, commands, c, key)
    ensures c in X.Apart(s, commands) && X.Apart(s, commands)[c] == key
    ensures Owner(s, X.Apart(s, commands), x, tag) == Some(c) <==> OnChannel(s, x, !IsCommandTag(tag), key)
  {
    ApartIs(s, commands, c);
    X.ApartExactly(s, commands, c);
    X.OwnerExactly(s, commands, x, tag, c);
    ChannelIs(s, x, IsFeedback(tag), key);
    TagSays(tag);
    assert X.Apart(s, commands)[c] in KeysOf(s, c, false);
    hide X.Apart;
    hide Owner;
    hide KeysOf;
    hide OnChannel;
  }

  lemma ManyMarkIs(s: State, dialect: Dialect, commands: seq<Ga>, addresses: seq<Ga>, tag: Tag, x: Ga)
    ensures SplitMark(s, dialect, commands, addresses, tag, x,
                      ManyMark(s, dialect, X.Apart(s, commands), addresses, tag, x))
  {
    var anchors := X.Apart(s, commands);
    hide Apart;
    hide X.Apart;
    hide Owner;
    hide OnChannel;
    hide Tried;
    OwnerIn(s, anchors, x, tag);
    if Owner(s, anchors, x, tag).Some? {
      var c := Owner(s, anchors, x, tag).value;
      ApartIs(s, commands, c);
      var key :| Apart(s, commands, c, key);
      OwnerIs(s, commands, tag, x, c, key);
      assert OnOne(s, commands, tag, x, c, key);
    }
    forall c, key | OnOne(s, commands, tag, x, c, key)
      ensures Owner(s, anchors, x, tag) == Some(c) && c in anchors && anchors[c] == key
      ensures forall y :: Owner(s, anchors, y, tag) == Some(c) <==> OnChannel(s, y, !IsCommandTag(tag), key)
    {
      OwnerIs(s, commands, tag, x, c, key);
      forall y ensures Owner(s, anchors, y, tag) == Some(c) <==> OnChannel(s, y, !IsCommandTag(tag), key) {
        OwnerIs(s, commands, tag, y, c, key);
      }
    }
  }

  /** Two commands on one channel. */
  ghost predicate Entangled(s: State, commands: seq<Ga>, c: Ga) {
    c in commands && exists key, d :: Commands(s, c, key) && d in commands && d != c && Commands(s, d, key)
  }

  /** The marks after several commands under a name have been told apart. */
  ghost predicate MarksAfterMany(s: State, t: State, dialect: Dialect, commands: seq<Ga>, roles: map<Tag, seq<Ga>>) {
    && OnlyMarks(s, t)
    && (forall c :: c in commands ==>
          At(t, c) == if Entangled(s, commands, c) then Mark(At(s, c).dpt, true, Some(AmbiguousRole)) else At(s, c))
    && (forall tag, x :: tag in TagOrder(dialect) && x in Dialected(roles, tag) ==>
          SplitMark(s, dialect, commands, Dialected(roles, tag), tag, x, At(t, x)))
    && (forall x :: x !in commands && (forall tag :: tag in TagOrder(dialect) ==> x !in Dialected(roles, tag)) ==>
          At(t, x) == At(s, x))
  }

  lemma DoubledIs(s: State, commands: seq<Ga>, c: Ga)
    ensures c in DoubledOf(AllAnchors(s, commands)) <==> Entangled(s, commands, c)
  {
    var anchors := AllAnchors(s, commands);
    forall d ensures d in anchors <==> d in commands && exists key :: Commands(s, d, key) { AnchorsIs(s, d); }
    forall d, key | d in anchors ensures Commands(s, d, key) <==> anchors[d] == key {
      AnchorsIs(s, d);
      AnchorKey(s, d, key);
    }
    hide Commands;
    hide AllAnchors;
    if Entangled(s, commands, c) {
      var key, d :| Commands(s, c, key) && d in commands && d != c && Commands(s, d, key);
      assert d in anchors && anchors[d] == anchors[c];
    }
    if c in DoubledOf(anchors) {
      var d :| d in anchors && d != c && anchors[d] == anchors[c];
      assert Commands(s, c, anchors[c]) && Commands(s, d, anchors[c]);
    }
  }

  lemma AnchorKey(s: State, d: Ga, key: string)
    requires Anchors(s, d)
    ensures Commands(s, d, key) <==> AnchorOf(s, d) == key
  {
    ChannelIs(s, d, false, key);
    assert KeysOf(s, d, false) == {AnchorOf(s, d)};
    assert AnchorOf(s, d) in KeysOf(s, d, false);
    hide KeysOf;
    hide OnChannel;
  }

  lemma BlockedAre(s: State, addresses: set<Ga>)
    ensures var t := BlockAll(s, addresses);
      && OnlyMarks(s, t)
      && (forall x :: x in addresses ==> At(t, x) == Mark(At(s, x).dpt, true, Some(AmbiguousRole)))
      && (forall x :: x !in addresses ==> At(t, x) == At(s, x))
  {
  }

  lemma InputParts(commands: seq<Ga>, roles: map<Tag, seq<Ga>>)
    requires X.SplitInput(commands, roles)
    ensures X.NoDup(commands) && NoneTwice(roles)
    ensures forall tag :: X.NoDup(Dialected(roles, tag)) && forall x :: x in Dialected(roles, tag) ==> x !in commands
  {
  }

  lemma SplitRuns(s: State, dialect: Dialect, commands: seq<Ga>, roles: map<Tag, seq<Ga>>) returns (begun: State)
    requires X.SplitInput(commands, roles)
    ensures OnlyMarks(s, begun)
    ensures forall x ::
      At(begun, x) == if Entangled(s, commands, x) then Mark(At(s, x).dpt, true, Some(AmbiguousRole)) else At(s, x)
    ensures var t := BindMulti(s, dialect, commands, roles).0;
      && OnlyMarks(begun, t)
      && (forall tag, x :: tag in TagOrder(dialect) && x in Dialected(roles, tag) ==>
            At(t, x) == ManyMark(begun, dialect, X.Apart(s, commands), Dialected(roles, tag), tag, x))
      && (forall x :: (forall tag :: tag in TagOrder(dialect) ==> x !in Dialected(roles, tag)) ==> At(t, x) == At(begun, x))
  {
    var anchors := X.Apart(s, commands);
    var doubled := DoubledOf(AllAnchors(s, commands));
    begun := BlockAll(s, doubled);
    forall c ensures c in doubled <==> Entangled(s, commands, c) { DoubledIs(s, commands, c); }
    BlockedAre(s, doubled);
    X.TagOrderDistinct(dialect);
    InputParts(commands, roles);
    forall c | c in anchors ensures c in commands { X.ApartExactly(s, commands, c); }
    hide TagOrder;
    hide BlockAll;
    hide ManyMark;
    hide BindTags;
    hide Entangled;
    TagsMark(begun, dialect, anchors, roles, commands, TagOrder(dialect), Unbound(anchors));
    assert BindMulti(s, dialect, commands, roles)
      == BindTags(begun, dialect, anchors, roles, commands, TagOrder(dialect), Unbound(anchors));
  }

  lemma SplitMarks(s: State, dialect: Dialect, commands: seq<Ga>, roles: map<Tag, seq<Ga>>)
    requires X.SplitInput(commands, roles)
    ensures MarksAfterMany(s, BindMulti(s, dialect, commands, roles).0, dialect, commands, roles)
  {
    hide X.SplitInput;
    hide X.Apart;
    hide TagOrder;
    hide BindMulti;
    hide ManyMark;
    hide SplitMark;
    hide Commands;
    hide X.NoDup;
    var begun := SplitRuns(s, dialect, commands, roles);
    InputParts(commands, roles);
    var t := BindMulti(s, dialect, commands, roles).0;
    forall tag, x | tag in TagOrder(dialect) && x in Dialected(roles, tag)
      ensures SplitMark(s, dialect, commands, Dialected(roles, tag), tag, x, At(t, x))
    {
      assert x !in commands;
      SameMany(s, begun, dialect, X.Apart(s, commands), Dialected(roles, tag), tag, x);
      ManyMarkIs(s, dialect, commands, Dialected(roles, tag), tag, x);
    }
  }

  /**
    Several commands under a name: those on one channel are ambiguous and blocked, and each other one is finished with
    the addresses that alone, among those with their tag, are on its channel and suit.
   */
  lemma ManyCommandsGo(s: State, dialect: Dialect, prefix: Prefix, commands: seq<Ga>, roles: map<Tag, seq<Ga>>)
    requires X.SplitInput(commands, roles) && |commands| > 1
    ensures var t := ChannelStep(s, dialect, prefix, commands, roles);
      exists marked :: MarksAfterMany(s, marked, dialect, commands, roles)
        && FinishedAll(s, marked, t, dialect, prefix, commands, roles)
  {
    hide BindMulti;
    hide X.SplitInput;
    hide FinishedOne;
    hide MarksAfterMany;
    var (marked, bound) := BindMulti(s, dialect, commands, roles);
    SplitMarks(s, dialect, commands, roles);
    var course := FinishCourse(s, marked, dialect, prefix, commands, commands, roles, bound);
    var t := ChannelStep(s, dialect, prefix, commands, roles);
    assert course[|commands|] == t;
    assert FinishedAll(s, marked, t, dialect, prefix, commands, roles);
  }

  /** Without a command nothing happens under a name. */
  lemma NoCommandNothing(s: State, dialect: Dialect, prefix: Prefix, roles: map<Tag, seq<Ga>>)
    ensures ChannelStep(s, dialect, prefix, [], roles) == s
  {
  }

  /** The addresses of a tag are those listed under it; and under each tag of a dialect those of the name are listed. */
  lemma {:induction false} ListedExactly(
    roles: map<Tag, seq<Ga>>, begun: State, order: seq<Ga>, dialect: Dialect, key: string, tag: Tag)
    ensures Dialected(roles, tag) == if tag in roles then roles[tag] else []
    ensures var gathered := RolesAt(begun, order, dialect, key);
      if (exists f :: tag in TagsFor(dialect, f)) then
        tag in gathered && gathered[tag] == TaggedAs(begun, order, dialect, key, tag)
      else tag !in gathered
  {
    forall f ensures tag in TagsFor(dialect, f) <==>
      tag in TagOrder(dialect) && TagEntry(dialect, tag).Some? && TagEntry(dialect, tag).value.field == f
    {
      TagTableExactly(dialect, tag, f);
    }
    hide TagsFor;
    hide TaggedAs;
    hide TagOrder;
    if tag in TagOrder(dialect) {
      TagTypesExactly(dialect, tag, BIT);
      assert tag in TagsFor(dialect, TagEntry(dialect, tag).value.field);
    }
  }
}
