/** What a group address's declarations and objects prove: its exact type, and the actuator channel it belongs to. */
module KnxEvidence {
  import opened Common
  import opened KnxPlannerModel

  // -------------------------------------------------------------------------- types

  /** Something declares this for the address; None is what cannot be read. */
  ghost predicate Declares(g: Group, d: Option<Dpt>) {
    g.declared == Some(d) || exists o :: o in g.objects && d in o.dpts
  }

  /** The object takes the type: it declares none, or none unreadable and the type or all types of its main number. */
  ghost predicate Takes(o: Object, main: int, sub: int) {
    o.dpts == [] || (None !in o.dpts && (Some(Dpt(main, Some(sub))) in o.dpts || Some(Dpt(main, None)) in o.dpts))
  }

  /** The address itself declares the exact type, and every object takes it. */
  ghost predicate Settled(g: Group, main: int, sub: int) {
    g.declared == Some(Some(Dpt(main, Some(sub)))) && forall o :: o in g.objects ==> Takes(o, main, sub)
  }

  /** Everything declared agrees on one exact type. */
  ghost predicate Agreed(g: Group, main: int, sub: int) {
    && Declares(g, Some(Dpt(main, Some(sub))))
    && forall d :: Declares(g, Some(d)) ==> d.main == main && (d.sub == None || d.sub == Some(sub))
  }

  /** Two exact types, or two main numbers, and no type that settles it. */
  ghost predicate Conflicts(g: Group) {
    && (forall main, sub :: !Settled(g, main, sub))
    && exists c, d :: Differ(g, c, d)
  }

  lemma ChoicesAre(g: Group, d: Option<Dpt>)
    ensures d in Choices(g) <==> Declares(g, d)
  {
  }

  lemma DecidesIs(g: Group)
    ensures Decides(g) <==> exists main, sub :: Settled(g, main, sub)
    ensures Decides(g) ==> Settled(g, g.declared.value.value.main, g.declared.value.value.sub.value)
  {
    if g.declared.Some? && g.declared.value.Some? && g.declared.value.value.sub.Some? {
      var d := g.declared.value.value;
      forall o | o in g.objects ensures Accepts(o, d) <==> Takes(o, d.main, d.sub.value) { AcceptsIs(o, d); }
      hide Accepts;
      hide Takes;
      assert Decides(g) <==> Settled(g, d.main, d.sub.value);
    }
  }

  lemma AcceptsIs(o: Object, d: Dpt)
    requires d.sub.Some?
    ensures Accepts(o, d) <==> Takes(o, d.main, d.sub.value)
  {
  }

  lemma TwoMembers<T>(s: set<T>, a: T, b: T)
    requires a in s && b in s && a != b
    ensures |s| > 1
  {
    assert b in s - {a};
    assert |s - {a}| > 0;
  }

  lemma ExactsAre(g: Group, d: Dpt)
    requires !Decides(g)
    ensures d in Exacts(g) <==> d.sub.Some? && Declares(g, Some(d))
    ensures d.main in Mains(g) <==> exists c :: Declares(g, Some(c)) && c.main == d.main
  {
    ChoicesAre(g, Some(d));
    hide Decides;
    if d.main in Mains(g) {
      var c :| c in Choices(g) && c.Some? && c.value.main == d.main;
      ChoicesAre(g, c);
      assert Declares(g, Some(c.value));
    }
    if c :| Declares(g, Some(c)) && c.main == d.main { ChoicesAre(g, Some(c)); }
    hide Choices;
  }

  lemma TwoOf<T>(s: set<T>) returns (a: T, b: T)
    requires |s| > 1
    ensures a in s && b in s && a != b
  {
    a :| a in s;
    assert |s - {a}| > 0;
    b :| b in s - {a};
  }

  /** Two declared types differ in their main number, or are exact and differ. */
  ghost predicate Differ(g: Group, c: Dpt, d: Dpt) {
    && Declares(g, Some(c)) && Declares(g, Some(d))
    && (c.main != d.main || (c.sub.Some? && d.sub.Some? && c.sub != d.sub))
  }

  lemma ManyDiffer(g: Group)
    requires !Decides(g) && (|Exacts(g)| > 1 || |Mains(g)| > 1)
    ensures exists c, d :: Differ(g, c, d)
  {
    hide Decides;
    hide Exacts;
    hide Mains;
    hide Declares;
    if |Exacts(g)| > 1 {
      var a, b := TwoOf(Exacts(g));
      ExactsAre(g, a);
      ExactsAre(g, b);
      assert Differ(g, a, b);
    } else {
      var a, b := TwoOf(Mains(g));
      ExactsAre(g, Dpt(a, None));
      ExactsAre(g, Dpt(b, None));
      var c :| Declares(g, Some(c)) && c.main == a;
      var d :| Declares(g, Some(d)) && d.main == b;
      assert Differ(g, c, d);
    }
  }

  lemma DifferMany(g: Group, c: Dpt, d: Dpt)
    requires !Decides(g) && Differ(g, c, d)
    ensures |Exacts(g)| > 1 || |Mains(g)| > 1
  {
    ExactsAre(g, c);
    ExactsAre(g, d);
    hide Decides;
    hide Exacts;
    hide Mains;
    hide Declares;
    if c.main == d.main {
      TwoMembers(Exacts(g), c, d);
    } else {
      assert c.main in Mains(g) && d.main in Mains(g);
      TwoMembers(Mains(g), c.main, d.main);
    }
  }

  lemma OpenConflict(g: Group)
    requires !Decides(g)
    ensures |Exacts(g)| > 1 || |Mains(g)| > 1 <==> Conflicts(g)
  {
    DecidesIs(g);
    hide Decides;
    hide Exacts;
    hide Mains;
    hide Settled;
    hide Differ;
    if |Exacts(g)| > 1 || |Mains(g)| > 1 { ManyDiffer(g); }
    if c, d :| Differ(g, c, d) { DifferMany(g, c, d); }
  }

  lemma OpenAgreed(g: Group, main: int, sub: int)
    requires !Decides(g)
    ensures Exacts(g) == {Dpt(main, Some(sub))} && |Mains(g)| == 1 <==> Agreed(g, main, sub)
  {
    var exact := Dpt(main, Some(sub));
    ExactsAre(g, exact);
    hide Decides;
    hide Exacts;
    hide Mains;
    hide Declares;
    if Exacts(g) == {exact} && |Mains(g)| == 1 {
      assert exact in Exacts(g);
      forall d | Declares(g, Some(d)) ensures d.main == main && (d.sub == None || d.sub == Some(sub)) {
        ExactsAre(g, d);
        if d.main != main { TwoMembers(Mains(g), d.main, main); }
        if d.sub.Some? { assert d in Exacts(g); }
      }
    }
    if Agreed(g, main, sub) {
      forall d ensures d in Exacts(g) <==> d == exact { ExactsAre(g, d); }
      forall m | m in Mains(g) ensures m == main { ExactsAre(g, Dpt(m, None)); }
      assert main in Mains(g);
      assert Mains(g) == {main};
    }
  }

  /**
    An address has a type exactly when nothing about it is unreadable and either it declares the type itself and every
    object takes it, or everything that is declared agrees on it; otherwise the types conflict, or none is exact.
   */
  lemma ResolvesExactly(g: Group, main: int, sub: int)
    ensures Resolve(g) == Success(Type(main, sub)) <==>
      && !Declares(g, None)
      && (Settled(g, main, sub) || ((forall m, n :: !Settled(g, m, n)) && Agreed(g, main, sub)))
    ensures Resolve(g).Failure? ==> Resolve(g).error == if Conflicts(g) then ConflictingType else MissingExactType
  {
    DecidesIs(g);
    ChoicesAre(g, None);
    if Decides(g) {
      var d := g.declared.value.value;
      assert Exacts(g) == {d} && Mains(g) == {d.main};
      assert Settled(g, d.main, d.sub.value);
      hide Decides;
      hide Choices;
      hide Takes;
      hide Declares;
    } else {
      OpenConflict(g);
      OpenAgreed(g, main, sub);
      OpenOne(g);
      hide Decides;
      hide Exacts;
      hide Mains;
      hide Choices;
      hide Declares;
      hide Settled;
      hide Agreed;
      hide Conflicts;
    }
  }

  lemma OpenOne(g: Group)
    requires !Decides(g)
    ensures forall d :: d in Exacts(g) ==> d.sub.Some?
  {
    forall d | d in Exacts(g) ensures d.sub.Some? { ExactsAre(g, d); }
  }

  // ----------------------------------------------------------------------- channels

  /** An object that receives a command: it takes writes and never transmits. */
  predicate Receives(o: Object) { o.flags.communication == Yes && o.flags.write == Yes && o.flags.transmit == No }

  /** An object that produces a feedback: it can be read and transmits, and takes no writes. */
  predicate Produces(o: Object) {
    o.flags.communication == Yes && o.flags.read == Yes && o.flags.transmit == Yes && o.flags.write == No
  }

  /** A channel is proven by an object on it that receives the command, or produces the feedback. */
  lemma KeysAreProven(g: Group, feedback: bool, key: string)
    ensures key in ActuatorKeys(g, feedback) <==>
      exists o :: o in g.objects && o.channel == Some(key) && if feedback then Produces(o) else Receives(o)
  {
    if key in ActuatorKeys(g, feedback) {
      var o :| o in g.objects && Proves(o, feedback) && o.channel.Some? && o.channel.value == key;
      assert o.channel == Some(key);
    }
    if o :| o in g.objects && o.channel == Some(key) && if feedback then Produces(o) else Receives(o) {
      assert Proves(o, feedback);
    }
  }

  /** The tags that name a command; all others name a feedback. */
  lemma FeedbackTags(tag: Tag)
    ensures !IsFeedback(tag) <==> tag == Sw || tag == Val || tag == Ct || tag == Mode || tag == FanTag
  {
  }

  // ------------------------------------------------------------------------ reasons

  /** A reason given first stays; one that overrides replaces. */
  lemma ReasonsAre(issues: map<Ga, Issue>, addresses: set<Ga>, issue: Issue, a: Ga)
    ensures var t := SetDefault(issues, a, issue); t == if a in issues then issues else issues[a := issue]
    ensures var t := SetDefaults(issues, addresses, issue);
      && (a in t <==> a in issues || a in addresses) && (a in t ==> t[a] == if a in issues then issues[a] else issue)
    ensures var t := SetAll(issues, addresses, issue);
      && (a in t <==> a in issues || a in addresses) && (a in t ==> t[a] == if a in addresses then issue else issues[a])
  {
  }
}
