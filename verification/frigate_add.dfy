/** Adding a camera to Frigate: a fresh name, and everything put back when a step fails. */
module FrigateAdd {
  import opened Common
  import opened DecimalText

  type Name = string

  // -------------------------------------------------------------------- a fresh name

  /** The names tried, in order: the base, then the base with 2, 3 and so on. */
  function Candidate(base: Name, index: nat): Name {
    if index < 2 then base else base + "_" + Numeral(index)
  }

  function Sub(key: Name): Name { key + "_sub" }

  predicate Free(key: Name, taken: set<Name>) { key !in taken && Sub(key) !in taken }

  lemma {:induction false} DigitsEnd(n: nat)
    ensures |Numeral(n)| > 0 && IsDigit(Numeral(n)[|Numeral(n)| - 1])
  {
    NumeralRoundTrip(n);
  }

  /** Different attempts never propose the same name, with or without the suffix. */
  lemma CandidatesDiffer(base: Name, i: nat, j: nat)
    requires 1 <= i < j
    ensures Candidate(base, i) != Candidate(base, j) && Sub(Candidate(base, i)) != Sub(Candidate(base, j))
    ensures Candidate(base, i) != Sub(Candidate(base, j)) && Sub(Candidate(base, i)) != Candidate(base, j)
  {
    var a, b := Candidate(base, i), Candidate(base, j);
    DigitsEnd(j);
    assert b[|b| - 1] == Numeral(j)[|Numeral(j)| - 1];
    assert Sub(a)[|Sub(a)| - 1] == 'b' && Sub(b)[|Sub(b)| - 1] == 'b';
    if i >= 2 {
      DigitsEnd(i);
      assert a[|a| - 1] == Numeral(i)[|Numeral(i)| - 1];
      if a == b {
        assert a[|base| + 1..] == Numeral(i) && b[|base| + 1..] == Numeral(j);
        NumeralInjective(i, j);
      }
    } else {
      assert |a| < |b|;
    }
    assert Sub(a)[..|a|] == a && Sub(b)[..|b|] == b;
    assert Sub(a) == Sub(b) ==> |a| == |b|;
  }

  ghost predicate Later(base: Name, index: nat, name: Name) {
    exists k: nat :: index <= k && IsTry(base, k, name)
  }

  predicate IsTry(base: Name, k: nat, name: Name) { name == Candidate(base, k) || name == Sub(Candidate(base, k)) }

  /** The taken names that attempts from here on may still meet. */
  ghost function Ahead(base: Name, index: nat, taken: set<Name>): set<Name> {
    set name | name in taken && Later(base, index, name)
  }

  lemma AheadShrinks(base: Name, index: nat, taken: set<Name>)
    requires index >= 1 && !Free(Candidate(base, index), taken)
    ensures Ahead(base, index + 1, taken) < Ahead(base, index, taken)
  {
    var key := Candidate(base, index);
    var met := if key in taken then key else Sub(key);
    assert IsTry(base, index, met);
    assert met in Ahead(base, index, taken);
    if met in Ahead(base, index + 1, taken) {
      var k: nat :| index + 1 <= k && IsTry(base, k, met);
      CandidatesDiffer(base, index, k);
    }
    forall name | name in Ahead(base, index + 1, taken) ensures name in Ahead(base, index, taken) {
      var k: nat :| index + 1 <= k && IsTry(base, k, name);
      assert index <= k;
    }
  }

  /** Ends for every finite set of taken names, with the first name free together with its sub-stream's. */
  method CameraKey(base: Name, taken: set<Name>) returns (key: Name, ghost index: nat)
    ensures Free(key, taken) && index >= 1 && key == Candidate(base, index)
    ensures forall k :: 1 <= k < index ==> !Free(Candidate(base, k), taken)
  {
    key := base;
    var next := 2;
    index := 1;
    while key in taken || Sub(key) in taken
      invariant index >= 1 && next == index + 1 && key == Candidate(base, index)
      invariant forall k :: 1 <= k < index ==> !Free(Candidate(base, k), taken)
      decreases Ahead(base, index, taken)
    {
      AheadShrinks(base, index, taken);
      key := base + "_" + Numeral(next);
      next := next + 1;
      index := index + 1;
    }
  }

  // --------------------------------------------------------------------- the installation

  datatype Camera = Camera(settings: string, sample: bool, record: bool, enabled: bool)

  const PLACEHOLDER := "name_of_your_camera"

  /** Frigate's saved configuration, the restreams that are running, and the cameras this bridge has recorded. */
  datatype Site = Site(
    cameras: map<Name, Camera>, streams: map<Name, string>, live: map<Name, string>, managed: set<Name>)

  /** The camera's block differs when Frigate has to read the camera directly. */
  datatype Request = Request(restreamed: Camera, direct: Camera, main: string, sub: Option<string>, password: bool)

  type Source = (Name, string)

  /** One call of another service: whether it had its effect there, and whether it returned without raising.
      For a read of the configuration, `took` says that the reply shows what was written last; Frigate caches it and
      takes a write without a topic over at its next restart. */
  datatype Answer = Answer(took: bool, ok: bool)

  /** The answers in order; past the script every call works. */
  function At(script: seq<Answer>, n: nat): Answer { if n < |script| then script[n] else Answer(true, true) }

  /** Frigate says that it wrote, or wrote and its answer was lost. */
  predicate Written(a: Answer) { a.took || a.ok }

  datatype Ending = Refused | NotStarted | NotWritten | NotVerified | NotRecorded | Completed(restreamed: bool)

  datatype Report = Report(site: Site, turn: nat, ending: Ending)

  function Sources(key: Name, r: Request): seq<Source> {
    [(key, r.main)] + (if r.sub.Some? then [(Sub(key), r.sub.value)] else [])
  }

  function Names(added: seq<Source>): set<Name> { set a | a in added :: a.0 }

  datatype Streaming = Streaming(site: Site, turn: nat, added: seq<Source>, ok: bool)

  /** Put each restream and look for it in the list; a stream that was put may run although its job fails. */
  function AddLive(site: Site, sources: seq<Source>, script: seq<Answer>, n: nat, added: seq<Source>): Streaming
    decreases |sources|
  {
    if sources == [] then Streaming(site, n, added, true)
    else
      var s, put := sources[0], At(script, n);
      var next := if put.took then site.(live := site.live[s.0 := s.1]) else site;
      if !put.ok then Streaming(next, n + 1, added, false)
      else if !At(script, n + 1).ok || s.0 !in next.live then Streaming(next, n + 2, added, false)
      else AddLive(next, sources[1..], script, n + 2, added + [s])
  }

  /** Ask for each restream's removal, whatever becomes of the others. */
  function Deletes(live: map<Name, string>, added: seq<Source>, script: seq<Answer>, n: nat): map<Name, string>
    decreases |added|
  {
    if added == [] then live
    else Deletes(if At(script, n).took then live - {added[0].0} else live, added[1..], script, n + 1)
  }

  function RemoveLive(site: Site, added: seq<Source>, script: seq<Answer>, n: nat): Site {
    site.(live := Deletes(site.live, added, script, n))
  }

  predicate HasSample(site: Site) { PLACEHOLDER in site.cameras && site.cameras[PLACEHOLDER].sample }

  function DropSample(site: Site, script: seq<Answer>, n: nat): (Site, nat) {
    if !HasSample(site) then (site, n)
    else (if Written(At(script, n)) then site.(cameras := site.cameras - {PLACEHOLDER}) else site, n + 1)
  }

  function Saved(added: seq<Source>): map<Name, string> {
    if added == [] then map[] else map[added[0].0 := added[0].1] + Saved(added[1..])
  }

  function Configure(site: Site, key: Name, r: Request, restreamed: bool, added: seq<Source>): Site {
    site.(cameras := site.cameras[key := if restreamed then r.restreamed else r.direct],
          streams := site.streams + Saved(added))
  }

  /** Stop recording, then the camera; neither needs to work. */
  function Stopped(site: Site, key: Name, record: Answer, enabled: Answer): Site
    requires key in site.cameras
  {
    var c := site.cameras[key];
    var c1 := if Written(record) then c.(record := false) else c;
    site.(cameras := site.cameras[key := if Written(enabled) then c1.(enabled := false) else c1])
  }

  /** Take the camera and its restreams out; the first raise stops it. Only a camera that is shown is stopped first,
      and only then the configuration is read again. */
  function TakeOut(site: Site, key: Name, added: seq<Source>, script: seq<Answer>, n: nat): (Site, nat) {
    var shown := At(script, n);
    if !shown.ok then (site, n + 1)
    else if shown.took && key in site.cameras then
      var stopped := Stopped(site, key, At(script, n + 1), At(script, n + 2));
      if !At(script, n + 3).ok then (stopped, n + 4)
      else TakeOutShown(stopped, key, added, At(script, n + 3).took, script, n + 4)
    else TakeOutShown(site, key, added, shown.took, script, n + 1)
  }

  /** Write what the last reply showed out of the configuration, and remove the restreams from what runs. */
  function TakeOutShown(site: Site, key: Name, added: seq<Source>, shown: bool, script: seq<Answer>, n: nat): (Site, nat)
  {
    var drop := shown && key in site.cameras;
    var gone := if shown then Names(added) * site.streams.Keys else {};
    if !drop && gone == {} then (RemoveLive(site, added, script, n), n + |added|)
    else
      var next := if !Written(At(script, n)) then site
                  else site.(cameras := if drop then site.cameras - {key} else site.cameras,
                             streams := site.streams - gone);
      if !At(script, n).ok then (next, n + 1)
      else
        var end := n + 1 + |added|;
        (RemoveLive(next, added, script, n + 1), if !drop then end else if At(script, end).ok then end + 2 else end + 1)
  }

  /** Restart, wait, and look at the picture. */
  function Verified(script: seq<Answer>, n: nat): bool {
    At(script, n).ok && At(script, n + 1).ok && At(script, n + 2).ok
  }

  function AfterVerify(script: seq<Answer>, n: nat): nat {
    if !At(script, n).ok then n + 1 else if !At(script, n + 1).ok then n + 2 else n + 3
  }

  /** Save the record of the camera, and remember its password if there is one. */
  function Recorded(r: Request, script: seq<Answer>, n: nat): bool {
    At(script, n).ok && (r.password ==> At(script, n + 1).ok)
  }

  function AfterRecord(r: Request, script: seq<Answer>, n: nat): nat {
    if At(script, n).ok && r.password then n + 2 else n + 1
  }

  /** The job from the moment the name is chosen: first each stream of the camera is looked at. */
  function Add(site: Site, key: Name, r: Request, script: seq<Answer>): Report {
    if !At(script, 0).ok then Report(site, 1, Refused)
    else if r.sub.Some? && !At(script, 1).ok then Report(site, 2, Refused)
    else AddChecked(site, key, r, script, |Sources(key, r)|)
  }

  /** Restreams, when go2rtc answers at all. */
  function AddChecked(site: Site, key: Name, r: Request, script: seq<Answer>, n: nat): Report {
    var restreamed := At(script, n).ok;
    var streamed := if restreamed then AddLive(site, Sources(key, r), script, n + 1, [])
                    else Streaming(site, n + 1, [], true);
    if !streamed.ok then
      Report(RemoveLive(streamed.site, streamed.added, script, streamed.turn), streamed.turn + |streamed.added|, NotStarted)
    else AddStarted(streamed.site, key, r, script, restreamed, streamed.added, streamed.turn)
  }

  /** Write the configuration and see that the camera works. */
  function AddStarted(
    site: Site, key: Name, r: Request, script: seq<Answer>, restreamed: bool, added: seq<Source>, n: nat): Report
  {
    var (dropped, write) := DropSample(site, script, n);
    var configured := if Written(At(script, write)) then Configure(dropped, key, r, restreamed, added) else dropped;
    if !At(script, write).ok then
      Report(RemoveLive(configured, added, script, write + 1), write + 1 + |added|, NotWritten)
    else if !Verified(script, write + 1) then
      var undo := AfterVerify(script, write + 1);
      var (undone, turn) := TakeOut(configured, key, added, script, undo);
      Report(undone, turn, NotVerified)
    else
      var save := AfterVerify(script, write + 1) + 1;
      Report(configured.(managed := configured.managed + {key}), AfterRecord(r, script, save),
             if Recorded(r, script, save) then Completed(restreamed) else NotRecorded)
  }

  class Bridge {
    var site: Site
    const script: seq<Answer>
    var turn: nat

    constructor (site: Site, script: seq<Answer>)
      ensures this.site == site && this.script == script && turn == 0
    {
      this.site, this.script, turn := site, script, 0;
    }

    method Call() returns (answer: Answer)
      modifies this`turn
      ensures answer == At(script, old(turn)) && turn == old(turn) + 1
    {
      answer := At(script, turn);
      turn := turn + 1;
    }

    method StartStreams(sources: seq<Source>) returns (added: seq<Source>, ok: bool)
      modifies this
      ensures Streaming(site, turn, added, ok) == AddLive(old(site), sources, script, old(turn), [])
    {
      added := [];
      assert sources[0..] == sources;
      for i := 0 to |sources|
        invariant AddLive(site, sources[i..], script, turn, added) == AddLive(old(site), sources, script, old(turn), [])
      {
        assert sources[i..][1..] == sources[i + 1..];
        var put := Call();
        if put.took { site := site.(live := site.live[sources[i].0 := sources[i].1]); }
        if !put.ok { return added, false; }
        var list := Call();
        if !list.ok || sources[i].0 !in site.live { return added, false; }
        added := added + [sources[i]];
      }
      assert sources[|sources|..] == [];
      ok := true;
    }

    method StopStreams(added: seq<Source>)
      modifies this
      ensures site == RemoveLive(old(site), added, script, old(turn)) && turn == old(turn) + |added|
    {
      assert added[0..] == added;
      for i := 0 to |added|
        invariant turn == old(turn) + i && site == old(site).(live := site.live)
        invariant Deletes(site.live, added[i..], script, turn) == Deletes(old(site).live, added, script, old(turn))
      {
        assert added[i..][1..] == added[i + 1..];
        var gone := Call();
        if gone.took { site := site.(live := site.live - {added[i].0}); }
      }
      assert added[|added|..] == [];
    }

    method Verify() returns (ok: bool)
      modifies this`turn
      ensures ok == Verified(script, old(turn)) && turn == AfterVerify(script, old(turn))
    {
      var step := Call();
      if step.ok { step := Call(); }
      if step.ok { step := Call(); }
      ok := step.ok;
    }

    method TakeOutCamera(key: Name, added: seq<Source>)
      modifies this
      ensures (site, turn) == TakeOut(old(site), key, added, script, old(turn))
    {
      var shown := Call();
      if !shown.ok { return; }
      if shown.took && key in site.cameras {
        var record := Call();
        var enabled := Call();
        site := Stopped(site, key, record, enabled);
        shown := Call();
        if !shown.ok { return; }
      }
      TakeOutOfConfiguration(key, added, shown.took);
    }

    method TakeOutOfConfiguration(key: Name, added: seq<Source>, shown: bool)
      modifies this
      ensures (site, turn) == TakeOutShown(old(site), key, added, shown, script, old(turn))
    {
      var drop := shown && key in site.cameras;
      var gone := if shown then Names(added) * site.streams.Keys else {};
      if drop || gone != {} {
        var write := Call();
        if Written(write) {
          site := site.(cameras := if drop then site.cameras - {key} else site.cameras, streams := site.streams - gone);
        }
        if !write.ok { return; }
      }
      StopStreams(added);
      if drop {
        var restart := Call();
        if restart.ok { var back := Call(); }
      }
    }

    method AddCamera(key: Name, r: Request) returns (ending: Ending)
      requires turn == 0
      modifies this
      ensures Report(site, turn, ending) == Add(old(site), key, r, script)
    {
      var checked := Call();
      if checked.ok && r.sub.Some? { checked := Call(); }
      if !checked.ok { return Refused; }
      var list := Call();
      var added, ok := [], true;
      if list.ok { added, ok := StartStreams(Sources(key, r)); }
      if !ok {
        StopStreams(added);
        return NotStarted;
      }
      ending := WriteCamera(key, r, list.ok, added);
    }

    method WriteCamera(key: Name, r: Request, restreamed: bool, added: seq<Source>) returns (ending: Ending)
      modifies this
      ensures Report(site, turn, ending) == AddStarted(old(site), key, r, script, restreamed, added, old(turn))
    {
      if HasSample(site) {
        var dropped := Call();
        if Written(dropped) { site := site.(cameras := site.cameras - {PLACEHOLDER}); }
      }
      var write := Call();
      if Written(write) { site := Configure(site, key, r, restreamed, added); }
      if !write.ok {
        StopStreams(added);
        return NotWritten;
      }
      var verified := Verify();
      if !verified {
        TakeOutCamera(key, added);
        return NotVerified;
      }
      var snapshot := Call();
      site := site.(managed := site.managed + {key});
      var recorded := Call();
      if recorded.ok && r.password { recorded := Call(); }
      ending := if recorded.ok then Completed(restreamed) else NotRecorded;
    }
  }

  // ------------------------------------------------------------------------ what runs

  /** What runs after these streams were put. */
  function Puts(live: map<Name, string>, asked: seq<Source>, script: seq<Answer>, n: nat): map<Name, string>
    decreases |asked|
  {
    if asked == [] then live
    else Puts(if At(script, n).took then live[asked[0].0 := asked[0].1] else live, asked[1..], script, n + 2)
  }

  predicate DistinctSources(sources: seq<Source>) {
    forall i, j :: 0 <= i < j < |sources| ==> sources[i].0 != sources[j].0
  }

  lemma {:induction false} AddLiveSpec(
    site: Site, sources: seq<Source>, script: seq<Answer>, n: nat, added: seq<Source>)
    ensures var r := AddLive(site, sources, script, n, added);
      var more := |r.added| - |added|;
      && 0 <= more <= |sources| && r.added == added + sources[..more] && (r.ok <==> more == |sources|)
      && r.site == site.(live := Puts(site.live, sources[..if r.ok then more else more + 1], script, n))
    decreases |sources|
  {
    if sources == [] {
      assert added + sources[..0] == added && sources[..0] == [];
    } else {
      var s, put := sources[0], At(script, n);
      var next := if put.took then site.(live := site.live[s.0 := s.1]) else site;
      assert sources[..1] == [s] && sources[..1][1..] == [] && added + sources[..0] == added;
      if put.ok && At(script, n + 1).ok && s.0 in next.live {
        AddLiveSpec(next, sources[1..], script, n + 2, added + [s]);
        var r := AddLive(site, sources, script, n, added);
        var more := |r.added| - |added|;
        assert added + [s] + sources[1..][..more - 1] == added + sources[..more];
        var asked := if r.ok then more else more + 1;
        assert sources[..asked][1..] == sources[1..][..asked - 1];
      }
    }
  }

  lemma {:induction false} PutsElsewhere(
    live: map<Name, string>, asked: seq<Source>, script: seq<Answer>, n: nat, x: Name)
    requires forall i :: 0 <= i < |asked| ==> asked[i].0 != x
    ensures var after := Puts(live, asked, script, n); (x in after <==> x in live) && (x in live ==> after[x] == live[x])
    decreases |asked|
  {
    if asked != [] {
      PutsElsewhere(if At(script, n).took then live[asked[0].0 := asked[0].1] else live, asked[1..], script, n + 2, x);
    }
  }

  lemma {:induction false} PutsAt(live: map<Name, string>, asked: seq<Source>, script: seq<Answer>, n: nat, i: nat)
    requires DistinctSources(asked) && i < |asked|
    ensures var x, after := asked[i].0, Puts(live, asked, script, n);
      if At(script, n + 2 * i).took then x in after && after[x] == asked[i].1
      else (x in after <==> x in live) && (x in live ==> after[x] == live[x])
    decreases |asked|
  {
    var next := if At(script, n).took then live[asked[0].0 := asked[0].1] else live;
    if i == 0 {
      PutsElsewhere(next, asked[1..], script, n + 2, asked[0].0);
    } else {
      PutsAt(next, asked[1..], script, n + 2, i - 1);
      assert n + 2 + 2 * (i - 1) == n + 2 * i;
    }
  }

  lemma {:induction false} DeletesElsewhere(
    live: map<Name, string>, added: seq<Source>, script: seq<Answer>, n: nat, x: Name)
    requires forall i :: 0 <= i < |added| ==> added[i].0 != x
    ensures var after := Deletes(live, added, script, n); (x in after <==> x in live) && (x in live ==> after[x] == live[x])
    decreases |added|
  {
    if added != [] {
      DeletesElsewhere(if At(script, n).took then live - {added[0].0} else live, added[1..], script, n + 1, x);
    }
  }

  lemma {:induction false} DeletesAt(live: map<Name, string>, added: seq<Source>, script: seq<Answer>, n: nat, i: nat)
    requires DistinctSources(added) && i < |added|
    ensures var x, after := added[i].0, Deletes(live, added, script, n);
      && (x in after <==> x in live && !At(script, n + i).took) && (x in after ==> after[x] == live[x])
    decreases |added|
  {
    var next := if At(script, n).took then live - {added[0].0} else live;
    if i == 0 {
      DeletesElsewhere(next, added[1..], script, n + 1, added[0].0);
    } else {
      DeletesAt(next, added[1..], script, n + 1, i - 1);
    }
  }

  /** A stream stays behind when its PUT had effect and its removal had none, unless it ran like that before. */
  predicate Leaks(live: map<Name, string>, s: Source, put: Answer, deleted: bool) {
    put.took && !deleted && !(s.0 in live && live[s.0] == s.1)
  }

  /** Nothing runs that did not run before, as it did before. */
  predicate NothingNew(before: map<Name, string>, after: map<Name, string>) {
    forall x :: x in after ==> x in before && after[x] == before[x]
  }

  /** Whether the removal of the i-th of `confirmed` streams was asked for and had effect. */
  predicate Gone(script: seq<Answer>, undo: Option<nat>, confirmed: nat, i: nat) {
    i < confirmed && undo.Some? && At(script, undo.value + i).took
  }

  predicate AllGone(
    live: map<Name, string>, asked: seq<Source>, script: seq<Answer>, first: nat, confirmed: nat, undo: Option<nat>)
  {
    forall i :: 0 <= i < |asked| ==> !Leaks(live, asked[i], At(script, first + 2 * i), Gone(script, undo, confirmed, i))
  }

  function LiveAfter(
    live: map<Name, string>, asked: seq<Source>, script: seq<Answer>, first: nat, confirmed: nat, undo: Option<nat>)
    : map<Name, string>
    requires confirmed <= |asked|
  {
    var put := Puts(live, asked, script, first);
    if undo.None? then put else Deletes(put, asked[..confirmed], script, undo.value)
  }

  lemma LiveAt(
    live: map<Name, string>, asked: seq<Source>, script: seq<Answer>, first: nat, confirmed: nat, undo: Option<nat>,
    i: nat)
    requires DistinctSources(asked) && confirmed <= |asked| && i < |asked|
    ensures var x, after := asked[i].0, LiveAfter(live, asked, script, first, confirmed, undo);
      (x in after && !(x in live && after[x] == live[x])) <==>
        Leaks(live, asked[i], At(script, first + 2 * i), Gone(script, undo, confirmed, i))
  {
    var put := Puts(live, asked, script, first);
    PutsAt(live, asked, script, first, i);
    if undo.Some? {
      if i < confirmed {
        DeletesAt(put, asked[..confirmed], script, undo.value, i);
      } else {
        DeletesElsewhere(put, asked[..confirmed], script, undo.value, asked[i].0);
      }
    }
  }

  lemma LiveElsewhere(
    live: map<Name, string>, asked: seq<Source>, script: seq<Answer>, first: nat, confirmed: nat, undo: Option<nat>,
    x: Name)
    requires confirmed <= |asked| && forall i :: 0 <= i < |asked| ==> asked[i].0 != x
    ensures var after := LiveAfter(live, asked, script, first, confirmed, undo);
      (x in after <==> x in live) && (x in live ==> after[x] == live[x])
  {
    PutsElsewhere(live, asked, script, first, x);
    if undo.Some? { DeletesElsewhere(Puts(live, asked, script, first), asked[..confirmed], script, undo.value, x); }
  }

  /** Nothing new runs exactly when no stream leaks. */
  lemma NothingNewExactly(
    live: map<Name, string>, asked: seq<Source>, script: seq<Answer>, first: nat, confirmed: nat, undo: Option<nat>)
    requires DistinctSources(asked) && confirmed <= |asked|
    ensures NothingNew(live, LiveAfter(live, asked, script, first, confirmed, undo)) <==>
      AllGone(live, asked, script, first, confirmed, undo)
  {
    hide Leaks;
    hide Gone;
    hide LiveAfter;
    var after := LiveAfter(live, asked, script, first, confirmed, undo);
    forall i | 0 <= i < |asked|
      ensures (asked[i].0 in after && !(asked[i].0 in live && after[asked[i].0] == live[asked[i].0])) <==>
        Leaks(live, asked[i], At(script, first + 2 * i), Gone(script, undo, confirmed, i))
    {
      LiveAt(live, asked, script, first, confirmed, undo, i);
    }
    forall x | x in after && forall i :: 0 <= i < |asked| ==> asked[i].0 != x
      ensures x in live && after[x] == live[x]
    {
      LiveElsewhere(live, asked, script, first, confirmed, undo, x);
    }
  }

  // ------------------------------------------------------------------------ theorems

  /** The configuration as it was, but perhaps without Frigate's sample camera. */
  predicate SameConfiguration(before: Site, after: Site) {
    && after.streams == before.streams && after.managed == before.managed
    && (after.cameras == before.cameras || (HasSample(before) && after.cameras == before.cameras - {PLACEHOLDER}))
  }

  predicate Restored(before: Site, after: Site) {
    SameConfiguration(before, after) && NothingNew(before.live, after.live)
  }

  /** The stream is put, and found in the list, whoever put it there. */
  predicate Confirms(live: map<Name, string>, s: Source, put: Answer, list: Answer) {
    put.ok && list.ok && (put.took || s.0 in live)
  }

  /** The first k streams are confirmed, and the next, if there is one, is not. */
  predicate StopsAt(live: map<Name, string>, sources: seq<Source>, script: seq<Answer>, first: nat, k: nat) {
    && k <= |sources|
    && (forall i :: 0 <= i < k ==> Confirms(live, sources[i], At(script, first + 2 * i), At(script, first + 2 * i + 1)))
    && (k < |sources| ==> !Confirms(live, sources[k], At(script, first + 2 * k), At(script, first + 2 * k + 1)))
  }

  /** The camera is shown, shown again once it is stopped, and then written out. */
  predicate TakesOut(script: seq<Answer>, n: nat) {
    At(script, n).ok && At(script, n).took && At(script, n + 3).ok && At(script, n + 3).took && Written(At(script, n + 4))
  }

  /** From the write on, with `asked` running: it had no effect, or the camera was not verified and is taken out. */
  predicate PutsBack(site: Site, asked: seq<Source>, script: seq<Answer>, first: nat, n: nat) {
    var write := if HasSample(site) then n + 1 else n;
    var undo := AfterVerify(script, write + 1);
    if !At(script, write).ok then
      !At(script, write).took && AllGone(site.live, asked, script, first, |asked|, Some(write + 1))
    else
      && !Verified(script, write + 1) && TakesOut(script, undo)
      && AllGone(site.live, asked, script, first, |asked|, if At(script, undo + 4).ok then Some(undo + 5) else None)
  }

  /**
    What the other services have to answer for a job to leave nothing behind: a stream of the camera cannot be looked
    at, or no stream the job put stays and the configuration is not written or is shown twice and written again.
   */
  ghost predicate LeavesNothing(site: Site, key: Name, r: Request, script: seq<Answer>) {
    var n := |Sources(key, r)|;
    (forall i :: 0 <= i < n ==> At(script, i).ok) ==>
      if !At(script, n).ok then PutsBack(site, [], script, n + 1, n + 1)
      else StreamsLeaveNothing(site, Sources(key, r), script, n + 1)
  }

  /** The same from the first stream on, when go2rtc answers. */
  ghost predicate StreamsLeaveNothing(site: Site, sources: seq<Source>, script: seq<Answer>, first: nat) {
    exists k: nat :: StopsAt(site.live, sources, script, first, k) &&
      if k == |sources| then PutsBack(site, sources, script, first, first + 2 * k)
      else AllGone(site.live, sources[..k + 1], script, first, k, Some(Stop(script, first + 2 * k)))
  }

  /** Where the script goes on after a stream that could not be put or not be confirmed. */
  function Stop(script: seq<Answer>, put: nat): nat { if At(script, put).ok then put + 2 else put + 1 }

  lemma {:induction false} SavedNames(added: seq<Source>)
    ensures Saved(added).Keys == Names(added)
  {
    if added != [] {
      assert added == [added[0]] + added[1..];
      SavedNames(added[1..]);
      assert Names(added) == {added[0].0} + Names(added[1..]);
    }
  }

  /** Taking out what was configured under fresh names gives the configuration before it. */
  lemma ConfiguredTakenOut(site: Site, key: Name, r: Request, restreamed: bool, added: seq<Source>)
    requires key !in site.cameras && Names(added) !! site.streams.Keys
    ensures var configured := Configure(site, key, r, restreamed, added);
      && configured.cameras - {key} == site.cameras
      && configured.streams - (Names(added) * configured.streams.Keys) == site.streams
  {
    SavedNames(added);
    var configured := Configure(site, key, r, restreamed, added);
    assert configured.cameras - {key} == site.cameras;
    assert configured.streams - (Names(added) * configured.streams.Keys) == site.streams;
  }

  lemma DropSampleSpec(site: Site, script: seq<Answer>, n: nat)
    ensures var t := DropSample(site, script, n).0;
      && t == site.(cameras := t.cameras)
      && (t.cameras == site.cameras || (HasSample(site) && t.cameras == site.cameras - {PLACEHOLDER}))
  {
  }

  /** What taking out leaves in the configuration, and which removals it gets to ask for. */
  lemma {:induction false} TakeOutSpec(site: Site, key: Name, added: seq<Source>, script: seq<Answer>, n: nat)
    requires key in site.cameras
    ensures var after := TakeOut(site, key, added, script, n).0;
      && after.managed == site.managed
      && (key !in after.cameras <==> TakesOut(script, n))
      && (key !in after.cameras ==>
            && after.cameras == site.cameras - {key}
            && after.streams == site.streams - (Names(added) * site.streams.Keys)
            && after.live == if At(script, n + 4).ok then Deletes(site.live, added, script, n + 5) else site.live)
  {
    if At(script, n).ok && At(script, n).took {
      var stopped := Stopped(site, key, At(script, n + 1), At(script, n + 2));
      assert stopped.cameras - {key} == site.cameras - {key};
    }
  }

  lemma TakeOutElsewhere(site: Site, key: Name, added: seq<Source>, script: seq<Answer>, n: nat, x: Name)
    requires forall i :: 0 <= i < |added| ==> added[i].0 != x
    ensures var after := TakeOut(site, key, added, script, n).0.live;
      (x in after <==> x in site.live) && (x in site.live ==> after[x] == site.live[x])
  {
    forall m ensures var after := Deletes(site.live, added, script, m);
      (x in after <==> x in site.live) && (x in site.live ==> after[x] == site.live[x])
    {
      DeletesElsewhere(site.live, added, script, m, x);
    }
  }

  ghost predicate FreshSources(site: Site, key: Name, sources: seq<Source>) {
    && key !in site.cameras && DistinctSources(sources)
    && forall i :: 0 <= i < |sources| ==> sources[i].0 !in site.streams
  }

  /** The site once `added` were put from the place `first` on and the sample camera perhaps went. */
  predicate Prepared(before: Site, dropped: Site, added: seq<Source>, script: seq<Answer>, first: nat) {
    && dropped == before.(live := Puts(before.live, added, script, first), cameras := dropped.cameras)
    && (dropped.cameras == before.cameras || (HasSample(before) && dropped.cameras == before.cameras - {PLACEHOLDER}))
  }

  lemma NotWrittenRestoresExactly(
    before: Site, dropped: Site, key: Name, r: Request, script: seq<Answer>, first: nat, restreamed: bool,
    added: seq<Source>, write: nat)
    requires FreshSources(before, key, added) && Prepared(before, dropped, added, script, first)
    ensures var written := if Written(At(script, write)) then Configure(dropped, key, r, restreamed, added) else dropped;
      Restored(before, RemoveLive(written, added, script, write + 1)) <==>
        !Written(At(script, write)) && AllGone(before.live, added, script, first, |added|, Some(write + 1))
  {
    hide Puts;
    hide Deletes;
    hide NothingNew;
    hide AllGone;
    assert added[..|added|] == added;
    assert key in Configure(dropped, key, r, restreamed, added).cameras && key !in before.cameras;
    NothingNewExactly(before.live, added, script, first, |added|, Some(write + 1));
  }

  lemma NotVerifiedRestoresExactly(
    before: Site, dropped: Site, key: Name, r: Request, script: seq<Answer>, first: nat, restreamed: bool,
    added: seq<Source>, undo: nat)
    requires FreshSources(before, key, added) && Prepared(before, dropped, added, script, first)
    ensures var configured := Configure(dropped, key, r, restreamed, added);
      Restored(before, TakeOut(configured, key, added, script, undo).0) <==>
        && TakesOut(script, undo)
        && AllGone(before.live, added, script, first, |added|, if At(script, undo + 4).ok then Some(undo + 5) else None)
  {
    hide Puts;
    hide Deletes;
    hide TakeOut;
    hide TakesOut;
    hide NothingNew;
    hide AllGone;
    var configured := Configure(dropped, key, r, restreamed, added);
    assert added[..|added|] == added;
    NamesFresh(added, dropped.streams);
    ConfiguredTakenOut(dropped, key, r, restreamed, added);
    TakeOutSpec(configured, key, added, script, undo);
    NothingNewExactly(
      before.live, added, script, first, |added|, if At(script, undo + 4).ok then Some(undo + 5) else None);
  }

  /** A job whose restreams all started, from `before` when `added` were put from the place `first` on. */
  lemma {:induction false} StartedRestoresExactly(
    before: Site, key: Name, r: Request, script: seq<Answer>, first: nat, restreamed: bool, added: seq<Source>, n: nat)
    requires FreshSources(before, key, added)
    ensures var started := before.(live := Puts(before.live, added, script, first));
      Restored(before, AddStarted(started, key, r, script, restreamed, added, n).site) <==>
        PutsBack(before, added, script, first, n)
  {
    hide Puts;
    hide FreshSources;
    hide TakeOut;
    hide TakesOut;
    hide RemoveLive;
    hide AllGone;
    var started := before.(live := Puts(before.live, added, script, first));
    var (dropped, write) := DropSample(started, script, n);
    DropSampleSpec(started, script, n);
    if !At(script, write).ok {
      NotWrittenRestoresExactly(before, dropped, key, r, script, first, restreamed, added, write);
    } else if !Verified(script, write + 1) {
      NotVerifiedRestoresExactly(before, dropped, key, r, script, first, restreamed, added, AfterVerify(script, write + 1));
    } else {
      RecordedIsNotRestored(before, dropped, key, r, script, first, restreamed, added);
    }
  }

  /** A recorded camera stays configured. */
  lemma RecordedIsNotRestored(
    before: Site, dropped: Site, key: Name, r: Request, script: seq<Answer>, first: nat, restreamed: bool,
    added: seq<Source>)
    requires FreshSources(before, key, added) && Prepared(before, dropped, added, script, first)
    ensures var configured := Configure(dropped, key, r, restreamed, added);
      !Restored(before, configured.(managed := configured.managed + {key}))
  {
    hide Puts;
    hide NothingNew;
    assert key in Configure(dropped, key, r, restreamed, added).cameras && key !in before.cameras;
  }

  lemma NamesFresh(added: seq<Source>, streams: map<Name, string>)
    requires forall i :: 0 <= i < |added| ==> added[i].0 !in streams
    ensures Names(added) !! streams.Keys
  {
  }

  lemma SourcesFresh(site: Site, key: Name, r: Request)
    requires Free(key, site.cameras.Keys + site.streams.Keys)
    ensures FreshSources(site, key, Sources(key, r))
    ensures forall i :: 0 <= i < |Sources(key, r)| ==> Sources(key, r)[i].0 in {key, Sub(key)}
  {
    assert |Sub(key)| != |key|;
  }

  lemma FreshPrefix(site: Site, key: Name, sources: seq<Source>, k: nat)
    requires FreshSources(site, key, sources) && k <= |sources|
    ensures FreshSources(site, key, sources[..k])
  {
  }

  /**
    Whatever the other services answer, the installation is as before the job exactly when they answer as
    `LeavesNothing` says. A stream whose PUT had effect but was not confirmed, a write whose answer was lost, a camera
    that Frigate does not show yet, and a camera that could not be recorded are never undone.
   */
  lemma FailedAddRestoresExactly(site: Site, key: Name, r: Request, script: seq<Answer>)
    requires Free(key, site.cameras.Keys + site.streams.Keys)
    ensures Restored(site, Add(site, key, r, script).site) <==> LeavesNothing(site, key, r, script)
  {
    hide AddChecked;
    hide PutsBack;
    hide StreamsLeaveNothing;
    assert |Sources(key, r)| == if r.sub.Some? then 2 else 1;
    if At(script, 0).ok && (r.sub.None? || At(script, 1).ok) {
      CheckedRestoresExactly(site, key, r, script, |Sources(key, r)|);
    }
  }

  lemma CheckedRestoresExactly(site: Site, key: Name, r: Request, script: seq<Answer>, n: nat)
    requires Free(key, site.cameras.Keys + site.streams.Keys)
    ensures var sources := Sources(key, r);
      Restored(site, AddChecked(site, key, r, script, n).site) <==>
        if !At(script, n).ok then PutsBack(site, [], script, n + 1, n + 1)
        else StreamsLeaveNothing(site, sources, script, n + 1)
  {
    hide Puts;
    hide Deletes;
    hide AllGone;
    hide AddStarted;
    hide Restored;
    hide PutsBack;
    hide StopsAt;
    var sources := Sources(key, r);
    SourcesFresh(site, key, r);
    if !At(script, n).ok {
      NothingPut(site.live, script, n + 1);
      StartedRestoresExactly(site, key, r, script, n + 1, false, [], n + 1);
    } else {
      var first := n + 1;
      AddLiveSpec(site, sources, script, first, []);
      AddLiveStops(site, sources, script, first, []);
      var streamed := AddLive(site, sources, script, first, []);
      var confirmed := |streamed.added|;
      assert streamed.added == sources[..confirmed];
      forall k: nat | StopsAt(site.live, sources, script, first, k) ensures k == confirmed {
        StopsOnce(site.live, sources, script, first, k, confirmed);
      }
      if streamed.ok {
        assert sources[..confirmed] == sources;
        StartedRestoresExactly(site, key, r, script, first, true, sources, streamed.turn);
      } else {
        NotStartedRestoresExactly(site, key, sources, script, first, confirmed, streamed.turn);
      }
    }
  }

  lemma StopsOnce(live: map<Name, string>, sources: seq<Source>, script: seq<Answer>, first: nat, j: nat, k: nat)
    requires StopsAt(live, sources, script, first, j) && StopsAt(live, sources, script, first, k)
    ensures j == k
  {
  }

  /** Where putting the streams stops, told by the answers alone. */
  lemma {:induction false} AddLiveStops(
    site: Site, sources: seq<Source>, script: seq<Answer>, n: nat, added: seq<Source>)
    requires DistinctSources(sources)
    ensures var streamed := AddLive(site, sources, script, n, added);
      var k := |streamed.added| - |added|;
      && 0 <= k <= |sources| && StopsAt(site.live, sources, script, n, k)
      && streamed.turn == if k == |sources| then n + 2 * k else Stop(script, n + 2 * k)
    decreases |sources|
  {
    if sources != [] {
      var s, put := sources[0], At(script, n);
      var next := if put.took then site.(live := site.live[s.0 := s.1]) else site;
      AddLiveSpec(site, sources, script, n, added);
      if put.ok && At(script, n + 1).ok && s.0 in next.live {
        AddLiveStops(next, sources[1..], script, n + 2, added + [s]);
        var k := |AddLive(site, sources, script, n, added).added| - |added|;
        StopsLater(site.live, next.live, sources, script, n, k);
      }
    }
  }

  lemma StopsLater(
    live: map<Name, string>, next: map<Name, string>, sources: seq<Source>, script: seq<Answer>, n: nat, k: nat)
    requires DistinctSources(sources) && 0 < k && sources != []
    requires next == if At(script, n).took then live[sources[0].0 := sources[0].1] else live
    requires Confirms(live, sources[0], At(script, n), At(script, n + 1))
    requires StopsAt(next, sources[1..], script, n + 2, k - 1)
    ensures StopsAt(live, sources, script, n, k)
  {
    forall i | 1 <= i < |sources| && i <= k
      ensures Confirms(live, sources[i], At(script, n + 2 * i), At(script, n + 2 * i + 1))
         <==> Confirms(next, sources[1..][i - 1], At(script, n + 2 + 2 * (i - 1)), At(script, n + 2 + 2 * (i - 1) + 1))
    {
      assert n + 2 + 2 * (i - 1) == n + 2 * i && sources[1..][i - 1] == sources[i];
    }
  }

  lemma NotStartedRestoresExactly(
    site: Site, key: Name, sources: seq<Source>, script: seq<Answer>, first: nat, confirmed: nat, undo: nat)
    requires FreshSources(site, key, sources) && confirmed < |sources|
    ensures var started := site.(live := Puts(site.live, sources[..confirmed + 1], script, first));
      Restored(site, RemoveLive(started, sources[..confirmed], script, undo)) <==>
        AllGone(site.live, sources[..confirmed + 1], script, first, confirmed, Some(undo))
  {
    var asked := sources[..confirmed + 1];
    FreshPrefix(site, key, sources, confirmed + 1);
    NothingNewExactly(site.live, asked, script, first, confirmed, Some(undo));
    assert asked[..confirmed] == sources[..confirmed];
  }

  lemma {:induction false} NothingPut(live: map<Name, string>, script: seq<Answer>, n: nat)
    ensures Puts(live, [], script, n) == live
  {
  }

  /** When nothing ran under the job's own names, what runs then is what ran before. */
  lemma FailedAddRestores(site: Site, key: Name, r: Request, script: seq<Answer>)
    requires Free(key, site.cameras.Keys + site.streams.Keys + site.live.Keys) && LeavesNothing(site, key, r, script)
    ensures var after := Add(site, key, r, script).site;
      SameConfiguration(site, after) && after.live == site.live
  {
    hide Add;
    hide LeavesNothing;
    FailedAddRestoresExactly(site, key, r, script);
    forall x | x in site.live ensures x in Add(site, key, r, script).site.live {
      OthersKeepRunning(site, key, r, script, x);
    }
  }

  /** Whatever happens, only the job's own two names are touched in what runs. */
  lemma OthersKeepRunning(site: Site, key: Name, r: Request, script: seq<Answer>, x: Name)
    requires x != key && x != Sub(key)
    ensures var after := Add(site, key, r, script).site;
      (x in after.live <==> x in site.live) && (x in site.live ==> after.live[x] == site.live[x])
  {
    hide AddChecked;
    CheckedElsewhere(site, key, r, script, |Sources(key, r)|, x);
  }

  lemma CheckedElsewhere(site: Site, key: Name, r: Request, script: seq<Answer>, n: nat, x: Name)
    requires x != key && x != Sub(key)
    ensures var after := AddChecked(site, key, r, script, n).site;
      (x in after.live <==> x in site.live) && (x in site.live ==> after.live[x] == site.live[x])
  {
    hide AddStarted;
    hide AddLive;
    hide Deletes;
    var streamed := AddLive(site, Sources(key, r), script, n + 1, []);
    if At(script, n).ok {
      AddedElsewhere(site, key, r, script, n + 1, x);
      if streamed.ok {
        StartedElsewhere(streamed.site, key, r, script, true, streamed.added, streamed.turn, x);
      } else {
        DeletesElsewhere(streamed.site.live, streamed.added, script, streamed.turn, x);
      }
    } else {
      StartedElsewhere(site, key, r, script, false, [], n + 1, x);
    }
  }

  lemma {:induction false} AddedElsewhere(site: Site, key: Name, r: Request, script: seq<Answer>, n: nat, x: Name)
    requires x != key && x != Sub(key)
    ensures var streamed := AddLive(site, Sources(key, r), script, n, []);
      && (forall i :: 0 <= i < |streamed.added| ==> streamed.added[i].0 != x)
      && (x in streamed.site.live <==> x in site.live)
      && (x in site.live ==> streamed.site.live[x] == site.live[x])
  {
    hide Puts;
    hide AddLive;
    var sources := Sources(key, r);
    AddLiveSpec(site, sources, script, n, []);
    forall k | 0 <= k <= |sources| { PutsElsewhere(site.live, sources[..k], script, n, x); }
  }

  lemma StartedElsewhere(
    site: Site, key: Name, r: Request, script: seq<Answer>, restreamed: bool, added: seq<Source>, n: nat, x: Name)
    requires forall i :: 0 <= i < |added| ==> added[i].0 != x
    ensures var after := AddStarted(site, key, r, script, restreamed, added, n).site;
      (x in after.live <==> x in site.live) && (x in site.live ==> after.live[x] == site.live[x])
  {
    hide TakeOut;
    var (dropped, write) := DropSample(site, script, n);
    DropSampleSpec(site, script, n);
    var configured := if Written(At(script, write)) then Configure(dropped, key, r, restreamed, added) else dropped;
    DeletesElsewhere(site.live, added, script, write + 1, x);
    TakeOutElsewhere(configured, key, added, script, AfterVerify(script, write + 1), x);
  }

  /**
    A job that completes adds exactly its camera, its restreams if go2rtc answered, and its record. Those restreams
    run, with its own source where the PUT had effect; nothing else that runs is touched.
   */
  lemma AddedCameraIsAll(site: Site, key: Name, r: Request, script: seq<Answer>)
    requires Add(site, key, r, script).ending.Completed?
    ensures var report := Add(site, key, r, script);
      var after, sources, n := report.site, Sources(key, r), |Sources(key, r)|;
      var restreamed := At(script, n).ok;
      && report.ending == Completed(restreamed)
      && after.cameras ==
           (if PLACEHOLDER in site.cameras && site.cameras[PLACEHOLDER].sample
               && Written(At(script, if restreamed then n + 1 + 2 * n else n + 1))
            then site.cameras - {PLACEHOLDER} else site.cameras)[key := if restreamed then r.restreamed else r.direct]
      && after.streams == site.streams + (if restreamed then Saved(sources) else map[])
      && after.managed == site.managed + {key}
      && (!restreamed ==> after.live == site.live)
      && (restreamed ==> forall i :: 0 <= i < |sources| ==>
            && sources[i].0 in after.live
            && (At(script, n + 1 + 2 * i).took ==> after.live[sources[i].0] == sources[i].1))
  {
    hide AddLive;
    hide AddStarted;
    var n := |Sources(key, r)|;
    if At(script, n).ok {
      var streamed := AddLive(site, Sources(key, r), script, n + 1, []);
      AddedAll(site, key, r, script, n + 1);
      StartedAddsAll(streamed.site, key, r, script, true, streamed.added, streamed.turn);
    } else {
      StartedAddsAll(site, key, r, script, false, [], n + 1);
    }
  }

  /** When all streams are confirmed they run, each from its own source if its PUT had effect. */
  lemma {:induction false} AddedAll(site: Site, key: Name, r: Request, script: seq<Answer>, n: nat)
    ensures var sources, streamed := Sources(key, r), AddLive(site, Sources(key, r), script, n, []);
      streamed.ok ==>
        && streamed.added == sources && streamed.turn == n + 2 * |sources|
        && streamed.site == site.(live := streamed.site.live)
        && forall i :: 0 <= i < |sources| ==>
             && sources[i].0 in streamed.site.live
             && (At(script, n + 2 * i).took ==> streamed.site.live[sources[i].0] == sources[i].1)
  {
    hide Puts;
    hide AddLive;
    var sources := Sources(key, r);
    SourcesDistinct(key, r);
    AddLiveSpec(site, sources, script, n, []);
    AddLiveStops(site, sources, script, n, []);
    var streamed := AddLive(site, sources, script, n, []);
    if streamed.ok {
      assert sources[..|sources|] == sources && streamed.added == sources;
      ConfirmedRun(site, sources, script, n, []);
      SourcesDistinct(key, r);
      forall i | 0 <= i < |sources|
        ensures sources[i].0 in streamed.site.live
        ensures At(script, n + 2 * i).took ==> streamed.site.live[sources[i].0] == sources[i].1
      {
        assert streamed.added[i] == sources[i];
        PutsAt(site.live, sources, script, n, i);
      }
    }
  }

  lemma SourcesDistinct(key: Name, r: Request)
    ensures DistinctSources(Sources(key, r))
  {
    assert |Sub(key)| != |key|;
  }

  lemma {:induction false} StartedAddsAll(
    site: Site, key: Name, r: Request, script: seq<Answer>, restreamed: bool, added: seq<Source>, n: nat)
    requires AddStarted(site, key, r, script, restreamed, added, n).ending.Completed?
    ensures var report := AddStarted(site, key, r, script, restreamed, added, n);
      var after, camera := report.site, if restreamed then r.restreamed else r.direct;
      && report.ending == Completed(restreamed)
      && after.cameras ==
           (if HasSample(site) && Written(At(script, n)) then site.cameras - {PLACEHOLDER} else site.cameras)[key := camera]
      && after.streams == site.streams + Saved(added)
      && after.managed == site.managed + {key} && after.live == site.live
  {
    DropSampleSpec(site, script, n);
  }

  /** A confirmed stream runs. */
  lemma {:induction false} ConfirmedRun(
    site: Site, sources: seq<Source>, script: seq<Answer>, n: nat, added: seq<Source>)
    requires forall i :: 0 <= i < |added| ==> added[i].0 in site.live
    ensures var r := AddLive(site, sources, script, n, added);
      && (forall x :: x in site.live ==> x in r.site.live)
      && forall i :: 0 <= i < |r.added| ==> r.added[i].0 in r.site.live
    decreases |sources|
  {
    if sources != [] {
      var s, put := sources[0], At(script, n);
      var next := if put.took then site.(live := site.live[s.0 := s.1]) else site;
      if put.ok && At(script, n + 1).ok && s.0 in next.live {
        ConfirmedRun(next, sources[1..], script, n + 2, added + [s]);
      }
    }
  }

  /** From the place `n` on: written, restarted, back, a picture, then saved and remembered. */
  predicate Succeeds(site: Site, r: Request, script: seq<Answer>, n: nat) {
    var write := if HasSample(site) then n + 1 else n;
    && At(script, write).ok && At(script, write + 1).ok && At(script, write + 2).ok && At(script, write + 3).ok
    && At(script, write + 5).ok && (r.password ==> At(script, write + 6).ok)
  }

  /** A job completes exactly when no step fails but those it can do without: go2rtc, the sample, the snapshot. */
  lemma CompletesExactly(site: Site, key: Name, r: Request, script: seq<Answer>)
    ensures var n := |Sources(key, r)|;
      Add(site, key, r, script).ending.Completed? <==>
        && (forall i :: 0 <= i < n ==> At(script, i).ok)
        && if At(script, n).ok then StopsAt(site.live, Sources(key, r), script, n + 1, n) && Succeeds(site, r, script, 3 * n + 1)
           else Succeeds(site, r, script, n + 1)
  {
    hide AddChecked;
    hide StopsAt;
    hide Succeeds;
    assert |Sources(key, r)| == if r.sub.Some? then 2 else 1;
    if At(script, 0).ok && (r.sub.None? || At(script, 1).ok) {
      CheckedCompletes(site, key, r, script, |Sources(key, r)|);
    }
  }

  lemma CheckedCompletes(site: Site, key: Name, r: Request, script: seq<Answer>, n: nat)
    requires n == |Sources(key, r)|
    ensures AddChecked(site, key, r, script, n).ending.Completed? <==>
      if At(script, n).ok then StopsAt(site.live, Sources(key, r), script, n + 1, n) && Succeeds(site, r, script, 3 * n + 1)
      else Succeeds(site, r, script, n + 1)
  {
    hide AddStarted;
    hide Succeeds;
    hide StopsAt;
    var sources := Sources(key, r);
    if At(script, n).ok {
      SourcesDistinct(key, r);
      AddLiveSpec(site, sources, script, n + 1, []);
      AddLiveStops(site, sources, script, n + 1, []);
      var streamed := AddLive(site, sources, script, n + 1, []);
      if StopsAt(site.live, sources, script, n + 1, n) {
        StopsOnce(site.live, sources, script, n + 1, n, |streamed.added|);
      }
      StartedCompletes(streamed.site, key, r, script, true, streamed.added, streamed.turn);
      SucceedsAlike(streamed.site, site, r, script, streamed.turn);
    } else {
      StartedCompletes(site, key, r, script, false, [], n + 1);
    }
  }

  lemma SucceedsAlike(a: Site, b: Site, r: Request, script: seq<Answer>, n: nat)
    requires a.cameras == b.cameras
    ensures Succeeds(a, r, script, n) == Succeeds(b, r, script, n)
  {
  }

  lemma StartedCompletes(
    site: Site, key: Name, r: Request, script: seq<Answer>, restreamed: bool, added: seq<Source>, n: nat)
    ensures AddStarted(site, key, r, script, restreamed, added, n).ending.Completed? <==> Succeeds(site, r, script, n)
  {
    hide TakeOut;
    hide RemoveLive;
    hide Configure;
  }

  /** A camera the clean-up does not get to take out is stopped as far as it was told to be. */
  lemma StoppedAsTold(site: Site, key: Name, added: seq<Source>, script: seq<Answer>, n: nat)
    requires key in site.cameras && key in TakeOut(site, key, added, script, n).0.cameras
    ensures var before, after := site.cameras[key], TakeOut(site, key, added, script, n).0.cameras[key];
      if At(script, n).ok && At(script, n).took then
        after == before.(record := before.record && !Written(At(script, n + 1)),
                         enabled := before.enabled && !Written(At(script, n + 2)))
      else after == before
  {
  }

  // ---------------------------------------------------------------- what stays behind

  const WORKS := Answer(true, true)

  /** The call at the place `failed` fails, every later call returns, and still something stays. */
  ghost predicate StaysBehind(site: Site, key: Name, r: Request, script: seq<Answer>, failed: nat) {
    && Free(key, site.cameras.Keys + site.streams.Keys + site.live.Keys)
    && !Add(site, key, r, script).ending.Completed? && !Restored(site, Add(site, key, r, script).site)
    && !At(script, failed).ok && forall i :: failed < i ==> At(script, i).ok
  }

  /** The list of streams cannot be read after the PUT: the stream goes on running. */
  lemma UnconfirmedStreamStays(key: Name, r: Request)
    requires r.sub.None?
    ensures var site := Site(map[], map[], map[], {});
      var script := [WORKS, WORKS, WORKS, Answer(true, false)];
      StaysBehind(site, key, r, script, |script| - 1) && key in Add(site, key, r, script).site.live
  {
    var site := Site(map[], map[], map[], {});
    var script := [WORKS, WORKS, WORKS, Answer(true, false)];
    var sources := Sources(key, r);
    assert sources == [(key, r.main)] && sources[1..] == [];
    var streamed := AddLive(site, sources, script, 2, []);
    assert streamed == Streaming(site.(live := map[key := r.main]), 4, [], false);
    assert Add(site, key, r, script).site.live == map[key := r.main];
  }

  /** The answer to the write is lost: the camera stays configured although the job failed. */
  lemma UnansweredWriteStays(key: Name, r: Request)
    requires r.sub.None?
    ensures var site := Site(map[], map[], map[], {});
      var script := [WORKS, Answer(true, false), Answer(true, false)];
      StaysBehind(site, key, r, script, |script| - 1) && key in Add(site, key, r, script).site.cameras
  {
    var site := Site(map[], map[], map[], {});
    var script := [WORKS, Answer(true, false), Answer(true, false)];
    assert |Sources(key, r)| == 1 && !HasSample(site);
    assert Add(site, key, r, script).site == Configure(site, key, r, false, []);
  }

  /**
    Frigate refuses to restart and so does not show the camera yet when the job looks for it: it is not taken out, and
    comes to life at the next restart.
   */
  lemma UnseenCameraStays(key: Name, r: Request)
    requires r.sub.None?
    ensures var site := Site(map[], map[], map[], {});
      var script := [WORKS, Answer(true, false), WORKS, Answer(false, false), Answer(false, true)];
      && StaysBehind(site, key, r, script, 3) && Add(site, key, r, script).ending == NotVerified
      && Add(site, key, r, script).site == site.(cameras := map[key := r.direct])
  {
    var site := Site(map[], map[], map[], {});
    var script := [WORKS, Answer(true, false), WORKS, Answer(false, false), Answer(false, true)];
    assert |Sources(key, r)| == 1 && !HasSample(site);
    assert !Verified(script, 3) && AfterVerify(script, 3) == 4;
    assert TakeOut(Configure(site, key, r, false, []), key, [], script, 4).0 == Configure(site, key, r, false, []);
    assert Add(site, key, r, script).site == Configure(site, key, r, false, []);
  }

  /** The record cannot be saved: the camera stays, configured and running. */
  lemma UnrecordedCameraStays(key: Name, r: Request)
    requires r.sub.None?
    ensures var site := Site(map[], map[], map[], {});
      var script := [WORKS, Answer(true, false), WORKS, WORKS, WORKS, WORKS, WORKS, Answer(false, false)];
      StaysBehind(site, key, r, script, |script| - 1) && key in Add(site, key, r, script).site.cameras
  {
    var site := Site(map[], map[], map[], {});
    var script := [WORKS, Answer(true, false), WORKS, WORKS, WORKS, WORKS, WORKS, Answer(false, false)];
    assert |Sources(key, r)| == 1 && !HasSample(site);
    assert Add(site, key, r, script).ending == NotRecorded;
  }
}
