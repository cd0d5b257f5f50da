/** Rates from counters: what one sampler reports over any run of samples. */
module TrafficSampler {
  import opened Common

  const MAX_AGE := 120.0
  const MAX_COUNTER := 18446744073709551615.0

  datatype Direction = Rx | Tx

  datatype Key = Key(channel: string, direction: Direction)

  datatype Mode = Rate(bitsPerUnit: real) | Counter

  /** A number as reported: exact when it did not come as a binary float. */
  datatype Number = Number(value: real, exact: bool)

  /** An entity's report; `known` is false for unknown, unavailable and not_home. */
  datatype Report = Report(known: bool, stamp: Option<real>, number: Option<Number>, sameUnit: bool)

  datatype Status = Available | WarmingUp | Stale | Unavailable

  datatype Entry = Entry(
    current: real, stamp: real, marker: real, value: Option<real>, status: Status, uptime: real)

  type History = map<Key, Entry>

  function Numeric(number: Option<Number>): Option<real> {
    if number.Some? && 0.0 <= number.value.value <= MAX_COUNTER then Some(number.value.value) else None
  }

  predicate Fresh(report: Report, now: real) {
    report.known && report.stamp.Some? && -5.0 <= now - report.stamp.value <= MAX_AGE
  }

  /** What says that a counter runs on: the device's discontinuity marker and its uptime. */
  datatype Continuity = Continuity(marker: Option<real>, uptime: Option<real>)

  predicate RunsOn(previous: Entry, marker: real, uptime: real) {
    marker == previous.marker && uptime >= previous.uptime
  }

  /** A counter sample: the same report again, a step forward, or a new start. */
  function Count(previous: Option<Entry>, current: real, stamp: real, marker: real, uptime: real): Entry {
    if previous.Some? && RunsOn(previous.value, marker, uptime) then
      var before := previous.value;
      var elapsed := stamp - before.stamp;
      if elapsed == 0.0 && current == before.current then
        Entry(current, stamp, marker, before.value, before.status, uptime)
      else if 0.0 < elapsed <= MAX_AGE && current >= before.current then
        Entry(current, stamp, marker, Some((current - before.current) * 8.0 / elapsed), Available, uptime)
      else Entry(current, stamp, marker, None, WarmingUp, uptime)
    else Entry(current, stamp, marker, None, WarmingUp, uptime)
  }

  predicate Whole(x: real) { x == x.Floor as real }

  function InBits(value: real, bitsPerUnit: real): real { value * bitsPerUnit }

  datatype Sampled = Sampled(history: History, value: Option<real>, status: Status)

  function Forget(history: History, key: Key): History { history - {key} }

  function Sample(
    history: History, key: Key, mode: Mode, report: Option<Report>, continuity: Continuity, now: real): Sampled
  {
    if report.None? then Sampled(Forget(history, key), None, Unavailable)
    else if !Fresh(report.value, now) then
      Sampled(Forget(history, key), None, if report.value.known then Stale else Unavailable)
    else
      var current := if report.value.sameUnit then Numeric(report.value.number) else None;
      if current.None? then Sampled(Forget(history, key), None, Unavailable)
      else
        match mode
        case Rate(bits) => Sampled(history, Some(InBits(current.value, bits)), Available)
        case Counter =>
          if continuity.marker.None? || continuity.uptime.None? || !report.value.number.value.exact || !Whole(current.value)
          then Sampled(Forget(history, key), None, Unavailable)
          else
            var entry := Count(if key in history then Some(history[key]) else None, current.value,
                               report.value.stamp.value, continuity.marker.value, continuity.uptime.value);
            Sampled(history[key := entry], entry.value, entry.status)
  }

  /** A device's status: available only when both directions are. */
  function Overall(rx: Status, tx: Status): Status {
    if rx == Available && tx == Available then Available
    else if rx == WarmingUp || tx == WarmingUp then WarmingUp
    else if rx == Stale || tx == Stale then Stale
    else Unavailable
  }

  /** What the platform knows of a channel's entities when it is sampled. */
  datatype Readings = Readings(
    rx: Option<Report>, tx: Option<Report>, marker: Option<Report>, uptime: Option<Report>)

  function FreshNumber(report: Option<Report>, now: real): Option<real> {
    if report.Some? && Fresh(report.value, now) then Numeric(report.value.number) else None
  }

  /** A counter needs fresh numbers for its marker and uptime. */
  function ContinuityOf(mode: Mode, readings: Readings, now: real): Continuity {
    if mode.Counter? then Continuity(FreshNumber(readings.marker, now), FreshNumber(readings.uptime, now))
    else Continuity(None, None)
  }

  function ReportOf(readings: Readings, direction: Direction): Option<Report> {
    if direction.Rx? then readings.rx else readings.tx
  }

  datatype Event =
    | Samples(channel: string, mode: Mode, readings: Readings, now: real)
    | Forgets(channel: string)

  /** What one direction of a sampled channel shows and leaves in the history. */
  function Observe(history: History, e: Event, key: Key): Sampled
    requires e.Samples?
  {
    Sample(history, key, e.mode, ReportOf(e.readings, key.direction), ContinuityOf(e.mode, e.readings, e.now), e.now)
  }

  function Without(history: History, channel: string): History {
    map k | k in history && k.channel != channel :: history[k]
  }

  function Next(history: History, e: Event): History {
    match e
    case Forgets(channel) => Without(history, channel)
    case Samples(channel, _, _, _) =>
      Observe(Observe(history, e, Key(channel, Rx)).history, e, Key(channel, Tx)).history
  }

  class Sampler {
    var history: History

    constructor ()
      ensures history == map[] && AllSound(history)
    {
      history := map[];
    }

    method ForgetChannel(channel: string)
      modifies this
      ensures history == Next(old(history), Forgets(channel))
    {
      var left := history.Keys;
      ghost var before := history;
      while left != {}
        invariant left <= before.Keys
        invariant history == map k | k in before && (k.channel != channel || k in left) :: before[k]
        decreases left
      {
        var k :| k in left;
        if k.channel == channel { history := history - {k}; }
        left := left - {k};
      }
    }

    method SampleDirection(key: Key, mode: Mode, report: Option<Report>, continuity: Continuity, now: real)
      returns (value: Option<real>, status: Status)
      requires AllSound(history)
      modifies this
      ensures AllSound(history)
      ensures Sampled(history, value, status) == Sample(old(history), key, mode, report, continuity, now)
    {
      HistoryStaysSound(history, key, mode, report, continuity, now);
      value, status := None, Unavailable;
      if report.Some? {
        if Fresh(report.value, now) {
          var current := if report.value.sameUnit then Numeric(report.value.number) else None;
          if current.Some? {
            if mode.Rate? {
              value, status := Some(InBits(current.value, mode.bitsPerUnit)), Available;
            } else if continuity.marker.Some? && continuity.uptime.Some? && report.value.number.value.exact
                      && Whole(current.value)
            {
              var entry := Count(if key in history then Some(history[key]) else None, current.value,
                                 report.value.stamp.value, continuity.marker.value, continuity.uptime.value);
              CountSound(if key in history then Some(history[key]) else None, current.value,
                         report.value.stamp.value, continuity.marker.value, continuity.uptime.value);
              value, status := entry.value, entry.status;
              history := history[key := entry];
            }
          }
        } else {
          status := if report.value.known then Stale else Unavailable;
        }
      }
      if status.Unavailable? || status.Stale? {
        history := Forget(history, key);
      }
    }

    /** One channel: both directions, each with its own history. */
    method SampleChannel(channel: string, mode: Mode, readings: Readings, now: real)
      returns (rxRate: Option<real>, txRate: Option<real>, status: Status)
      requires AllSound(history)
      modifies this
      ensures AllSound(history)
      ensures var e := Samples(channel, mode, readings, now);
        var rx, tx := Observe(old(history), e, Key(channel, Rx)), Observe(old(history), e, Key(channel, Tx));
        && history == Next(old(history), e)
        && rxRate == rx.value && txRate == tx.value && status == Overall(rx.status, tx.status)
    {
      var marker, uptime := None, None;
      if mode.Counter? {
        marker := FreshNumber(readings.marker, now);
        uptime := FreshNumber(readings.uptime, now);
      }
      var rxStatus, txStatus;
      rxRate, rxStatus := SampleDirection(Key(channel, Rx), mode, readings.rx, Continuity(marker, uptime), now);
      SampleElsewhere(old(history), Key(channel, Rx), mode, readings.rx, Continuity(marker, uptime), now, Key(channel, Tx));
      SampleLocal(old(history), history, Key(channel, Tx), mode, readings.tx, Continuity(marker, uptime), now);
      txRate, txStatus := SampleDirection(Key(channel, Tx), mode, readings.tx, Continuity(marker, uptime), now);
      status := Overall(rxStatus, txStatus);
    }
  }

  /** What two histories say about one key. */
  ghost predicate SameAt(a: History, b: History, key: Key) {
    (key in a <==> key in b) && (key in a ==> a[key] == b[key])
  }

  lemma SampleElsewhere(
    history: History, key: Key, mode: Mode, report: Option<Report>, continuity: Continuity, now: real, other: Key)
    requires other != key
    ensures SameAt(history, Sample(history, key, mode, report, continuity, now).history, other)
  {
    hide Count;
    hide Numeric;
    hide Fresh;
    hide Whole;
  }

  /** A sample depends on nothing but what the history says about its own key. */
  lemma SampleLocal(
    a: History, b: History, key: Key, mode: Mode, report: Option<Report>, continuity: Continuity, now: real)
    requires SameAt(a, b, key)
    ensures var x := Sample(a, key, mode, report, continuity, now);
      var y := Sample(b, key, mode, report, continuity, now);
      x.value == y.value && x.status == y.status && SameAt(x.history, y.history, key)
  {
    hide Count;
    hide Numeric;
    hide Fresh;
    hide Whole;
  }

  // ------------------------------------------------------------ what one sample shows

  /** A number reported lately, in the channel's unit and in range. */
  predicate Reported(report: Option<Report>, now: real, value: real) {
    && report.Some? && report.value.known && report.value.sameUnit
    && report.value.stamp.Some? && now <= report.value.stamp.value + 120.0 && report.value.stamp.value <= now + 5.0
    && report.value.number.Some? && report.value.number.value.value == value && 0.0 <= value <= 18446744073709551615.0
  }

  predicate IsNumber(n: int, x: real) { n as real == x }

  /** A counter is whole, exact, and comes with the marker and the uptime of its device. */
  ghost predicate Counted(report: Option<Report>, now: real, value: real, continuity: Continuity) {
    && Reported(report, now, value) && report.value.number.value.exact && (exists n: int :: IsNumber(n, value))
    && continuity.marker.Some? && continuity.uptime.Some?
  }

  /** Nothing to show: too old, or not there. */
  predicate ShowsNothing(r: Sampled, history: History, key: Key, report: Option<Report>, now: real) {
    && r.value.None? && r.history == history - {key}
    && r.status ==
         if report.Some? && report.value.known
            && !(report.value.stamp.Some? && now <= report.value.stamp.value + 120.0 && report.value.stamp.value <= now + 5.0)
         then Stale else Unavailable
  }

  lemma WholeIs(x: real)
    ensures Whole(x) <==> exists n: int :: IsNumber(n, x)
  {
    if Whole(x) { assert IsNumber(x.Floor, x); }
    if n: int :| IsNumber(n, x) { assert x.Floor == n; }
  }

  /** A rate is the reported number in bits, and leaves the history as it is. */
  lemma RateShowsItsNumber(
    history: History, key: Key, bits: real, report: Option<Report>, continuity: Continuity, now: real, value: real)
    ensures var r := Sample(history, key, Rate(bits), report, continuity, now);
      && (Reported(report, now, value) ==> r == Sampled(history, Some(value * bits), Available))
      && ((forall v :: !Reported(report, now, v)) ==> ShowsNothing(r, history, key, report, now))
  {
    if Reported(report, now, value) {
      assert Fresh(report.value, now) && Numeric(report.value.number) == Some(value);
      assert InBits(value, bits) == value * bits;
    }
    if forall v :: !Reported(report, now, v) {
      if report.Some? && report.value.number.Some? { assert !Reported(report, now, report.value.number.value.value); }
    }
  }

  /** A counter enters the history with its report, and shows what is entered. */
  lemma CounterEntersHistory(
    history: History, key: Key, report: Option<Report>, continuity: Continuity, now: real, value: real)
    ensures var r := Sample(history, key, Counter, report, continuity, now);
      && (Counted(report, now, value, continuity) ==>
            && key in r.history && r.history == history[key := r.history[key]]
            && r.value == r.history[key].value && r.status == r.history[key].status
            && r.history[key].current == value && r.history[key].stamp == report.value.stamp.value
            && r.history[key].marker == continuity.marker.value && r.history[key].uptime == continuity.uptime.value
            && (key !in history ==> r.value.None? && r.status == WarmingUp))
      && ((forall v :: !Counted(report, now, v, continuity)) ==> ShowsNothing(r, history, key, report, now))
  {
    WholeIs(value);
    if forall v :: !Counted(report, now, v, continuity) {
      if report.Some? && report.value.number.Some? {
        WholeIs(report.value.number.value.value);
        assert !Counted(report, now, report.value.number.value.value, continuity);
      }
    }
    hide Whole;
  }

  /** A report that is fresh and has a number in range. */
  ghost predicate Tells(report: Option<Report>, now: real, v: real) {
    && report.Some? && report.value.known && report.value.stamp.Some?
    && now <= report.value.stamp.value + 120.0 && report.value.stamp.value <= now + 5.0
    && report.value.number.Some? && report.value.number.value.value == v && 0.0 <= v <= 18446744073709551615.0
  }

  /** A counter reads its marker and uptime from their own fresh reports; a rate reads neither. */
  lemma ContinuityIsRead(mode: Mode, readings: Readings, now: real, v: real)
    ensures var c := ContinuityOf(mode, readings, now);
      && (c.marker == Some(v) <==> mode.Counter? && Tells(readings.marker, now, v))
      && (c.uptime == Some(v) <==> mode.Counter? && Tells(readings.uptime, now, v))
  {
  }

  /** A channel is available when both directions are; otherwise one that warms up shows, then one that is stale. */
  lemma ChannelStatusExactly(rx: Status, tx: Status)
    ensures var s := Overall(rx, tx);
      && (s == Available <==> rx == Available && tx == Available)
      && (s == WarmingUp <==> rx == WarmingUp || tx == WarmingUp)
      && (s == Stale <==> (rx == Stale && tx != WarmingUp) || (tx == Stale && rx != WarmingUp))
  {
  }

  // ------------------------------------------------------------------------ theorems

  /** What the history of a counter always says: a rate goes with being available, and none is negative. */
  ghost predicate Sound(e: Entry) {
    (e.status == Available <==> e.value.Some?) && (e.value.Some? ==> e.value.value >= 0.0) &&
    (e.status == Available || e.status == WarmingUp)
  }

  ghost predicate AllSound(history: History) { forall k :: k in history ==> Sound(history[k]) }

  lemma QuotientNotNegative(x: real, y: real)
    requires x >= 0.0 && y > 0.0
    ensures x / y >= 0.0
  {
    assert (x / y) * y == x;
  }

  lemma CountSound(previous: Option<Entry>, current: real, stamp: real, marker: real, uptime: real)
    requires previous.Some? ==> Sound(previous.value)
    ensures Sound(Count(previous, current, stamp, marker, uptime))
  {
    if previous.Some? && stamp - previous.value.stamp > 0.0 && current >= previous.value.current {
      QuotientNotNegative((current - previous.value.current) * 8.0, stamp - previous.value.stamp);
    }
  }

  lemma HistoryStaysSound(
    history: History, key: Key, mode: Mode, report: Option<Report>, continuity: Continuity, now: real)
    requires AllSound(history)
    ensures AllSound(Sample(history, key, mode, report, continuity, now).history)
  {
    if report.Some? && Fresh(report.value, now) && report.value.sameUnit {
      var current := Numeric(report.value.number);
      if current.Some? && continuity.marker.Some? && continuity.uptime.Some? {
        CountSound(if key in history then Some(history[key]) else None, current.value, report.value.stamp.value,
                   continuity.marker.value, continuity.uptime.value);
      }
    }
  }

  /** Whatever is sampled, no reported rate is negative and a rate means available. */
  lemma SampleNeverNegative(
    history: History, key: Key, mode: Mode, report: Option<Report>, continuity: Continuity, now: real)
    requires AllSound(history) && (mode.Rate? ==> mode.bitsPerUnit >= 0.0)
    ensures var r := Sample(history, key, mode, report, continuity, now);
      && AllSound(r.history)
      && (r.status == Available <==> r.value.Some?) && (r.value.Some? ==> r.value.value >= 0.0)
  {
    if report.Some? && Fresh(report.value, now) && report.value.sameUnit {
      var current := Numeric(report.value.number);
      if current.Some? && continuity.marker.Some? && continuity.uptime.Some? {
        CountSound(if key in history then Some(history[key]) else None, current.value, report.value.stamp.value,
                   continuity.marker.value, continuity.uptime.value);
      }
      if current.Some? && mode.Rate? { ProductNotNegative(current.value, mode.bitsPerUnit); }
    }
  }

  lemma ProductNotNegative(x: real, y: real)
    requires x >= 0.0 && y >= 0.0
    ensures x * y >= 0.0
  {
  }

  // ----------------------------------------------------------------------------- runs

  function Run(history: History, events: seq<Event>): History
    decreases |events|
  {
    if events == [] then history else Run(Next(history, events[0]), events[1..])
  }

  /** A run takes every event in turn. */
  lemma {:induction false} RunTakesEach(history: History, events: seq<Event>, e: Event)
    ensures Run(history, events + [e]) == Next(Run(history, events), e)
    decreases |events|
  {
    if events == [] {
      assert [e][1..] == [];
      assert Run(history, [e]) == Run(Next(history, e), []);
    } else {
      assert (events + [e])[1..] == events[1..] + [e];
      RunTakesEach(Next(history, events[0]), events[1..], e);
    }
  }

  /** After an event a key has what it was observed with, unless it is of another channel. */
  lemma NextAt(history: History, e: Event, key: Key)
    ensures e.channel != key.channel ==> SameAt(history, Next(history, e), key)
    ensures e.channel == key.channel && e.Forgets? ==> key !in Next(history, e)
    ensures e.channel == key.channel && e.Samples? ==> SameAt(Observe(history, e, key).history, Next(history, e), key)
  {
    if e.Samples? {
      var rx, tx, c := Key(e.channel, Rx), Key(e.channel, Tx), ContinuityOf(e.mode, e.readings, e.now);
      var first := Observe(history, e, rx).history;
      hide Sample;
      if key != rx { SampleElsewhere(history, rx, e.mode, e.readings.rx, c, e.now, key); }
      if key != tx { SampleElsewhere(first, tx, e.mode, e.readings.tx, c, e.now, key); }
      if key == tx { SampleLocal(history, first, tx, e.mode, e.readings.tx, c, e.now); }
    }
  }

  lemma NextStaysSound(history: History, e: Event)
    requires AllSound(history)
    ensures AllSound(Next(history, e))
  {
    hide Sample;
    if e.Samples? {
      var rx, tx, c := Key(e.channel, Rx), Key(e.channel, Tx), ContinuityOf(e.mode, e.readings, e.now);
      HistoryStaysSound(history, rx, e.mode, e.readings.rx, c, e.now);
      HistoryStaysSound(Observe(history, e, rx).history, tx, e.mode, e.readings.tx, c, e.now);
    }
  }

  lemma {:induction false} RunStaysSound(history: History, events: seq<Event>)
    requires AllSound(history)
    ensures AllSound(Run(history, events))
    decreases |events|
  {
    if events != [] {
      NextStaysSound(history, events[0]);
      RunStaysSound(Next(history, events[0]), events[1..]);
    }
  }

  /** Whatever the sampler went through since it was created, no rate it shows is negative. */
  lemma {:induction false} RatesNeverNegative(events: seq<Event>, e: Event, key: Key)
    requires e.Samples? && (e.mode.Rate? ==> e.mode.bitsPerUnit >= 0.0)
    ensures var r := Observe(Run(map[], events), e, key);
      (r.status == Available <==> r.value.Some?) && (r.value.Some? ==> r.value.value >= 0.0)
  {
    RunStaysSound(map[], events);
    SampleNeverNegative(Run(map[], events), key, e.mode, ReportOf(e.readings, key.direction),
                        ContinuityOf(e.mode, e.readings, e.now), e.now);
  }

  predicate LeavesChannel(events: seq<Event>, channel: string) {
    forall i :: 0 <= i < |events| ==> events[i].channel != channel
  }

  lemma {:induction false} RunElsewhere(history: History, events: seq<Event>, key: Key)
    requires LeavesChannel(events, key.channel)
    ensures SameAt(history, Run(history, events), key)
    decreases |events|
  {
    hide Next;
    if events != [] {
      NextAt(history, events[0], key);
      RunElsewhere(Next(history, events[0]), events[1..], key);
    }
  }

  /** A counter's numbers in an event that samples it, when all of them are there to be recorded. */
  datatype Point = Point(current: real, stamp: real, marker: real, uptime: real)

  function PointOf(e: Event, key: Key): Option<Point>
    requires e.Samples?
  {
    var report, c := ReportOf(e.readings, key.direction), ContinuityOf(e.mode, e.readings, e.now);
    if report.None? || !Fresh(report.value, e.now) || !report.value.sameUnit || Numeric(report.value.number).None?
       || c.marker.None? || c.uptime.None? || !report.value.number.value.exact || !Whole(report.value.number.value.value)
    then None
    else Some(Point(report.value.number.value.value, report.value.stamp.value, c.marker.value, c.uptime.value))
  }

  predicate IsCounter(e: Event, key: Key) { e.Samples? && e.channel == key.channel && e.mode.Counter? }

  lemma ObserveCounter(history: History, e: Event, key: Key)
    requires IsCounter(e, key)
    ensures var r := Observe(history, e, key);
      match PointOf(e, key)
      case None => r.value == None && r.status in {Unavailable, Stale} && key !in r.history
      case Some(p) =>
        var entry := Count(if key in history then Some(history[key]) else None, p.current, p.stamp, p.marker, p.uptime);
        && key in r.history && r.history[key] == entry && r.value == entry.value && r.status == entry.status
        && entry.current == p.current && entry.stamp == p.stamp && entry.marker == p.marker && entry.uptime == p.uptime
  {
  }

  /** Nothing was reset, restarted, set back or too long silent between two points. */
  predicate CountedOn(p: Point, q: Point) {
    q.marker == p.marker && q.uptime >= p.uptime && q.current >= p.current && 0.0 < q.stamp - p.stamp <= MAX_AGE
  }

  /** The device still shows what it showed. */
  predicate SameReport(p: Point, q: Point) {
    q.marker == p.marker && q.uptime >= p.uptime && q.current == p.current && q.stamp == p.stamp
  }

  /**
    When a counter is sampled again, whatever happens to other channels meanwhile, it shows a rate exactly when both
    samples were complete and it counted on, or its report is the same and showed one. So a lower counter, another
    marker, a lower uptime, an earlier report or a gap never gives a rate.
   */
  lemma {:induction false} RateExactlyWhenCountedOn(
    history: History, e: Event, between: seq<Event>, again: Event, key: Key)
    requires IsCounter(e, key) && IsCounter(again, key) && LeavesChannel(between, key.channel)
    requires AllSound(history)
    ensures var first := Observe(history, e, key);
      var later := Observe(Run(Next(history, e), between), again, key);
      var p, q := PointOf(e, key), PointOf(again, key);
      && (later.value.Some? <==>
            && p.Some? && q.Some?
            && (CountedOn(p.value, q.value) || (SameReport(p.value, q.value) && first.value.Some?)))
      && (later.value.Some? && CountedOn(p.value, q.value) ==>
            later.value.value == (q.value.current - p.value.current) * 8.0 / (q.value.stamp - p.value.stamp))
  {
    hide Sample;
    hide Observe;
    hide PointOf;
    hide Next;
    var meanwhile := Run(Next(history, e), between);
    NextAt(history, e, key);
    NextStaysSound(history, e);
    RunElsewhere(Next(history, e), between, key);
    ObserveCounter(history, e, key);
    ObserveCounter(meanwhile, again, key);
    var p := PointOf(e, key);
    if p.Some? {
      CountSound(if key in history then Some(history[key]) else None, p.value.current, p.value.stamp,
                 p.value.marker, p.value.uptime);
      CountPrevious(meanwhile[key], PointOf(again, key));
    }
  }

  lemma CountPrevious(before: Entry, q: Option<Point>)
    requires Sound(before)
    ensures var p := Point(before.current, before.stamp, before.marker, before.uptime);
      q.Some? ==>
        var entry := Count(Some(before), q.value.current, q.value.stamp, q.value.marker, q.value.uptime);
        && (entry.value.Some? <==> CountedOn(p, q.value) || (SameReport(p, q.value) && before.value.Some?))
        && (SameReport(p, q.value) ==> entry.value == before.value && entry.status == before.status)
        && (CountedOn(p, q.value) ==>
              entry.value == Some((q.value.current - p.current) * 8.0 / (q.value.stamp - p.stamp)))
  {
  }

  /** Sampling the same report again, with whatever between for other channels, shows the same. */
  lemma {:induction false} RereadRepeats(history: History, e: Event, between: seq<Event>, again: Event, key: Key)
    requires IsCounter(e, key) && IsCounter(again, key) && LeavesChannel(between, key.channel)
    requires AllSound(history)
    requires PointOf(e, key).Some? && PointOf(again, key).Some? && SameReport(PointOf(e, key).value, PointOf(again, key).value)
    ensures var first := Observe(history, e, key);
      var later := Observe(Run(Next(history, e), between), again, key);
      later.value == first.value && later.status == first.status
  {
    hide Sample;
    hide Observe;
    hide PointOf;
    hide Next;
    var meanwhile := Run(Next(history, e), between);
    NextAt(history, e, key);
    RunElsewhere(Next(history, e), between, key);
    ObserveCounter(history, e, key);
    ObserveCounter(meanwhile, again, key);
    var p := PointOf(e, key).value;
    CountSound(if key in history then Some(history[key]) else None, p.current, p.stamp, p.marker, p.uptime);
    CountPrevious(meanwhile[key], PointOf(again, key));
  }

  /** A counter that was forgotten starts anew. */
  lemma {:induction false} ForgottenStartsAnew(history: History, between: seq<Event>, again: Event, key: Key)
    requires IsCounter(again, key) && LeavesChannel(between, key.channel)
    ensures Observe(Run(Next(history, Forgets(key.channel)), between), again, key).value == None
  {
    hide Sample;
    hide Observe;
    var forgotten := Next(history, Forgets(key.channel));
    RunElsewhere(forgotten, between, key);
    ObserveCounter(Run(forgotten, between), again, key);
  }

  // -------------------------------------------------------------------- conservation

  datatype Logged = Logged(point: Option<Point>, value: Option<real>)

  /** Every time the run samples this counter: its numbers and the rate shown. */
  function Log(history: History, events: seq<Event>, key: Key): seq<Logged>
    decreases |events|
  {
    if events == [] then []
    else
      (if IsCounter(events[0], key) then [Logged(PointOf(events[0], key), Observe(history, events[0], key).value)] else [])
      + Log(Next(history, events[0]), events[1..], key)
  }

  predicate ShowsRates(log: seq<Logged>) { forall i :: 0 <= i < |log| ==> log[i].value.Some? }

  predicate AllRates(log: seq<Logged>) { forall i :: 0 <= i < |log| ==> log[i].point.Some? && log[i].value.Some? }

  /** The traffic the rates shown stand for, from one sample of the counter to the next. */
  function Traffic(last: Point, log: seq<Logged>): real
    requires AllRates(log)
    decreases |log|
  {
    if log == [] then 0.0
    else
      var p := log[0].point.value;
      log[0].value.value * (p.stamp - last.stamp) + Traffic(p, log[1..])
  }

  function LastOf(last: Point, log: seq<Logged>): Point
    requires AllRates(log)
  {
    if log == [] then last else log[|log| - 1].point.value
  }

  ghost predicate Remembers(history: History, key: Key, last: Point) {
    key in history ==> history[key].current == last.current && history[key].stamp == last.stamp
  }

  lemma CountReports(before: Entry, q: Point)
    requires Sound(before) && Count(Some(before), q.current, q.stamp, q.marker, q.uptime).value.Some?
    ensures Count(Some(before), q.current, q.stamp, q.marker, q.uptime).value.value * (q.stamp - before.stamp) ==
      (q.current - before.current) * 8.0
  {
  }

  /** One sample that shows a rate accounts for what the counter advanced since the one before. */
  lemma RateAccounts(history: History, e: Event, key: Key, last: Point)
    requires AllSound(history) && Remembers(history, key, last) && IsCounter(e, key)
    requires Observe(history, e, key).value.Some?
    ensures PointOf(e, key).Some?
    ensures var q := PointOf(e, key).value;
      && Observe(history, e, key).value.value * (q.stamp - last.stamp) == (q.current - last.current) * 8.0
      && Remembers(Next(history, e), key, q)
  {
    hide Sample;
    hide Observe;
    hide PointOf;
    hide Next;
    ObserveCounter(history, e, key);
    NextAt(history, e, key);
    if PointOf(e, key).Some? {
      if key in history { CountReports(history[key], PointOf(e, key).value); }
    }
  }

  lemma {:induction false} ConservedFrom(history: History, events: seq<Event>, key: Key, last: Point)
    requires AllSound(history) && Remembers(history, key, last)
    requires ShowsRates(Log(history, events, key))
    ensures AllRates(Log(history, events, key))
    ensures Traffic(last, Log(history, events, key)) ==
      (LastOf(last, Log(history, events, key)).current - last.current) * 8.0
    decreases |events|
  {
    if events != [] {
      hide Sample;
      hide Observe;
      hide PointOf;
      hide Next;
      hide Log;
      hide Traffic;
      hide LastOf;
      hide AllRates;
      hide ShowsRates;
      var e, log := events[0], Log(history, events, key);
      var rest := Log(Next(history, e), events[1..], key);
      LogCons(history, events, key);
      NextStaysSound(history, e);
      if IsCounter(e, key) {
        RateAccounts(history, e, key, last);
        ConservedFrom(Next(history, e), events[1..], key, PointOf(e, key).value);
        ConservedStep(history, e, key, last, log, rest);
      } else {
        StaysRemembered(history, e, key, last);
        ConservedFrom(Next(history, e), events[1..], key, last);
      }
    } else {
      assert Log(history, events, key) == [];
    }
  }

  lemma {:induction false} ConservedStep(
    history: History, e: Event, key: Key, last: Point, log: seq<Logged>, rest: seq<Logged>)
    requires IsCounter(e, key) && PointOf(e, key).Some? && Observe(history, e, key).value.Some?
    requires log == [Logged(PointOf(e, key), Observe(history, e, key).value)] + rest && AllRates(rest)
    requires var q := PointOf(e, key).value;
      && Observe(history, e, key).value.value * (q.stamp - last.stamp) == (q.current - last.current) * 8.0
      && Traffic(q, rest) == (LastOf(q, rest).current - q.current) * 8.0
    ensures AllRates(log) && Traffic(last, log) == (LastOf(last, log).current - last.current) * 8.0
  {
    hide Observe;
    hide PointOf;
    hide Traffic;
    hide LastOf;
    TrafficCons(last, log, rest);
  }

  lemma {:induction false} LogCons(history: History, events: seq<Event>, key: Key)
    requires events != []
    ensures var log, rest := Log(history, events, key), Log(Next(history, events[0]), events[1..], key);
      if IsCounter(events[0], key) then
        var l := Logged(PointOf(events[0], key), Observe(history, events[0], key).value);
        log == [l] + rest && log[0] == l && (ShowsRates(log) <==> l.value.Some? && ShowsRates(rest))
      else log == rest
  {
    hide Observe;
    hide PointOf;
    hide Next;
    var log, rest := Log(history, events, key), Log(Next(history, events[0]), events[1..], key);
    var none: seq<Logged> := [];
    assert none + rest == rest;
    if IsCounter(events[0], key) && ShowsRates(log) {
      forall i | 0 <= i < |rest| ensures rest[i].value.Some? { assert log[i + 1] == rest[i]; }
    }
  }

  lemma {:induction false} TrafficCons(last: Point, log: seq<Logged>, rest: seq<Logged>)
    requires log != [] && log[0].point.Some? && log[0].value.Some? && log == [log[0]] + rest && AllRates(rest)
    ensures AllRates(log)
    ensures Traffic(last, log) ==
      log[0].value.value * (log[0].point.value.stamp - last.stamp) + Traffic(log[0].point.value, rest)
    ensures LastOf(last, log) == LastOf(log[0].point.value, rest)
  {
    assert log[1..] == rest;
  }

  /** Samples in bits per second neither write a counter's history nor invent one. */
  lemma StaysRemembered(history: History, e: Event, key: Key, last: Point)
    requires Remembers(history, key, last) && !IsCounter(e, key)
    ensures Remembers(Next(history, e), key, last)
  {
    NextAt(history, e, key);
  }

  /**
    Traffic is conserved: over any run of the sampler, with other channels, other modes and forgetting in between, if
    every sample of a counter after the first shows a rate, these rates times the time between the samples add up to
    eight times what the counter advanced.
   */
  lemma {:induction false} TrafficIsConserved(before: seq<Event>, first: Event, events: seq<Event>, key: Key)
    requires IsCounter(first, key) && PointOf(first, key).Some?
    requires ShowsRates(Log(Next(Run(map[], before), first), events, key))
    ensures var log, p := Log(Next(Run(map[], before), first), events, key), PointOf(first, key).value;
      AllRates(log) && Traffic(p, log) == (LastOf(p, log).current - p.current) * 8.0
  {
    hide Sample;
    hide Observe;
    hide PointOf;
    hide Next;
    var history := Run(map[], before);
    RunStaysSound(map[], before);
    NextStaysSound(history, first);
    NextAt(history, first, key);
    ObserveCounter(history, first, key);
    ConservedFrom(Next(history, first), events, key, PointOf(first, key).value);
  }
}
