/** Making a camera's plate list equal the platform's. */
module PlateSync {
  import opened Common
  import opened DecimalText

  datatype Kind = Allow | Block

  type Day = int

  const FIRST_DAY: Day := 730120
  const LAST_DAY: Day := 743999
  const MAX_NOTES := 16
  const DELETE_BATCH := 50

  /** One entry of the platform's list; plates are normalized when it is saved. */
  datatype Entry = Entry(
    plate: string, kind: Kind, name: Option<string>, from: Option<Day>, until: Option<Day>, enabled: bool)

  /** What the camera keeps about a plate. */
  datatype Content = Content(kind: Kind, enabled: bool, start: Option<int>, end: Option<int>, notes: string)

  /** A listed row: the plate as typed on the camera, and normalized. */
  datatype Row = Row(raw: string, plate: string, content: Content)

  datatype Target = Target(plate: string, content: Content)

  /** A time zone: when a day starts and ends, and the day of a moment. */
  datatype Zone = Zone(startOf: Day -> int, endOf: Day -> int, dayOf: int -> Day)

  function DayStart(day: Option<Day>, zone: Zone): int {
    zone.startOf(if day.Some? && day.value > FIRST_DAY then day.value else FIRST_DAY)
  }

  function DayEnd(day: Option<Day>, zone: Zone): int {
    zone.endOf(if day.Some? && day.value < LAST_DAY then day.value else LAST_DAY)
  }

  /** Days are sent within the limits of the page; a missing bound is its limit. */
  lemma BoundsAreSent(day: Option<Day>, zone: Zone)
    ensures day.None? || day.value <= FIRST_DAY ==> DayStart(day, zone) == zone.startOf(FIRST_DAY)
    ensures day.Some? && day.value >= FIRST_DAY ==> DayStart(day, zone) == zone.startOf(day.value)
    ensures day.None? || day.value >= LAST_DAY ==> DayEnd(day, zone) == zone.endOf(LAST_DAY)
    ensures day.Some? && day.value <= LAST_DAY ==> DayEnd(day, zone) == zone.endOf(day.value)
  {
  }

  function Take(s: string, n: nat): string { if |s| <= n then s else s[..n] }

  function Notes(name: Option<string>): string { if name.Some? then Take(name.value, MAX_NOTES) else "" }

  function WantedRow(e: Entry, zone: Zone): Target {
    Target(e.plate, Content(e.kind, e.enabled, Some(DayStart(e.from, zone)), Some(DayEnd(e.until, zone)), Notes(e.name)))
  }

  // -------------------------------------------------------------------- normalizing

  predicate IsPlateChar(c: char) { '0' <= c <= '9' || 'A' <= c <= 'Z' }

  function PlateChars(s: string): string {
    if s == "" then "" else (if IsPlateChar(s[0]) then [s[0]] else []) + PlateChars(s[1..])
  }

  /** `upper` is the library's upper-casing. */
  function Normalize(raw: string, upper: string -> string): string { Take(PlateChars(upper(raw)), 12) }

  predicate AllPlateChars(s: string) { forall i :: 0 <= i < |s| ==> IsPlateChar(s[i]) }

  ghost predicate KeepsPlates(upper: string -> string) { forall s :: AllPlateChars(s) ==> upper(s) == s }

  lemma {:induction false} PlateCharsSpec(s: string)
    ensures AllPlateChars(PlateChars(s))
    ensures AllPlateChars(s) ==> PlateChars(s) == s
  {
    if s != "" { PlateCharsSpec(s[1..]); }
  }

  /** A normalized plate is its own normal form. */
  lemma NormalizeIsIdempotent(raw: string, upper: string -> string)
    requires KeepsPlates(upper)
    ensures Normalize(Normalize(raw, upper), upper) == Normalize(raw, upper)
  {
    PlateCharsSpec(upper(raw));
    var plate := Normalize(raw, upper);
    assert AllPlateChars(plate);
    PlateCharsSpec(plate);
  }

  /** A plate is the upper-cased text's digits and letters from A to Z, in order, at most twelve of them. */
  lemma NormalizeKeepsExactly(raw: string, upper: string -> string, kept: string)
    requires kept == Those(upper(raw), (c: char) => c in "0123456789ABCDEFGHIJKLMNOPQRSTUVWXYZ")
    ensures Normalize(raw, upper) == if |kept| <= 12 then kept else kept[..12]
  {
    PlateCharsAre(upper(raw), (c: char) => c in "0123456789ABCDEFGHIJKLMNOPQRSTUVWXYZ");
  }

  lemma {:induction false} PlateCharsAre(s: string, chosen: char -> bool)
    requires forall c :: chosen(c) == (c in "0123456789ABCDEFGHIJKLMNOPQRSTUVWXYZ")
    ensures PlateChars(s) == Those(s, chosen)
  {
    if s != "" {
      PlateCharsAre(s[1..], chosen);
      PlateCharIs(s[0]);
      hide IsPlateChar;
    }
  }

  lemma PlateCharIs(c: char)
    ensures IsPlateChar(c) <==> c in "0123456789ABCDEFGHIJKLMNOPQRSTUVWXYZ"
  {
    var all := "0123456789ABCDEFGHIJKLMNOPQRSTUVWXYZ";
    assert forall i :: 0 <= i < 10 ==> all[i] as int == 48 + i;
    assert forall i :: 10 <= i < 36 ==> all[i] as int == 55 + i;
    if '0' <= c <= '9' { assert all[c as int - 48] == c; }
    if 'A' <= c <= 'Z' { assert all[c as int - 55] == c; }
  }

  // ----------------------------------------------------------------------- planning

  function Wanted(entries: seq<Entry>, zone: Zone): map<string, Target> {
    if entries == [] then map[]
    else
      var n := |entries| - 1;
      Wanted(entries[..n], zone)[entries[n].plate := WantedRow(entries[n], zone)]
  }

  datatype Update = Update(former: string, target: Target)

  datatype Plan = Plan(adds: seq<Target>, updates: seq<Update>, removals: seq<string>)

  /** What is to be done about the rows, given the plates already kept. */
  function PlanRows(wanted: map<string, Target>, rows: seq<Row>, kept: set<string>): (seq<Update>, seq<string>, set<string>)
    decreases |rows|
  {
    if rows == [] then ([], [], kept)
    else
      var row := rows[0];
      if row.plate !in wanted || row.plate in kept then
        var (updates, removals, all) := PlanRows(wanted, rows[1..], kept);
        (updates, [row.raw] + removals, all)
      else
        var target := wanted[row.plate];
        var (updates, removals, all) := PlanRows(wanted, rows[1..], kept + {row.plate});
        (if row.content != target.content || row.raw != row.plate then [Update(row.raw, target)] + updates else updates,
         removals, all)
  }

  function Adds(wanted: map<string, Target>, entries: seq<Entry>, kept: set<string>): seq<Target> {
    if entries == [] then []
    else
      (if entries[0].plate in wanted && entries[0].plate !in kept then [wanted[entries[0].plate]] else [])
      + Adds(wanted, entries[1..], kept + {entries[0].plate})
  }

  function PlanSync(entries: seq<Entry>, rows: seq<Row>, zone: Zone): Plan {
    var wanted := Wanted(entries, zone);
    var (updates, removals, kept) := PlanRows(wanted, rows, {});
    Plan(Adds(wanted, entries, kept), updates, removals)
  }

  method WantedRows(entries: seq<Entry>, zone: Zone) returns (wanted: map<string, Target>)
    ensures wanted == Wanted(entries, zone)
  {
    wanted := map[];
    for i := 0 to |entries|
      invariant wanted == Wanted(entries[..i], zone)
    {
      assert entries[..i + 1][..i] == entries[..i];
      wanted := wanted[entries[i].plate := WantedRow(entries[i], zone)];
    }
    assert entries[..|entries|] == entries;
  }

  /** Sort the camera's rows into those to change and those to remove. */
  method SortRows(wanted: map<string, Target>, rows: seq<Row>)
    returns (updates: seq<Update>, removals: seq<string>, kept: set<string>)
    ensures (updates, removals, kept) == PlanRows(wanted, rows, {})
  {
    updates, removals, kept := [], [], {};
    ghost var (first, second, _) := PlanRows(wanted, rows, {});
    assert rows[0..] == rows && [] + first == first && [] + second == second;
    for i := 0 to |rows|
      invariant Sorted(updates, removals, PlanRows(wanted, rows[i..], kept)) == PlanRows(wanted, rows, {})
    {
      assert rows[i..][1..] == rows[i + 1..];
      var row := rows[i];
      if row.plate !in wanted || row.plate in kept {
        SortedNext(updates, removals, None, Some(row.raw), PlanRows(wanted, rows[i + 1..], kept));
        removals := removals + [row.raw];
      } else {
        kept := kept + {row.plate};
        var target := wanted[row.plate];
        if row.content != target.content || row.raw != row.plate {
          SortedNext(updates, removals, Some(Update(row.raw, target)), None, PlanRows(wanted, rows[i + 1..], kept));
          updates := updates + [Update(row.raw, target)];
        }
      }
    }
    assert rows[|rows|..] == [];
    assert updates + [] == updates && removals + [] == removals;
  }

  function Sorted(
    updates: seq<Update>, removals: seq<string>, more: (seq<Update>, seq<string>, set<string>))
    : (seq<Update>, seq<string>, set<string>)
  {
    (updates + more.0, removals + more.1, more.2)
  }

  function Single<T>(x: Option<T>): seq<T> { if x.Some? then [x.value] else [] }

  lemma SortedNext(
    updates: seq<Update>, removals: seq<string>, update: Option<Update>, removal: Option<string>,
    more: (seq<Update>, seq<string>, set<string>))
    ensures Sorted(updates, removals, (Single(update) + more.0, Single(removal) + more.1, more.2)) ==
      Sorted(updates + Single(update), removals + Single(removal), more)
    ensures update.None? ==> Single(update) + more.0 == more.0 && updates + Single(update) == updates
    ensures removal.None? ==> Single(removal) + more.1 == more.1 && removals + Single(removal) == removals
  {
    Regroup(updates, Single(update), more.0);
    Regroup(removals, Single(removal), more.1);
  }

  method MissingRows(wanted: map<string, Target>, entries: seq<Entry>, kept: set<string>) returns (adds: seq<Target>)
    ensures adds == Adds(wanted, entries, kept)
  {
    adds := [];
    var seen := kept;
    assert entries[0..] == entries;
    for i := 0 to |entries|
      invariant adds + Adds(wanted, entries[i..], seen) == Adds(wanted, entries, kept)
    {
      assert entries[i..][1..] == entries[i + 1..];
      var plate := entries[i].plate;
      if plate in wanted && plate !in seen {
        ghost var rest := Adds(wanted, entries[i + 1..], seen + {plate});
        assert adds + ([wanted[plate]] + rest) == adds + [wanted[plate]] + rest;
        adds := adds + [wanted[plate]];
      }
      seen := seen + {plate};
    }
    assert entries[|entries|..] == [];
    assert adds + [] == adds;
  }

  method PlanChanges(entries: seq<Entry>, rows: seq<Row>, zone: Zone) returns (plan: Plan)
    ensures plan == PlanSync(entries, rows, zone)
  {
    var wanted := WantedRows(entries, zone);
    var updates, removals, kept := SortRows(wanted, rows);
    var adds := MissingRows(wanted, entries, kept);
    plan := Plan(adds, updates, removals);
  }

  // ------------------------------------------------------------------------ merging

  predicate Bound(seconds: Option<int>, zone: Zone, last: bool) {
    seconds.Some?
    && if last then zone.dayOf(seconds.value) < LAST_DAY else zone.dayOf(seconds.value) > FIRST_DAY
  }

  /** A validity bound as a day; the page's own limits mean none. */
  function DayOf(seconds: Option<int>, zone: Zone, last: bool): Option<Day> {
    if Bound(seconds, zone, last) then Some(zone.dayOf(seconds.value)) else None
  }

  ghost predicate Calendar(zone: Zone) {
    forall d :: zone.dayOf(zone.startOf(d)) == d && zone.dayOf(zone.endOf(d)) == d
  }

  /** Validity days survive the camera, except that the page's own limits read back as no limit. */
  lemma ValidityReadsBack(from: Option<Day>, until: Option<Day>, zone: Zone)
    requires Calendar(zone)
    ensures DayOf(Some(DayStart(from, zone)), zone, false) ==
      if from.Some? && from.value > FIRST_DAY then from else None
    ensures DayOf(Some(DayEnd(until, zone)), zone, true) ==
      if until.Some? && until.value < LAST_DAY then until else None
  {
    var first := if from.Some? && from.value > FIRST_DAY then from.value else FIRST_DAY;
    var last := if until.Some? && until.value < LAST_DAY then until.value else LAST_DAY;
    assert zone.dayOf(zone.startOf(first)) == first;
    assert zone.dayOf(zone.endOf(last)) == last;
  }

  function EntryFor(row: Row, zone: Zone): Entry {
    var start, until := DayOf(row.content.start, zone, false), DayOf(row.content.end, zone, true);
    Entry(row.plate, row.content.kind, if row.content.notes == "" then None else Some(row.content.notes), start,
          if start.Some? && until.Some? && until.value < start.value then None else until, row.content.enabled)
  }

  /** Of a name the camera keeps sixteen characters, and no white space around them. */
  function NoteBack(name: Option<string>): Option<string> {
    var note := Strip(if name.None? then "" else if |name.value| <= 16 then name.value else name.value[..16]);
    if note == "" then None else Some(note)
  }

  function FromBack(day: Option<Day>): Option<Day> { if day.Some? && day.value > FIRST_DAY then day else None }

  function UntilBack(day: Option<Day>): Option<Day> { if day.Some? && day.value < LAST_DAY then day else None }

  /**
    What was sent to the camera is read back as the entry it came from: its plate, kind and whether it is enabled, its
    days but for the page's own limits, and as much of its name as the camera keeps. An end before its start is lost.
   */
  lemma EntryReadsBack(e: Entry, raw: string, zone: Zone)
    requires Calendar(zone)
    ensures var from, until := FromBack(e.from), UntilBack(e.until);
      EntryFor(Row(raw, e.plate, Kept(WantedRow(e, zone).content)), zone) ==
        Entry(e.plate, e.kind, NoteBack(e.name), from,
              if from.Some? && until.Some? && until.value < from.value then None else until, e.enabled)
  {
    ValidityReadsBack(e.from, e.until, zone);
    hide Strip;
  }

  function Plates(entries: seq<Entry>): set<string> { set e | e in entries :: e.plate }

  function Extra(rows: seq<Row>, have: set<string>, zone: Zone): seq<Entry> {
    if rows == [] then []
    else if |rows[0].plate| < 2 || rows[0].plate in have then Extra(rows[1..], have, zone)
    else [EntryFor(rows[0], zone)] + Extra(rows[1..], have + {rows[0].plate}, zone)
  }

  /** The platform's list, and the camera's plates it lacks. */
  function Merge(entries: seq<Entry>, rows: seq<Row>, zone: Zone): seq<Entry> {
    entries + Extra(rows, Plates(entries), zone)
  }

  method MergeRows(entries: seq<Entry>, rows: seq<Row>, zone: Zone) returns (merged: seq<Entry>)
    ensures merged == Merge(entries, rows, zone)
  {
    hide EntryFor;
    var have, extra := Plates(entries), [];
    for i := 0 to |rows|
      invariant extra + Extra(rows[i..], have, zone) == Extra(rows, Plates(entries), zone)
    {
      assert rows[i..][1..] == rows[i + 1..];
      var row := rows[i];
      if |row.plate| >= 2 && row.plate !in have {
        ghost var rest := Extra(rows[i + 1..], have + {row.plate}, zone);
        assert extra + ([EntryFor(row, zone)] + rest) == extra + [EntryFor(row, zone)] + rest;
        have := have + {row.plate};
        extra := extra + [EntryFor(row, zone)];
      }
    }
    assert rows[|rows|..] == [];
    assert extra + [] == extra;
    merged := entries + extra;
  }

  // ----------------------------------------------------------------- the camera's list

  /** The camera's list as it reads back: notes come back without spaces around them. */
  type Camera = map<string, Content>

  function Kept(c: Content): Content { c.(notes := Strip(c.notes)) }

  datatype Refusal = NoSuchPlate | PlateExists

  function Elements(plates: seq<string>): set<string> { set p | p in plates }

  function Remove(camera: Camera, plates: seq<string>): Camera { camera - Elements(plates) }

  function Modify(camera: Camera, u: Update): Result<Camera, Refusal> {
    if u.former !in camera then Failure(NoSuchPlate)
    else if u.target.plate != u.former && u.target.plate in camera then Failure(PlateExists)
    else Success((camera - {u.former})[u.target.plate := Kept(u.target.content)])
  }

  function Insert(camera: Camera, t: Target): Result<Camera, Refusal> {
    if t.plate in camera then Failure(PlateExists) else Success(camera[t.plate := Kept(t.content)])
  }

  function ModifyAll(camera: Camera, updates: seq<Update>): Result<Camera, Refusal>
    decreases |updates|
  {
    if updates == [] then Success(camera)
    else
      match Modify(camera, updates[0])
      case Failure(refusal) => Failure(refusal)
      case Success(next) => ModifyAll(next, updates[1..])
  }

  function InsertAll(camera: Camera, adds: seq<Target>): Result<Camera, Refusal>
    decreases |adds|
  {
    if adds == [] then Success(camera)
    else
      match Insert(camera, adds[0])
      case Failure(refusal) => Failure(refusal)
      case Success(next) => InsertAll(next, adds[1..])
  }

  function Apply(camera: Camera, plan: Plan): Result<Camera, Refusal> {
    match ModifyAll(Remove(camera, plan.removals), plan.updates)
    case Failure(refusal) => Failure(refusal)
    case Success(next) => InsertAll(next, plan.adds)
  }

  /** The camera after as many renames and changes as it takes. */
  function ModifyMost(camera: Camera, updates: seq<Update>): Camera
    decreases |updates|
  {
    if updates == [] || Modify(camera, updates[0]).Failure? then camera
    else ModifyMost(Modify(camera, updates[0]).value, updates[1..])
  }

  function InsertMost(camera: Camera, adds: seq<Target>): Camera
    decreases |adds|
  {
    if adds == [] || Insert(camera, adds[0]).Failure? then camera
    else InsertMost(Insert(camera, adds[0]).value, adds[1..])
  }

  /** What an exchange leaves on the camera, refused or not: every step before the first refusal. */
  function Left(camera: Camera, plan: Plan): Camera {
    var start := Remove(camera, plan.removals);
    match ModifyAll(start, plan.updates)
    case Failure(_) => ModifyMost(start, plan.updates)
    case Success(next) => InsertMost(next, plan.adds)
  }

  /** A row is renamed or changed exactly when it is listed and its new plate is not another row's. */
  lemma ModifiesExactly(camera: Camera, u: Update)
    ensures match Modify(camera, u)
      case Failure(NoSuchPlate) => u.former !in camera
      case Failure(PlateExists) => u.former in camera && u.target.plate in camera && u.target.plate != u.former
      case Success(next) =>
        && u.former in camera && (u.target.plate in camera ==> u.target.plate == u.former)
        && next.Keys == camera.Keys - {u.former} + {u.target.plate} && next[u.target.plate] == Kept(u.target.content)
        && forall p :: p in next && p != u.target.plate ==> next[p] == camera[p]
  {
  }

  /** A row is added exactly when its plate is not listed. */
  lemma InsertsExactly(camera: Camera, t: Target)
    ensures match Insert(camera, t)
      case Failure(why) => t.plate in camera && why == PlateExists
      case Success(next) =>
        && t.plate !in camera && next.Keys == camera.Keys + {t.plate} && next[t.plate] == Kept(t.content)
        && forall p :: p in camera ==> next[p] == camera[p]
  {
  }

  lemma {:induction false} ModifiesUntilRefused(camera: Camera, updates: seq<Update>) returns (n: nat)
    ensures n <= |updates| && ModifyAll(camera, updates[..n]) == Success(ModifyMost(camera, updates))
    ensures n < |updates| ==> Modify(ModifyMost(camera, updates), updates[n]).Failure?
    ensures n < |updates| <==> ModifyAll(camera, updates).Failure?
    ensures ModifyAll(camera, updates).Success? ==> ModifyAll(camera, updates).value == ModifyMost(camera, updates)
    decreases |updates|
  {
    hide Modify;
    n := 0;
    if updates != [] && Modify(camera, updates[0]).Success? {
      var next := Modify(camera, updates[0]).value;
      var more := ModifiesUntilRefused(next, updates[1..]);
      n := more + 1;
      assert updates[..n][0] == updates[0] && updates[..n][1..] == updates[1..][..more];
    }
  }

  lemma {:induction false} InsertsUntilRefused(camera: Camera, adds: seq<Target>) returns (n: nat)
    ensures n <= |adds| && InsertAll(camera, adds[..n]) == Success(InsertMost(camera, adds))
    ensures n < |adds| ==> Insert(InsertMost(camera, adds), adds[n]).Failure?
    decreases |adds|
  {
    hide Insert;
    n := 0;
    if adds != [] && Insert(camera, adds[0]).Success? {
      var next := Insert(camera, adds[0]).value;
      var more := InsertsUntilRefused(next, adds[1..]);
      n := more + 1;
      assert adds[..n][0] == adds[0] && adds[..n][1..] == adds[1..][..more];
    }
  }

  /** An exchange leaves every removal and every step before the first one that is refused, and no other. */
  lemma LeftExactly(camera: Camera, plan: Plan) returns (i: nat, j: nat)
    ensures i <= |plan.updates| && j <= |plan.adds| && (i < |plan.updates| ==> j == 0)
    ensures Apply(camera, Plan(plan.adds[..j], plan.updates[..i], plan.removals)) == Success(Left(camera, plan))
    ensures i < |plan.updates| ==> Modify(Left(camera, plan), plan.updates[i]).Failure?
    ensures i == |plan.updates| && j < |plan.adds| ==> Insert(Left(camera, plan), plan.adds[j]).Failure?
  {
    hide Modify;
    hide Insert;
    var start := Remove(camera, plan.removals);
    i := ModifiesUntilRefused(start, plan.updates);
    j := 0;
    if i == |plan.updates| {
      assert plan.updates[..i] == plan.updates;
      j := InsertsUntilRefused(ModifyMost(start, plan.updates), plan.adds);
    } else {
      assert plan.adds[..j] == [];
    }
  }

  class CameraSession {
    var camera: Camera
    var batches: seq<seq<string>>

    constructor (camera: Camera)
      ensures this.camera == camera && batches == []
    {
      this.camera, batches := camera, [];
    }

    method Delete(plates: seq<string>)
      modifies this
      ensures camera == Remove(old(camera), plates) && batches == old(batches) + [plates]
    {
      camera := Remove(camera, plates);
      batches := batches + [plates];
    }

    /** Removals go in batches that cover each of them once. */
    method DeleteAll(removals: seq<string>)
      modifies this
      ensures camera == Remove(old(camera), removals)
      ensures old(batches) <= batches && Concat(batches[|old(batches)|..]) == removals
      ensures forall b :: b in batches[|old(batches)|..] ==> 1 <= |b| <= DELETE_BATCH
    {
      var start := 0;
      while start < |removals|
        invariant 0 <= start <= |removals|
        invariant camera == Remove(old(camera), removals[..start])
        invariant old(batches) <= batches && Concat(batches[|old(batches)|..]) == removals[..start]
        invariant forall b :: b in batches[|old(batches)|..] ==> 1 <= |b| <= DELETE_BATCH
      {
        var end := if start + DELETE_BATCH < |removals| then start + DELETE_BATCH else |removals|;
        ghost var done := batches[|old(batches)|..];
        assert removals[..end] == removals[..start] + removals[start..end];
        RemoveTwice(old(camera), removals[..start], removals[start..end]);
        ConcatSnoc(done, removals[start..end]);
        Delete(removals[start..end]);
        assert batches[|old(batches)|..] == done + [removals[start..end]];
        start := end;
      }
      assert removals[..start] == removals;
    }

    /** Removals first, then renames and changes, then new plates; the first refusal stops. */
    method ApplyPlates(plan: Plan) returns (refusal: Option<Refusal>)
      modifies this
      ensures camera == Left(old(camera), plan)
      ensures match Apply(old(camera), plan)
        case Success(after) => refusal == None && camera == after
        case Failure(why) => refusal == Some(why)
    {
      DeleteAll(plan.removals);
      ghost var start := camera;
      for i := 0 to |plan.updates|
        invariant ModifyAll(camera, plan.updates[i..]) == ModifyAll(start, plan.updates)
        invariant ModifyMost(camera, plan.updates[i..]) == ModifyMost(start, plan.updates)
      {
        assert plan.updates[i..][1..] == plan.updates[i + 1..];
        var next := Modify(camera, plan.updates[i]);
        if next.Failure? { return Some(next.error); }
        camera := next.value;
      }
      assert plan.updates[|plan.updates|..] == [];
      ghost var modified := camera;
      for i := 0 to |plan.adds|
        invariant InsertAll(camera, plan.adds[i..]) == InsertAll(modified, plan.adds)
        invariant InsertMost(camera, plan.adds[i..]) == InsertMost(modified, plan.adds)
      {
        assert plan.adds[i..][1..] == plan.adds[i + 1..];
        var next := Insert(camera, plan.adds[i]);
        if next.Failure? { return Some(next.error); }
        camera := next.value;
      }
      assert plan.adds[|plan.adds|..] == [];
      refusal := None;
    }
  }

  lemma RemoveTwice(camera: Camera, a: seq<string>, b: seq<string>)
    ensures Remove(Remove(camera, a), b) == Remove(camera, a + b)
  {
    assert Elements(a + b) == Elements(a) + Elements(b);
  }

  // ----------------------------------------------------------------- the rows that stay

  function KeptRows(wanted: map<string, Target>, rows: seq<Row>, kept: set<string>): seq<Row>
    decreases |rows|
  {
    if rows == [] then []
    else if rows[0].plate !in wanted || rows[0].plate in kept then KeptRows(wanted, rows[1..], kept)
    else [rows[0]] + KeptRows(wanted, rows[1..], kept + {rows[0].plate})
  }

  function UpdatesFor(wanted: map<string, Target>, rows: seq<Row>): seq<Update>
    requires forall r :: r in rows ==> r.plate in wanted
  {
    if rows == [] then []
    else
      var target := wanted[rows[0].plate];
      (if rows[0].content != target.content || rows[0].raw != rows[0].plate then [Update(rows[0].raw, target)] else [])
      + UpdatesFor(wanted, rows[1..])
  }

  function PlateSet(rows: seq<Row>): set<string> { set r | r in rows :: r.plate }

  function RawSet(rows: seq<Row>): set<string> { set r | r in rows :: r.raw }

  predicate DistinctPlates(rows: seq<Row>) {
    forall i, j :: 0 <= i < j < |rows| ==> rows[i].plate != rows[j].plate
  }

  predicate DistinctRaws(rows: seq<Row>) { forall i, j :: 0 <= i < j < |rows| ==> rows[i].raw != rows[j].raw }

  lemma PlateSetCons(row: Row, rest: seq<Row>)
    ensures PlateSet([row] + rest) == {row.plate} + PlateSet(rest) && RawSet([row] + rest) == {row.raw} + RawSet(rest)
  {
    assert forall r :: r in [row] + rest <==> r == row || r in rest;
  }

  lemma DistinctTail(rows: seq<Row>)
    requires rows != [] && DistinctRaws(rows)
    ensures DistinctRaws(rows[1..]) && rows[0].raw !in RawSet(rows[1..])
  {
    var rest := rows[1..];
    forall i, j | 0 <= i < j < |rest| ensures rest[i].raw != rest[j].raw {
      assert rest[i] == rows[i + 1] && rest[j] == rows[j + 1];
    }
    forall r | r in rest ensures r.raw != rows[0].raw {
      var i :| 0 <= i < |rest| && rest[i] == r;
      assert rows[i + 1] == r;
    }
  }

  /** Planning keeps the first row of every wanted plate and removes every other row. */
  lemma {:induction false} PlanKeepsFirst(wanted: map<string, Target>, rows: seq<Row>, kept: set<string>)
    requires DistinctRaws(rows)
    ensures var k, (updates, removals, all) := KeptRows(wanted, rows, kept), PlanRows(wanted, rows, kept);
      && (forall r :: r in k ==> r in rows && r.plate in wanted && r.plate !in kept)
      && DistinctPlates(k) && DistinctRaws(k)
      && updates == UpdatesFor(wanted, k) && all == kept + PlateSet(k)
      && Elements(removals) == RawSet(rows) - RawSet(k)
    decreases |rows|
  {
    if rows != [] {
      var row, rest := rows[0], rows[1..];
      assert rows == [row] + rest;
      DistinctTail(rows);
      PlateSetCons(row, rest);
      if row.plate !in wanted || row.plate in kept {
        PlanKeepsFirst(wanted, rest, kept);
        var (updates, removals, all) := PlanRows(wanted, rest, kept);
        var k := KeptRows(wanted, rest, kept);
        assert RawSet(k) <= RawSet(rest);
        assert Elements([row.raw] + removals) == {row.raw} + Elements(removals);
      } else {
        PlanKeepsFirst(wanted, rest, kept + {row.plate});
        var k := KeptRows(wanted, rest, kept + {row.plate});
        PlateSetCons(row, k);
        assert RawSet(k) <= RawSet(rest);
        ConsDistinct(row, k);
      }
    }
  }

  lemma ConsDistinct(row: Row, k: seq<Row>)
    requires DistinctPlates(k) && DistinctRaws(k)
    requires forall r :: r in k ==> r.plate != row.plate && r.raw != row.raw
    ensures DistinctPlates([row] + k) && DistinctRaws([row] + k)
  {
  }

  // -------------------------------------------------------------------- renaming rows

  /** Half-way through the updates: some plates are as wanted, the other rows as listed. */
  function Half(camera: Camera, wanted: map<string, Target>, done: set<string>, todo: set<string>): Camera {
    (map p | p in done && p in wanted :: Kept(wanted[p].content)) + (map k | k in todo && k in camera :: camera[k])
  }

  ghost predicate Listed(camera: Camera, row: Row, upper: string -> string) {
    && row.raw in camera && camera[row.raw] == row.content && row.plate == Normalize(row.raw, upper)
    && Strip(row.content.notes) == row.content.notes
  }

  ghost predicate WantedPlates(wanted: map<string, Target>) { forall p :: p in wanted ==> wanted[p].plate == p }

  /** Renaming one row to its plate meets no other, and leaves the row as wanted. */
  lemma RowRenamed(
    camera: Camera, wanted: map<string, Target>, done: set<string>, raw: string, plate: string, rest: set<string>)
    requires plate in wanted && plate !in done && plate !in rest && done <= wanted.Keys
    requires raw in camera && raw !in done && raw !in rest && done !! rest
    ensures var before := Half(camera, wanted, done, {raw} + rest);
      && raw in before && (plate != raw ==> plate !in before)
      && (before - {raw})[plate := Kept(wanted[plate].content)] == Half(camera, wanted, done + {plate}, rest)
  {
    hide Kept;
    var before, after := Half(camera, wanted, done, {raw} + rest), Half(camera, wanted, done + {plate}, rest);
    var moved := (before - {raw})[plate := Kept(wanted[plate].content)];
    assert moved.Keys == after.Keys;
    forall k | k in after ensures moved[k] == after[k] { }
  }

  lemma RowStays(
    camera: Camera, wanted: map<string, Target>, done: set<string>, plate: string, rest: set<string>)
    requires plate in wanted && plate !in done && plate !in rest && done <= wanted.Keys
    requires plate in camera && camera[plate] == Kept(wanted[plate].content)
    ensures Half(camera, wanted, done, {plate} + rest) == Half(camera, wanted, done + {plate}, rest)
  {
  }

  lemma RowUpdated(
    camera: Camera, wanted: map<string, Target>, done: set<string>, row: Row, rest: set<string>, upper: string -> string)
    requires WantedPlates(wanted) && done <= wanted.Keys && Listed(camera, row, upper)
    requires row.plate in wanted && row.plate !in done && row.plate !in rest
    requires row.raw !in done && row.raw !in rest && done !! rest
    ensures var before := Half(camera, wanted, done, {row.raw} + rest);
      var after := Half(camera, wanted, done + {row.plate}, rest);
      var target := wanted[row.plate];
      if row.content != target.content || row.raw != row.plate
      then Modify(before, Update(row.raw, target)) == Success(after)
      else before == after
  {
    var target := wanted[row.plate];
    RowRenamed(camera, wanted, done, row.raw, row.plate, rest);
    if row.content == target.content && row.raw == row.plate {
      RowStays(camera, wanted, done, row.plate, rest);
    }
  }

  ghost predicate Todo(
    camera: Camera, wanted: map<string, Target>, done: set<string>, todo: seq<Row>, upper: string -> string)
  {
    && DistinctPlates(todo) && DistinctRaws(todo)
    && forall r :: r in todo ==> Listed(camera, r, upper) && r.plate in wanted && r.plate !in done && r.raw !in done
  }

  lemma {:induction false} AllRowsUpdated(
    camera: Camera, wanted: map<string, Target>, done: set<string>, todo: seq<Row>, upper: string -> string)
    requires KeepsPlates(upper) && WantedPlates(wanted) && done <= wanted.Keys && Todo(camera, wanted, done, todo, upper)
    ensures ModifyAll(Half(camera, wanted, done, RawSet(todo)), UpdatesFor(wanted, todo)) ==
      Success(Half(camera, wanted, done + PlateSet(todo), {}))
    decreases |todo|
  {
    if todo == [] {
      assert done + PlateSet(todo) == done && RawSet(todo) == {};
    } else {
      var row, rest := todo[0], todo[1..];
      assert todo == [row] + rest;
      PlateSetCons(row, rest);
      TodoTail(camera, wanted, done, todo, upper);
      RowUpdated(camera, wanted, done, row, RawSet(rest), upper);
      AllRowsUpdated(camera, wanted, done + {row.plate}, rest, upper);
      assert done + {row.plate} + PlateSet(rest) == done + PlateSet(todo);
      UpdatesCons(wanted, row, rest);
    }
  }

  lemma {:induction false} UpdatesCons(wanted: map<string, Target>, row: Row, rest: seq<Row>)
    requires forall r :: r in [row] + rest ==> r.plate in wanted
    ensures row in [row] + rest
    ensures forall r :: r in rest ==> r.plate in wanted
    ensures UpdatesFor(wanted, [row] + rest) ==
      if row.content != wanted[row.plate].content || row.raw != row.plate
      then [Update(row.raw, wanted[row.plate])] + UpdatesFor(wanted, rest) else UpdatesFor(wanted, rest)
  {
    assert row in [row] + rest;
    assert forall r :: r in rest ==> r in [row] + rest;
    assert ([row] + rest)[1..] == rest;
  }

  lemma TodoTail(
    camera: Camera, wanted: map<string, Target>, done: set<string>, todo: seq<Row>, upper: string -> string)
    requires KeepsPlates(upper) && todo != [] && Todo(camera, wanted, done, todo, upper)
    ensures var row, rest := todo[0], todo[1..];
      && Listed(camera, row, upper) && row.plate in wanted && row.plate !in done && row.raw !in done
      && row.plate !in RawSet(rest) && row.raw !in RawSet(rest) && done !! RawSet(rest)
      && Todo(camera, wanted, done + {row.plate}, rest, upper)
  {
    var row, rest := todo[0], todo[1..];
    NormalizeIsIdempotent(row.raw, upper);
    assert row in todo;
    forall i, j | 0 <= i < j < |rest| ensures rest[i].plate != rest[j].plate && rest[i].raw != rest[j].raw {
      assert rest[i] == todo[i + 1] && rest[j] == todo[j + 1];
    }
    forall r | r in rest
      ensures r in todo && r.plate != row.plate && r.raw != row.raw && r.raw != row.plate
    {
      var i :| 0 <= i < |rest| && rest[i] == r;
      assert todo[i + 1] == r;
      assert Listed(camera, r, upper);
    }
  }

  // ------------------------------------------------------------------------ theorems

  predicate DistinctEntries(entries: seq<Entry>) {
    forall i, j :: 0 <= i < j < |entries| ==> entries[i].plate != entries[j].plate
  }

  /** The camera's list when it equals the platform's. */
  function WantedCamera(wanted: map<string, Target>): Camera { map p | p in wanted :: Kept(wanted[p].content) }

  lemma {:induction false} WantedSpec(entries: seq<Entry>, zone: Zone)
    ensures Wanted(entries, zone).Keys == Plates(entries) && WantedPlates(Wanted(entries, zone))
    ensures DistinctEntries(entries) ==> forall e :: e in entries ==> Wanted(entries, zone)[e.plate] == WantedRow(e, zone)
  {
    if entries != [] {
      var n := |entries| - 1;
      WantedSpec(entries[..n], zone);
      assert entries == entries[..n] + [entries[n]];
      if DistinctEntries(entries) {
        forall e | e in entries[..n] ensures e.plate != entries[n].plate {
          var i :| 0 <= i < n && entries[..n][i] == e;
          assert entries[i] == e;
        }
      }
    }
  }

  /** The list once these plates have been added to it. */
  function Filled(wanted: map<string, Target>, camera: Camera, plates: set<string>): Camera
    requires plates <= wanted.Keys
  {
    camera + (map p | p in plates && p !in camera :: Kept(wanted[p].content))
  }

  lemma {:induction false} AllInserted(
    wanted: map<string, Target>, entries: seq<Entry>, kept: set<string>, camera: Camera)
    requires WantedPlates(wanted) && camera.Keys == kept && Plates(entries) <= wanted.Keys
    ensures InsertAll(camera, Adds(wanted, entries, kept)) == Success(Filled(wanted, camera, Plates(entries)))
    decreases |entries|
  {
    if entries == [] {
      assert Filled(wanted, camera, Plates(entries)) == camera;
    } else {
      var e, rest := entries[0], entries[1..];
      assert entries == [e] + rest;
      PlatesCons(e, rest);
      if e.plate !in kept {
        FilledNext(wanted, camera, e.plate, Plates(rest));
        InsertNext(wanted, camera, e, rest, kept);
        AllInserted(wanted, rest, kept + {e.plate}, camera[e.plate := Kept(wanted[e.plate].content)]);
      } else {
        NoInsert(wanted, camera, e, rest, kept);
        AllInserted(wanted, rest, kept, camera);
      }
    }
  }

  lemma {:induction false} NoInsert(
    wanted: map<string, Target>, camera: Camera, e: Entry, rest: seq<Entry>, kept: set<string>)
    requires e.plate in kept && camera.Keys == kept && {e.plate} + Plates(rest) <= wanted.Keys
    ensures Adds(wanted, [e] + rest, kept) == Adds(wanted, rest, kept)
    ensures Filled(wanted, camera, {e.plate} + Plates(rest)) == Filled(wanted, camera, Plates(rest))
  {
    assert kept + {e.plate} == kept;
    var all := [e] + rest;
    assert all[0] == e && all[1..] == rest;
    var none: seq<Target> := [];
    assert none + Adds(wanted, rest, kept) == Adds(wanted, rest, kept);
    FilledAlready(wanted, camera, e.plate, Plates(rest));
  }

  lemma FilledAlready(wanted: map<string, Target>, camera: Camera, plate: string, plates: set<string>)
    requires plate in camera && {plate} + plates <= wanted.Keys
    ensures Filled(wanted, camera, {plate} + plates) == Filled(wanted, camera, plates)
  {
  }

  lemma FilledNext(wanted: map<string, Target>, camera: Camera, plate: string, plates: set<string>)
    requires plate in wanted && plates <= wanted.Keys && plate !in camera
    ensures Filled(wanted, camera[plate := Kept(wanted[plate].content)], plates) ==
      Filled(wanted, camera, {plate} + plates)
  {
  }

  lemma {:induction false} InsertNext(
    wanted: map<string, Target>, camera: Camera, e: Entry, rest: seq<Entry>, kept: set<string>)
    requires WantedPlates(wanted) && e.plate in wanted && e.plate !in kept && camera.Keys == kept
    ensures InsertAll(camera, Adds(wanted, [e] + rest, kept)) ==
      InsertAll(camera[e.plate := Kept(wanted[e.plate].content)], Adds(wanted, rest, kept + {e.plate}))
  {
    assert ([e] + rest)[1..] == rest;
    var more := Adds(wanted, rest, kept + {e.plate});
    assert Adds(wanted, [e] + rest, kept) == [wanted[e.plate]] + more;
    assert ([wanted[e.plate]] + more)[1..] == more;
  }

  lemma PlatesCons(e: Entry, rest: seq<Entry>)
    ensures Plates([e] + rest) == {e.plate} + Plates(rest)
  {
    assert forall x :: x in [e] + rest <==> x == e || x in rest;
  }

  /** The rows are a listing of the camera. */
  ghost predicate Lists(rows: seq<Row>, camera: Camera, upper: string -> string) {
    DistinctRaws(rows) && RawSet(rows) == camera.Keys && forall r :: r in rows ==> Listed(camera, r, upper)
  }

  /**
    Applying a plan never collides and leaves exactly the platform's list on the camera, for every
    platform list with distinct plates and every camera list with distinct plates as typed.
   */
  lemma {:induction false} SyncYieldsWanted(
    entries: seq<Entry>, rows: seq<Row>, camera: Camera, zone: Zone, upper: string -> string)
    requires KeepsPlates(upper) && Lists(rows, camera, upper)
    ensures Apply(camera, PlanSync(entries, rows, zone)) == Success(WantedCamera(Wanted(entries, zone)))
  {
    var wanted, plan := Wanted(entries, zone), PlanSync(entries, rows, zone);
    var k := KeptRows(wanted, rows, {});
    WantedSpec(entries, zone);
    PlanKeepsFirst(wanted, rows, {});
    RemovedLeavesKept(wanted, camera, rows, k, plan.removals);
    assert Todo(camera, wanted, {}, k, upper);
    AllRowsUpdated(camera, wanted, {}, k, upper);
    assert {} + PlateSet(k) == PlateSet(k);
    KeptFilled(wanted, camera, k, Plates(entries));
    AllInserted(wanted, entries, PlateSet(k), Half(camera, wanted, PlateSet(k), {}));
  }

  lemma RemovedLeavesKept(
    wanted: map<string, Target>, camera: Camera, rows: seq<Row>, k: seq<Row>, removals: seq<string>)
    requires RawSet(rows) == camera.Keys && Elements(removals) == RawSet(rows) - RawSet(k)
    requires forall r :: r in k ==> r in rows
    ensures Remove(camera, removals) == Half(camera, wanted, {}, RawSet(k))
  {
    assert RawSet(k) <= RawSet(rows);
  }

  lemma KeptFilled(wanted: map<string, Target>, camera: Camera, k: seq<Row>, plates: set<string>)
    requires plates == wanted.Keys && forall r :: r in k ==> r.plate in wanted
    ensures Half(camera, wanted, PlateSet(k), {}).Keys == PlateSet(k)
    ensures Filled(wanted, Half(camera, wanted, PlateSet(k), {}), plates) == WantedCamera(wanted)
  {
  }

  predicate Duplicate(rows: seq<Row>, i: nat)
    requires i < |rows|
  {
    exists j :: 0 <= j < i && rows[j].plate == rows[i].plate
  }

  predicate Unkept(wanted: map<string, Target>, rows: seq<Row>, kept: set<string>, i: nat)
    requires i < |rows|
  {
    rows[i].plate !in wanted || rows[i].plate in kept || Duplicate(rows, i)
  }

  /** No camera row goes but a second row of a wanted plate, or a row of a plate not wanted. */
  lemma {:induction false} RemovedForReason(wanted: map<string, Target>, rows: seq<Row>, kept: set<string>, raw: string)
    requires raw in PlanRows(wanted, rows, kept).1
    ensures exists i :: 0 <= i < |rows| && rows[i].raw == raw && Unkept(wanted, rows, kept, i)
    decreases |rows|
  {
    var row, rest := rows[0], rows[1..];
    if (row.plate !in wanted || row.plate in kept) && raw == row.raw {
      assert Unkept(wanted, rows, kept, 0);
    } else {
      var more := if row.plate !in wanted || row.plate in kept then kept else kept + {row.plate};
      RemovedForReason(wanted, rest, more, raw);
      var i :| 0 <= i < |rest| && rest[i].raw == raw && Unkept(wanted, rest, more, i);
      assert rows[i + 1] == rest[i];
      if rest[i].plate in wanted && rest[i].plate !in kept {
        if rest[i].plate in more {
          assert rows[0].plate == rows[i + 1].plate;
        } else {
          var j :| 0 <= j < i && rest[j].plate == rest[i].plate;
          assert rows[j + 1].plate == rows[i + 1].plate;
        }
      }
      assert Unkept(wanted, rows, kept, i + 1);
    }
  }

  lemma {:induction false} ExtraSpec(rows: seq<Row>, have: set<string>, zone: Zone)
    ensures have + Plates(Extra(rows, have, zone)) == have + set r | r in rows && |r.plate| >= 2 :: r.plate
    ensures forall e :: e in Extra(rows, have, zone) ==> e.plate !in have
    ensures DistinctEntries(Extra(rows, have, zone))
    decreases |rows|
  {
    if rows != [] {
      var row, rest := rows[0], rows[1..];
      assert rows == [row] + rest;
      if |row.plate| < 2 || row.plate in have {
        ExtraSpec(rest, have, zone);
      } else {
        ExtraSpec(rest, have + {row.plate}, zone);
        var more := Extra(rest, have + {row.plate}, zone);
        var all := [EntryFor(row, zone)] + more;
        assert Extra(rows, have, zone) == all;
        assert Plates(all) == {row.plate} + Plates(more);
      }
    }
  }

  /** A first setup loses nothing: after merging, only duplicates and plates too short to be one are removed. */
  lemma MergedPlanRemovesOnlyDuplicates(entries: seq<Entry>, rows: seq<Row>, zone: Zone, raw: string)
    requires raw in PlanSync(Merge(entries, rows, zone), rows, zone).removals
    ensures exists i :: 0 <= i < |rows| && rows[i].raw == raw && (|rows[i].plate| < 2 || Duplicate(rows, i))
  {
    var merged := Merge(entries, rows, zone);
    var wanted := Wanted(merged, zone);
    WantedSpec(merged, zone);
    ExtraSpec(rows, Plates(entries), zone);
    RemovedForReason(wanted, rows, {}, raw);
    var i :| 0 <= i < |rows| && rows[i].raw == raw && Unkept(wanted, rows, {}, i);
    if rows[i].plate !in wanted && |rows[i].plate| >= 2 {
      assert rows[i] in rows;
      assert rows[i].plate in Plates(entries) + Plates(Extra(rows, Plates(entries), zone));
      MergedPlates(entries, Extra(rows, Plates(entries), zone));
    }
  }

  lemma MergedPlates(a: seq<Entry>, b: seq<Entry>)
    ensures Plates(a + b) == Plates(a) + Plates(b)
  {
    assert forall e :: e in a + b <==> e in a || e in b;
  }

  /** Merging adds no plate twice. */
  lemma MergeKeepsDistinct(entries: seq<Entry>, rows: seq<Row>, zone: Zone)
    requires DistinctEntries(entries)
    ensures DistinctEntries(Merge(entries, rows, zone))
  {
    ExtraSpec(rows, Plates(entries), zone);
    var extra := Extra(rows, Plates(entries), zone);
    var all := entries + extra;
    forall i, j | 0 <= i < j < |all| ensures all[i].plate != all[j].plate {
      if i < |entries| <= j {
        assert entries[i] in entries && extra[j - |entries|] in extra;
      }
    }
  }

  predicate NotesKept(entries: seq<Entry>) {
    forall e :: e in entries ==> Strip(Notes(e.name)) == Notes(e.name)
  }

  /** Once the lists are equal there is nothing to add or remove, whatever order the camera lists them in. */
  lemma {:induction false} NothingToAddOrRemove(
    entries: seq<Entry>, rows: seq<Row>, zone: Zone, upper: string -> string)
    requires Lists(rows, WantedCamera(Wanted(entries, zone)), upper)
    requires forall e :: e in entries ==> Normalize(e.plate, upper) == e.plate
    ensures var plan := PlanSync(entries, rows, zone); plan.adds == [] && plan.removals == []
  {
    hide PlateSet;
    hide Elements;
    hide Normalize;
    hide Wanted;
    hide PlanRows;
    hide WantedCamera;
    var wanted := Wanted(entries, zone);
    WantedSpec(entries, zone);
    EqualRows(entries, rows, zone, upper);
    PlanKeepsFirst(wanted, rows, {});
    AllKept(wanted, rows, {});
    var (updates, removals, kept) := PlanRows(wanted, rows, {});
    FirstElement(removals);
    assert kept == PlateSet(rows);
    NoAdds(wanted, entries, kept);
  }

  lemma FirstElement(list: seq<string>)
    ensures list != [] ==> list[0] in Elements(list)
  {
  }

  lemma {:induction false} AllKept(wanted: map<string, Target>, rows: seq<Row>, kept: set<string>)
    requires DistinctRaws(rows) && forall r :: r in rows ==> r.raw == r.plate && r.plate in wanted && r.plate !in kept
    ensures KeptRows(wanted, rows, kept) == rows
    decreases |rows|
  {
    if rows != [] {
      var row, rest := rows[0], rows[1..];
      assert rows == [row] + rest;
      DistinctTail(rows);
      forall r | r in rest ensures r.plate !in kept + {row.plate} {
        assert r in rows;
        assert r.raw in RawSet(rest);
      }
      AllKept(wanted, rest, kept + {row.plate});
    }
  }

  lemma {:induction false} NoAdds(wanted: map<string, Target>, entries: seq<Entry>, kept: set<string>)
    requires wanted.Keys <= kept
    ensures Adds(wanted, entries, kept) == []
  {
    if entries != [] { NoAdds(wanted, entries[1..], kept + {entries[0].plate}); }
  }

  /** On an equal list every row is its plate with the content that was sent, as it reads back. */
  lemma {:induction false} EqualRows(entries: seq<Entry>, rows: seq<Row>, zone: Zone, upper: string -> string)
    requires Lists(rows, WantedCamera(Wanted(entries, zone)), upper)
    requires forall e :: e in entries ==> Normalize(e.plate, upper) == e.plate
    ensures var wanted := Wanted(entries, zone);
      && (forall r :: r in rows ==> r.raw == r.plate && r.plate in wanted && r.content == Kept(wanted[r.plate].content))
      && (forall e :: e in entries ==> e.plate in PlateSet(rows))
  {
    var wanted := Wanted(entries, zone);
    WantedSpec(entries, zone);
    forall r | r in rows ensures r.raw == r.plate && r.plate in wanted && r.content == Kept(wanted[r.plate].content) {
      assert r.raw in WantedCamera(wanted);
      assert r.raw in Plates(entries);
      var e :| e in entries && e.plate == r.raw;
    }
    forall e | e in entries ensures e.plate in PlateSet(rows) {
      assert e.plate in WantedCamera(wanted);
      assert e.plate in RawSet(rows);
      var r :| r in rows && r.raw == e.plate;
      assert r.plate in PlateSet(rows);
    }
  }

  lemma {:induction false} NotesDecide(entries: seq<Entry>, rows: seq<Row>, zone: Zone)
    requires DistinctEntries(entries)
    requires var wanted := Wanted(entries, zone);
      && (forall r :: r in rows ==> r.plate in wanted && r.content == Kept(wanted[r.plate].content))
      && (forall e :: e in entries ==> e.plate in PlateSet(rows))
    ensures (forall r :: r in rows ==> r.content == Wanted(entries, zone)[r.plate].content) <==> NotesKept(entries)
  {
    var wanted := Wanted(entries, zone);
    WantedSpec(entries, zone);
    if forall r :: r in rows ==> r.content == wanted[r.plate].content {
      forall e | e in entries ensures Strip(Notes(e.name)) == Notes(e.name) {
        var r :| r in rows && r.plate == e.plate;
        assert wanted[e.plate] == WantedRow(e, zone);
      }
    }
    if NotesKept(entries) {
      forall r | r in rows ensures r.content == wanted[r.plate].content {
        assert r.plate in Plates(entries);
        var e :| e in entries && e.plate == r.plate;
        assert Strip(Notes(e.name)) == Notes(e.name);
      }
    }
  }

  /** And nothing to change either, exactly when reading back leaves every note as it was sent. */
  lemma {:induction false} NothingToChangeExactly(
    entries: seq<Entry>, rows: seq<Row>, zone: Zone, upper: string -> string)
    requires Lists(rows, WantedCamera(Wanted(entries, zone)), upper)
    requires DistinctEntries(entries) && forall e :: e in entries ==> Normalize(e.plate, upper) == e.plate
    ensures PlanSync(entries, rows, zone).updates == [] <==> NotesKept(entries)
  {
    var wanted := Wanted(entries, zone);
    EqualRows(entries, rows, zone, upper);
    PlanKeepsFirst(wanted, rows, {});
    AllKept(wanted, rows, {});
    UpdatesEmptyExactly(wanted, rows);
    NotesDecide(entries, rows, zone);
  }

  lemma {:induction false} UpdatesEmptyExactly(wanted: map<string, Target>, rows: seq<Row>)
    requires forall r :: r in rows ==> r.plate in wanted && r.raw == r.plate
    ensures UpdatesFor(wanted, rows) == [] <==> forall r :: r in rows ==> r.content == wanted[r.plate].content
  {
    if rows != [] {
      assert rows == [rows[0]] + rows[1..];
      UpdatesEmptyExactly(wanted, rows[1..]);
      assert rows[0] in rows;
    }
  }

  /** A name the platform accepts, seventeen characters long with a space before the last. */
  const SPACED_NAME := "0123456789abcde f"

  function SpacedEntry(): Entry { Entry("AB1234", Allow, Some(SPACED_NAME), None, None, true) }

  lemma StripShortens(s: string)
    requires s != "" && IsSpace(s[|s| - 1])
    ensures Strip(s) != s
  {
    RightIsPrefix(s[..|s| - 1]);
    LeftIsShorter(StripRight(s));
  }

  lemma {:induction false} RightIsPrefix(s: string)
    ensures |StripRight(s)| <= |s|
  {
    if s != "" && IsSpace(s[|s| - 1]) { RightIsPrefix(s[..|s| - 1]); }
  }

  lemma {:induction false} LeftIsShorter(s: string)
    ensures |StripLeft(s)| <= |s|
  {
    if s != "" && IsSpace(s[0]) { LeftIsShorter(s[1..]); }
  }

  /** The camera's list after the platform's list of this entry alone was put on it. */
  function SpacedRow(zone: Zone): Row { Row("AB1234", "AB1234", Kept(WantedRow(SpacedEntry(), zone).content)) }

  lemma SpacedNoteChanges()
    ensures Strip(Notes(Some(SPACED_NAME))) != Notes(Some(SPACED_NAME))
  {
    assert |SPACED_NAME| == 17 && Notes(Some(SPACED_NAME)) == SPACED_NAME[..16];
    assert Notes(Some(SPACED_NAME))[15] == ' ';
    StripShortens(Notes(Some(SPACED_NAME)));
  }

  /** Its note ends in a space, so what was just sent is sent again at every synchronization. */
  lemma {:induction false} SpacedNoteIsSentAgain(zone: Zone, upper: string -> string)
    requires KeepsPlates(upper)
    ensures var rows := [SpacedRow(zone)];
      && Lists(rows, WantedCamera(Wanted([SpacedEntry()], zone)), upper)
      && PlanSync([SpacedEntry()], rows, zone).updates != []
  {
    var e, row := SpacedEntry(), SpacedRow(zone);
    var camera, rows := WantedCamera(Wanted([e], zone)), [row];
    SpacedNoteChanges();
    hide SPACED_NAME;
    hide Notes;
    hide PlanSync;
    assert AllPlateChars(e.plate);
    NormalKept(e.plate, upper);
    assert [e][..0] == [] && Wanted([e], zone) == map[e.plate := WantedRow(e, zone)];
    StripTwice(Notes(e.name));
    assert RawSet(rows) == {"AB1234"} == camera.Keys;
    assert e in [e] && !NotesKept([e]);
    NothingToChangeExactly([e], rows, zone, upper);
  }

  lemma NormalKept(plate: string, upper: string -> string)
    requires KeepsPlates(upper) && AllPlateChars(plate) && |plate| <= 12
    ensures Normalize(plate, upper) == plate
  {
    PlateCharsSpec(plate);
  }
}
