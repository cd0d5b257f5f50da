/** What somebody else changes while a deployment or a recovery runs: it is never overwritten and never forgotten. */
module KnxOutsideEdits {
  import opened Common
  import opened KnxTransaction
  import opened KnxCrashSafety

  // ------------------------------------------------------------------- edits of a file

  /** What a file holds after the edits of others, and nothing else. */
  function LastEdit(content: Option<Bytes>, env: seq<Happening>, p: Path): Option<Bytes>
    decreases |env|
  {
    if env == [] then content
    else LastEdit(if env[0].Edited? && env[0].path == p then env[0].image else content, env[1..], p)
  }

  /** From `content` to `after` only others changed the file, while the environment went from `env` to `left`. */
  ghost predicate OnlyOthers(content: Option<Bytes>, env: seq<Happening>, after: Option<Bytes>, left: seq<Happening>, p: Path) {
    |left| <= |env| && left == env[|env| - |left|..] && after == LastEdit(content, env[..|env| - |left|], p)
  }

  lemma {:induction false} LastEditConcat(content: Option<Bytes>, a: seq<Happening>, b: seq<Happening>, p: Path)
    ensures LastEdit(content, a + b, p) == LastEdit(LastEdit(content, a, p), b, p)
    decreases |a|
  {
    if a == [] {
      assert a + b == b;
    } else {
      assert (a + b)[1..] == a[1..] + b;
      LastEditConcat(if a[0].Edited? && a[0].path == p then a[0].image else content, a[1..], b, p);
    }
  }

  lemma NobodyYet(content: Option<Bytes>, env: seq<Happening>, p: Path)
    ensures OnlyOthers(content, env, content, env, p)
  {
    assert env[0..] == env && env[..0] == [];
  }

  lemma OthersTrans(
    a: Option<Bytes>, env: seq<Happening>, b: Option<Bytes>, mid: seq<Happening>, c: Option<Bytes>,
    left: seq<Happening>, p: Path)
    requires OnlyOthers(a, env, b, mid, p) && OnlyOthers(b, mid, c, left, p)
    ensures OnlyOthers(a, env, c, left, p)
  {
    var k, n := |env| - |mid|, |mid| - |left|;
    assert env[..k + n] == env[..k] + mid[..n];
    LastEditConcat(a, env[..k], mid[..n], p);
    assert left == env[k + n..];
  }

  lemma {:induction false} TurnOnlyOthers(d: Disk, env: seq<Happening>, p: Path)
    ensures OnlyOthers(Read(d, p), env, Read(Turn(d, env).disk, p), Turn(d, env).env, p)
    decreases |env|
  {
    NobodyYet(Read(d, p), env, p);
    if env != [] {
      var next := match env[0] case Edited(q, image) => Put(d, q, image) case Reassigned(e, v) => Reassign(d, e, v) case _ => d;
      assert env == [env[0]] + env[1..];
      OneEdit(Read(d, p), env, p);
      assert Read(next, p) == LastEdit(Read(d, p), env[..1], p);
      if env[0].Edited? || env[0].Reassigned? {
        TurnOnlyOthers(next, env[1..], p);
        OthersTrans(Read(d, p), env, Read(next, p), env[1..], Read(Turn(d, env).disk, p), Turn(d, env).env, p);
      }
    }
  }

  lemma {:induction false} OneEdit(content: Option<Bytes>, env: seq<Happening>, p: Path)
    requires env != []
    ensures LastEdit(content, env[..1], p) == if env[0].Edited? && env[0].path == p then env[0].image else content
    ensures OnlyOthers(content, env, LastEdit(content, env[..1], p), env[1..], p)
  {
    assert env[..1][1..] == [];
  }

  // ------------------------------------------------------------------ foreign content

  /** Content that is neither image of the file in the journal. */
  predicate ForeignContent(content: Option<Bytes>, files: seq<FileImage>, p: Path) {
    forall i :: 0 <= i < |files| && files[i].path == p ==>
      content != files[i].before && content != Some(files[i].after)
  }

  predicate Foreign(d: Disk, files: seq<FileImage>, p: Path) { ForeignContent(Read(d, p), files, p) }

  /** Whoever edits the file meanwhile does not write one of its two images. */
  predicate EditsForeign(env: seq<Happening>, files: seq<FileImage>, p: Path) {
    forall i :: 0 <= i < |env| && env[i].Edited? && env[i].path == p ==> ForeignContent(env[i].image, files, p)
  }

  lemma {:induction false} StaysForeign(content: Option<Bytes>, env: seq<Happening>, files: seq<FileImage>, p: Path)
    requires ForeignContent(content, files, p) && EditsForeign(env, files, p)
    ensures ForeignContent(LastEdit(content, env, p), files, p)
    decreases |env|
  {
    if env != [] {
      var edited := env[0].Edited? && env[0].path == p;
      SuffixForeign(env, 1, files, p);
      StaysForeign(if edited then env[0].image else content, env[1..], files, p);
    }
  }

  lemma SuffixForeign(env: seq<Happening>, k: nat, files: seq<FileImage>, p: Path)
    requires k <= |env| && EditsForeign(env, files, p)
    ensures EditsForeign(env[k..], files, p) && EditsForeign(env[..k], files, p)
  {
    forall i | 0 <= i < |env[k..]| && env[k..][i].Edited? && env[k..][i].path == p
      ensures ForeignContent(env[k..][i].image, files, p)
    {
      assert env[k..][i] == env[k + i];
    }
  }

  lemma OthersStayForeign(
    content: Option<Bytes>, env: seq<Happening>, after: Option<Bytes>, left: seq<Happening>, files: seq<FileImage>,
    p: Path)
    requires ForeignContent(content, files, p) && EditsForeign(env, files, p) && OnlyOthers(content, env, after, left, p)
    ensures ForeignContent(after, files, p) && EditsForeign(left, files, p)
  {
    SuffixForeign(env, |env| - |left|, files, p);
    StaysForeign(content, env[..|env| - |left|], files, p);
  }

  lemma ForeignPart(content: Option<Bytes>, env: seq<Happening>, files: seq<FileImage>, n: nat, p: Path)
    requires ForeignContent(content, files, p) && EditsForeign(env, files, p) && n <= |files|
    ensures ForeignContent(content, files[..n], p) && EditsForeign(env, files[..n], p)
  {
  }

  lemma NamedBefore(files: seq<FileImage>, p: Path)
    requires files != [] && files[|files| - 1].path != p
    ensures Named(files, p) ==> Named(files[..|files| - 1], p)
  {
    if Named(files, p) {
      var i :| 0 <= i < |files| && files[i].path == p;
      assert files[..|files| - 1][i].path == p;
    }
  }

  lemma {:induction false} RestoreSparesForeign(d: Disk, files: seq<FileImage>, env: seq<Happening>, p: Path)
    requires Foreign(d, files, p) && EditsForeign(env, files, p)
    ensures var r := RunRestore(d, files, env);
      && OnlyOthers(Read(d, p), env, Read(r.disk, p), r.env, p)
      && r.disk.journal == d.journal
      && (Named(files, p) ==> !r.outcome.Done?)
    decreases |files|
  {
    hide Turn;
    hide OnlyOthers;
    hide EditsForeign;
    hide ForeignContent;
    TurnOnlyOthers(d, env, p);
    TurnKeepsBooks(d, env);
    var t, r := Turn(d, env), RunRestore(d, files, env);
    OthersStayForeign(Read(d, p), env, Read(t.disk, p), t.env, files, p);
    NobodyYet(Read(d, p), env, p);
    if files != [] && t.outcome.Done? {
      var n := |files| - 1;
      NobodyYet(Read(t.disk, p), t.env, p);
      if files[n].path != p {
        NamedBefore(files, p);
        ForeignPart(Read(t.disk, p), t.env, files, n, p);
        RestoreSparesForeign(t.disk, files[..n], t.env, p);
        WriteElsewhere(t.disk, files[n].path, files[n].before, t.env, p);
        var w := RunWrite(t.disk, files[n].path, files[n].before, t.env);
        OthersStayForeign(Read(t.disk, p), t.env, Read(w.disk, p), w.env, files[..n], p);
        RestoreSparesForeign(w.disk, files[..n], w.env, p);
        NobodyYet(Read(w.disk, p), w.env, p);
        var rest := if w.outcome.Done? then RunRestore(w.disk, files[..n], w.env) else w;
        OthersTrans(Read(t.disk, p), t.env, Read(w.disk, p), w.env, Read(rest.disk, p), rest.env, p);
      } else {
        LastIsForeign(Read(t.disk, p), files, p);
      }
      OthersTrans(Read(d, p), env, Read(t.disk, p), t.env, Read(r.disk, p), r.env, p);
    }
  }

  /** Writing one file leaves every other to the others. */
  lemma WriteElsewhere(d: Disk, q: Path, image: Option<Bytes>, env: seq<Happening>, p: Path)
    requires p != q
    ensures var r := RunWrite(d, q, image, env);
      OnlyOthers(Read(d, p), env, Read(r.disk, p), r.env, p) && r.disk.journal == d.journal
  {
    hide Turn;
    hide OnlyOthers;
    TurnOnlyOthers(d, env, p);
    TurnKeepsBooks(d, env);
    assert Read(Put(Turn(d, env).disk, q, image), p) == Read(Turn(d, env).disk, p);
  }

  lemma LastIsForeign(content: Option<Bytes>, files: seq<FileImage>, p: Path)
    requires files != [] && files[|files| - 1].path == p && ForeignContent(content, files, p)
    ensures content != files[|files| - 1].before && content != Some(files[|files| - 1].after)
  {
  }

  /**
    Whatever is edited meanwhile, that very file included: while its content is neither recorded image, a rollback
    never writes the file, does not complete, and keeps the journal.
   */
  lemma RollbackSparesForeign(d: Disk, j: Journal, env: seq<Happening>, p: Path)
    requires Named(j.files, p) && Foreign(d, j.files, p) && EditsForeign(env, j.files, p)
    ensures var r := RunRollback(d, j, env);
      OnlyOthers(Read(d, p), env, Read(r.disk, p), r.env, p) && !r.outcome.Done? && r.disk.journal == d.journal
  {
    RestoreSparesForeign(d, j.files, env, p);
  }

  /** Somebody's content: what was there, or what an event's environment wrote. */
  ghost predicate Theirs(content: Option<Bytes>, before: Option<Bytes>, events: seq<Event>, p: Path) {
    content == before || exists i :: 0 <= i < |events| && Edited(p, content) in events[i].env
  }

  lemma {:induction false} LastEditIsTheirs(content: Option<Bytes>, env: seq<Happening>, p: Path)
    ensures LastEdit(content, env, p) == content || Edited(p, LastEdit(content, env, p)) in env
    decreases |env|
  {
    if env != [] { LastEditIsTheirs(if env[0].Edited? && env[0].path == p then env[0].image else content, env[1..], p); }
  }

  /**
    Once somebody has changed a journaled file, no sequence of deployments and recoveries writes it or forgets the
    journal, however often others edit it further without writing one of its recorded images.
   */
  lemma {:induction false} ForeignContentBlocks(
    digest: Bytes -> Hash, settled: Disk, d: Disk, events: seq<Event>, p: Path)
    requires d.journal.Some? && Named(d.journal.value.files, p) && Foreign(d, d.journal.value.files, p)
    requires forall i :: 0 <= i < |events| ==> EditsForeign(events[i].env, d.journal.value.files, p)
    ensures var (settled', d') := Play(digest, settled, d, events);
      && settled' == settled && d'.journal == d.journal && Foreign(d', d.journal.value.files, p)
      && Theirs(Read(d', p), Read(d, p), events, p)
    decreases |events|
  {
    if events != [] {
      hide OnlyOthers;
      hide EditsForeign;
      hide ForeignContent;
      var e, files := events[0], d.journal.value.files;
      assert EditsForeign(e.env, files, p);
      RollbackSparesForeign(d, d.journal.value, e.env, p);
      var r := RunRollback(d, d.journal.value, e.env);
      OthersStayForeign(Read(d, p), e.env, Read(r.disk, p), r.env, files, p);
      assert After(digest, d, e) == r.disk && Settled(digest, settled, d, e) == settled by {
        RolledBackOnly(digest, settled, d, e);
      }
      ForeignContentBlocks(digest, settled, r.disk, events[1..], p);
      OthersAreTheirs(Read(d, p), e.env, Read(r.disk, p), r.env, p);
      TheirsLater(Read(Play(digest, settled, d, events).1, p), Read(r.disk, p), Read(d, p), events, p);
    }
  }

  lemma RolledBackOnly(digest: Bytes -> Hash, settled: Disk, d: Disk, e: Event)
    requires d.journal.Some? && !RunRollback(d, d.journal.value, e.env).outcome.Done?
    ensures After(digest, d, e) == RunRollback(d, d.journal.value, e.env).disk
    ensures Settled(digest, settled, d, e) == settled
  {
    hide RunRollback;
  }

  lemma OthersAreTheirs(
    content: Option<Bytes>, env: seq<Happening>, after: Option<Bytes>, left: seq<Happening>, p: Path)
    requires OnlyOthers(content, env, after, left, p)
    ensures after == content || Edited(p, after) in env
  {
    LastEditIsTheirs(content, env[..|env| - |left|], p);
  }

  lemma TheirsLater(content: Option<Bytes>, middle: Option<Bytes>, before: Option<Bytes>, events: seq<Event>, p: Path)
    requires events != [] && Theirs(content, middle, events[1..], p)
    requires middle == before || Edited(p, middle) in events[0].env
    ensures Theirs(content, before, events, p)
  {
    if content != middle {
      var i :| 0 <= i < |events[1..]| && Edited(p, content) in events[1..][i].env;
      assert events[i + 1] == events[1..][i];
    }
  }

  // ------------------------------------------------------------- before the first write

  /** Whoever edits the file meanwhile does not bring back what the journal found there. */
  predicate EditsAway(env: seq<Happening>, files: seq<FileImage>, p: Path) {
    forall i :: 0 <= i < |env| && env[i].Edited? && env[i].path == p ==> Away(env[i].image, files, p)
  }

  predicate Away(content: Option<Bytes>, files: seq<FileImage>, p: Path) {
    forall i :: 0 <= i < |files| && files[i].path == p ==> content != files[i].before
  }

  lemma {:induction false} StaysAway(content: Option<Bytes>, env: seq<Happening>, files: seq<FileImage>, p: Path)
    requires Away(content, files, p) && EditsAway(env, files, p)
    ensures Away(LastEdit(content, env, p), files, p)
    decreases |env|
  {
    if env != [] {
      assert EditsAway(env[1..], files, p);
      StaysAway(if env[0].Edited? && env[0].path == p then env[0].image else content, env[1..], files, p);
    }
  }

  lemma OthersStayAway(
    content: Option<Bytes>, env: seq<Happening>, after: Option<Bytes>, left: seq<Happening>, files: seq<FileImage>,
    p: Path)
    requires Away(content, files, p) && EditsAway(env, files, p) && OnlyOthers(content, env, after, left, p)
    ensures Away(after, files, p) && EditsAway(left, files, p)
  {
    var k := |env| - |left|;
    assert EditsAway(env[..k], files, p);
    StaysAway(content, env[..k], files, p);
    forall i | 0 <= i < |left| && left[i].Edited? && left[i].path == p ensures Away(left[i].image, files, p) {
      assert left[i] == env[k + i];
    }
  }

  lemma AwayRest(content: Option<Bytes>, env: seq<Happening>, files: seq<FileImage>, p: Path)
    requires files != [] && Away(content, files, p) && EditsAway(env, files, p)
    ensures Away(content, files[1..], p) && EditsAway(env, files[1..], p)
    ensures files[0].path == p ==> content != files[0].before
  {
  }

  /** A deployment never writes a file that does not hold what the journal found there, whoever edits it further. */
  lemma {:induction false} WritesSpareEdits(d: Disk, files: seq<FileImage>, env: seq<Happening>, p: Path)
    requires Named(files, p) && Away(Read(d, p), files, p) && EditsAway(env, files, p)
    ensures var r := RunWrites(d, files, env);
      OnlyOthers(Read(d, p), env, Read(r.disk, p), r.env, p) && !r.outcome.Done?
    decreases |files|
  {
    hide Turn;
    hide OnlyOthers;
    hide EditsAway;
    hide Away;
    TurnOnlyOthers(d, env, p);
    var t, r := Turn(d, env), RunWrites(d, files, env);
    OthersStayAway(Read(d, p), env, Read(t.disk, p), t.env, files, p);
    AwayRest(Read(t.disk, p), t.env, files, p);
    if t.outcome.Done? && files[0].path != p && Read(t.disk, files[0].path) == files[0].before {
      WriteElsewhere(t.disk, files[0].path, Some(files[0].after), t.env, p);
      var w := RunWrite(t.disk, files[0].path, Some(files[0].after), t.env);
      OthersTrans(Read(d, p), env, Read(t.disk, p), t.env, Read(w.disk, p), w.env, p);
      if w.outcome.Done? {
        OthersStayAway(Read(d, p), env, Read(w.disk, p), w.env, files, p);
        AwayRest(Read(w.disk, p), w.env, files, p);
        var i :| 0 <= i < |files| && files[i].path == p;
        assert files[1..][i - 1].path == p;
        WritesSpareEdits(w.disk, files[1..], w.env, p);
        OthersTrans(Read(d, p), env, Read(w.disk, p), w.env, Read(r.disk, p), r.env, p);
      }
    }
  }

  // ------------------------------------------------- between the comparison and the write

  /** What others leave in a file while the environment goes from `env` to `left`. */
  function LeftByOthers(content: Option<Bytes>, env: seq<Happening>, left: seq<Happening>, p: Path): Option<Bytes>
    requires |left| <= |env|
  {
    LastEdit(content, env[..|env| - |left|], p)
  }

  /** What a completed write replaces: something else than was compared exactly when others edit it in between. */
  ghost predicate LosesOnlyBetween(d: Disk, p: Path, expected: Option<Bytes>, env: seq<Happening>, left: seq<Happening>) {
    var compared := Turn(d, env);
    && |left| <= |compared.env| <= |env|
    && (LeftByOthers(Read(d, p), env, left, p) != expected <==> LeftByOthers(expected, compared.env, left, p) != expected)
  }

  lemma {:induction false} WindowExactly(d: Disk, p: Path, image: Option<Bytes>, env: seq<Happening>)
    requires Turn(d, env).outcome.Done? && RunWrite(Turn(d, env).disk, p, image, Turn(d, env).env).outcome.Done?
    ensures var compared := Turn(d, env);
      var r := RunWrite(compared.disk, p, image, compared.env);
      Read(r.disk, p) == image && LosesOnlyBetween(d, p, Read(compared.disk, p), env, r.env)
  {
    hide Turn;
    hide LastEdit;
    var compared := Turn(d, env);
    TurnOnlyOthers(d, env, p);
    TurnOnlyOthers(compared.disk, compared.env, p);
    var r := Turn(compared.disk, compared.env);
    OthersTrans(Read(d, p), env, Read(compared.disk, p), compared.env, Read(r.disk, p), r.env, p);
  }

  /** A write of the deployment overwrites somebody's edit exactly when it comes between comparison and write. */
  lemma WriteLosesExactly(d: Disk, p: Path, before: Option<Bytes>, after: Bytes, env: seq<Happening>)
    requires RunSwap(d, p, before, Some(after), env).outcome.Done?
    ensures var r := RunSwap(d, p, before, Some(after), env);
      Read(r.disk, p) == Some(after) && LosesOnlyBetween(d, p, before, env, r.env)
  {
    hide Turn;
    hide LosesOnlyBetween;
    WindowExactly(d, p, Some(after), env);
  }

  /** And so does the restoring of a file that was written. */
  lemma {:induction false} RestoreLosesExactly(d: Disk, item: FileImage, env: seq<Happening>)
    requires RunRestore(d, [item], env).outcome.Done? && Read(Turn(d, env).disk, item.path) != item.before
    ensures var r := RunRestore(d, [item], env);
      Read(r.disk, item.path) == item.before && LosesOnlyBetween(d, item.path, Some(item.after), env, r.env)
  {
    hide Turn;
    hide LosesOnlyBetween;
    WindowExactly(d, item.path, item.before, env);
    assert [item][..0] == [];
  }

  /** A new edit just before the write of a deployment is overwritten. */
  lemma {:induction false} EditBetweenIsOverwritten(d: Disk, item: FileImage, image: Option<Bytes>)
    requires Read(d, item.path) == item.before
    ensures var r := RunWrites(d, [item], [Fine, Edited(item.path, image)]);
      r.outcome.Done? && Read(r.disk, item.path) == Some(item.after)
  {
    var env := [Fine, Edited(item.path, image)];
    assert env[1..] == [Edited(item.path, image)] && env[1..][1..] == [];
    assert Turn(d, env) == Run(d, Done, env[1..]);
    var edited := Put(d, item.path, image);
    assert Turn(d, env[1..]) == Turn(edited, []);
    assert RunWrite(d, item.path, Some(item.after), env[1..]).outcome.Done?;
  }

  /**
    Whatever others edit, a deployment goes on to retire and publish only when the generated file then holds what was
    generated, by its digest.
   */
  lemma VerifiedBeforePublishing(digest: Bytes -> Hash, d: Disk, j: Journal, req: Request, env: seq<Happening>)
    requires RunSwitch(digest, d, j, req, env).outcome.Done?
    ensures var r := RunSwitch(digest, d, j, req, env);
      Read(r.disk, GENERATED).Some? && digest(Read(r.disk, GENERATED).value) == digest(req.generated)
  {
    hide Turn;
    hide RunRegister;
  }

  // ------------------------------------------------------------------ registry entries

  /** What disables an entry after the choices of others, and nothing else. */
  function LastChoice(value: Option<string>, env: seq<Happening>, e: string): Option<string>
    decreases |env|
  {
    if env == [] then value
    else LastChoice(if env[0].Reassigned? && env[0].entityId == e then env[0].disabledBy else value, env[1..], e)
  }

  ghost predicate OnlyTheirChoice(
    before: Registry, env: seq<Happening>, after: Registry, left: seq<Happening>, e: string)
  {
    && |left| <= |env| && left == env[|env| - |left|..] && e in before && e in after
    && after[e] == before[e].(disabledBy := LastChoice(before[e].disabledBy, env[..|env| - |left|], e))
  }

  lemma {:induction false} LastChoiceConcat(value: Option<string>, a: seq<Happening>, b: seq<Happening>, e: string)
    ensures LastChoice(value, a + b, e) == LastChoice(LastChoice(value, a, e), b, e)
    decreases |a|
  {
    if a == [] {
      assert a + b == b;
    } else {
      assert (a + b)[1..] == a[1..] + b;
      LastChoiceConcat(if a[0].Reassigned? && a[0].entityId == e then a[0].disabledBy else value, a[1..], b, e);
    }
  }

  lemma NoChoiceYet(r: Registry, env: seq<Happening>, e: string)
    requires e in r
    ensures OnlyTheirChoice(r, env, r, env, e)
  {
    assert env[0..] == env && env[..0] == [];
  }

  lemma ChoiceTrans(
    a: Registry, env: seq<Happening>, b: Registry, mid: seq<Happening>, c: Registry, left: seq<Happening>, e: string)
    requires OnlyTheirChoice(a, env, b, mid, e) && OnlyTheirChoice(b, mid, c, left, e)
    ensures OnlyTheirChoice(a, env, c, left, e)
  {
    var k, n := |env| - |mid|, |mid| - |left|;
    assert env[..k + n] == env[..k] + mid[..n];
    LastChoiceConcat(a[e].disabledBy, env[..k], mid[..n], e);
    assert left == env[k + n..];
  }

  lemma {:induction false} TurnOnlyTheirChoice(d: Disk, env: seq<Happening>, e: string)
    requires e in d.registry
    ensures OnlyTheirChoice(d.registry, env, Turn(d, env).disk.registry, Turn(d, env).env, e)
    decreases |env|
  {
    NoChoiceYet(d.registry, env, e);
    if env != [] {
      var next := match env[0] case Edited(q, image) => Put(d, q, image) case Reassigned(x, v) => Reassign(d, x, v) case _ => d;
      assert env[..1][1..] == [];
      assert OnlyTheirChoice(d.registry, env, next.registry, env[1..], e);
      if env[0].Edited? || env[0].Reassigned? {
        TurnOnlyTheirChoice(next, env[1..], e);
        ChoiceTrans(d.registry, env, next.registry, env[1..], Turn(d, env).disk.registry, Turn(d, env).env, e);
      }
    }
  }

  /** Others only ever disable the entry for reasons of their own. */
  predicate ForeignChoices(env: seq<Happening>, e: string) {
    forall i :: 0 <= i < |env| && env[i].Reassigned? && env[i].entityId == e ==> !Switchable(env[i].disabledBy)
  }

  lemma {:induction false} StaysTheirs(value: Option<string>, env: seq<Happening>, e: string)
    requires !Switchable(value) && ForeignChoices(env, e)
    ensures !Switchable(LastChoice(value, env, e))
    decreases |env|
  {
    if env != [] {
      assert ForeignChoices(env[1..], e);
      StaysTheirs(if env[0].Reassigned? && env[0].entityId == e then env[0].disabledBy else value, env[1..], e);
    }
  }

  lemma ChoiceStaysTheirs(a: Registry, env: seq<Happening>, b: Registry, left: seq<Happening>, e: string)
    requires OnlyTheirChoice(a, env, b, left, e) && !Switchable(a[e].disabledBy) && ForeignChoices(env, e)
    ensures !Switchable(b[e].disabledBy) && ForeignChoices(left, e)
  {
    var k := |env| - |left|;
    assert ForeignChoices(env[..k], e);
    StaysTheirs(a[e].disabledBy, env[..k], e);
    forall i | 0 <= i < |left| && left[i].Reassigned? && left[i].entityId == e ensures !Switchable(left[i].disabledBy) {
      assert left[i] == env[k + i];
    }
  }

  lemma {:induction false} RestoreSparesEntries(d: Disk, files: seq<FileImage>, env: seq<Happening>, e: string)
    requires e in d.registry
    ensures var r := RunRestore(d, files, env); OnlyTheirChoice(d.registry, env, r.disk.registry, r.env, e)
    decreases |files|
  {
    hide Turn;
    hide OnlyTheirChoice;
    TurnOnlyTheirChoice(d, env, e);
    NoChoiceYet(d.registry, env, e);
    if files != [] && Turn(d, env).outcome.Done? {
      var t, n, r := Turn(d, env), |files| - 1, RunRestore(d, files, env);
      ChoiceIn(d.registry, env, t.disk.registry, t.env, e);
      NoChoiceYet(t.disk.registry, t.env, e);
      RestoreSparesEntries(t.disk, files[..n], t.env, e);
      TurnOnlyTheirChoice(t.disk, t.env, e);
      var w := RunWrite(t.disk, files[n].path, files[n].before, t.env);
      ChoiceIn(t.disk.registry, t.env, w.disk.registry, w.env, e);
      NoChoiceYet(w.disk.registry, w.env, e);
      RestoreSparesEntries(w.disk, files[..n], w.env, e);
      var rest := if w.outcome.Done? then RunRestore(w.disk, files[..n], w.env) else w;
      ChoiceTrans(t.disk.registry, t.env, w.disk.registry, w.env, rest.disk.registry, rest.env, e);
      ChoiceTrans(d.registry, env, t.disk.registry, t.env, r.disk.registry, r.env, e);
    }
  }

  lemma ChoiceIn(a: Registry, env: seq<Happening>, b: Registry, left: seq<Happening>, e: string)
    requires OnlyTheirChoice(a, env, b, left, e)
    ensures e in a && e in b
  {
  }

  lemma ChangeSparesForeign(d: Disk, record: Record, e: string)
    requires Toggles([record]) && e in d.registry && !Switchable(d.registry[e].disabledBy)
    ensures var t := RegistryChange(d, record, true, {}).0; e in t.registry && t.registry[e] == d.registry[e]
  {
    assert [record][0] == record;
  }

  lemma {:induction false} UnregisterSparesForeign(d: Disk, records: seq<Record>, env: seq<Happening>, e: string)
    requires Toggles(records) && ForeignChoices(env, e)
    requires e in d.registry && !Switchable(d.registry[e].disabledBy)
    ensures var r := RunUnregister(d, records, env); OnlyTheirChoice(d.registry, env, r.disk.registry, r.env, e)
    decreases |records|
  {
    hide Turn;
    hide OnlyTheirChoice;
    hide ForeignChoices;
    hide RegistryChange;
    TurnOnlyTheirChoice(d, env, e);
    NoChoiceYet(d.registry, env, e);
    if records != [] && Turn(d, env).outcome.Done? {
      var t, n, r := Turn(d, env), |records| - 1, RunUnregister(d, records, env);
      ChoiceIn(d.registry, env, t.disk.registry, t.env, e);
      ChoiceStaysTheirs(d.registry, env, t.disk.registry, t.env, e);
      assert Toggles([records[n]]) && Toggles(records[..n]);
      ChangeSparesForeign(t.disk, records[n], e);
      var changed := RegistryChange(t.disk, records[n], true, {}).0;
      UnregisterSparesForeign(changed, records[..n], t.env, e);
      SameEntry(t.disk.registry, changed.registry, t.env, r.disk.registry, r.env, e);
      ChoiceTrans(d.registry, env, t.disk.registry, t.env, r.disk.registry, r.env, e);
    }
  }

  lemma SameEntry(a: Registry, b: Registry, env: seq<Happening>, c: Registry, left: seq<Happening>, e: string)
    requires e in a && e in b && a[e] == b[e] && OnlyTheirChoice(b, env, c, left, e)
    ensures OnlyTheirChoice(a, env, c, left, e)
  {
  }

  /** A rollback never changes an entry that is disabled for a reason outside the recorded pair, while others choose on. */
  lemma RollbackSparesUserChoice(d: Disk, j: Journal, env: seq<Happening>, e: string)
    requires Toggles(j.registry) && ForeignChoices(env, e)
    requires e in d.registry && !Switchable(d.registry[e].disabledBy)
    ensures var r := RunRollback(d, j, env); OnlyTheirChoice(d.registry, env, r.disk.registry, r.env, e)
  {
    hide Turn;
    hide OnlyTheirChoice;
    hide ForeignChoices;
    hide RunRestore;
    hide RunUnregister;
    RestoreSparesEntries(d, j.files, env, e);
    var restored, r := RunRestore(d, j.files, env), RunRollback(d, j, env);
    if restored.outcome.Done? {
      ChoiceIn(d.registry, env, restored.disk.registry, restored.env, e);
      ChoiceStaysTheirs(d.registry, env, restored.disk.registry, restored.env, e);
      TurnOnlyTheirChoice(restored.disk, restored.env, e);
      var t := Turn(restored.disk, restored.env);
      ChoiceTrans(d.registry, env, restored.disk.registry, restored.env, t.disk.registry, t.env, e);
      if t.outcome.Done? {
        ChoiceIn(d.registry, env, t.disk.registry, t.env, e);
        ChoiceStaysTheirs(d.registry, env, t.disk.registry, t.env, e);
        var swapped := t.disk.(manifest := j.previous);
        UnregisterSparesForeign(swapped, j.registry, t.env, e);
        var reversed := RunUnregister(swapped, j.registry, t.env);
        ChoiceTrans(d.registry, env, t.disk.registry, t.env, reversed.disk.registry, reversed.env, e);
        if reversed.outcome.Done? {
          ChoiceIn(d.registry, env, reversed.disk.registry, reversed.env, e);
          ConcludeOnlyTheirChoice(reversed.disk, reversed.env, e);
          ChoiceTrans(d.registry, env, reversed.disk.registry, reversed.env, r.disk.registry, r.env, e);
        }
      }
    }
  }

  lemma ConcludeOnlyTheirChoice(d: Disk, env: seq<Happening>, e: string)
    requires e in d.registry
    ensures var r := RunConclude(d, env); OnlyTheirChoice(d.registry, env, r.disk.registry, r.env, e)
  {
    hide Turn;
    hide OnlyTheirChoice;
    TurnOnlyTheirChoice(d, env, e);
    var reload := Turn(d, env);
    if reload.outcome.Done? {
      ChoiceIn(d.registry, env, reload.disk.registry, reload.env, e);
      TurnOnlyTheirChoice(reload.disk, reload.env, e);
      var clear := Turn(reload.disk, reload.env);
      ChoiceTrans(d.registry, env, reload.disk.registry, reload.env, clear.disk.registry, clear.env, e);
    }
  }
}
