/** Staging an uploaded project from small messages that may be lost, repeated or reordered. */
module ProjectUpload {
  import opened Common

  type Key = string

  const MAX_BYTES := 104857600
  const CHUNK_BYTES := 524288
  const TTL := 1800
  const MAX_SESSIONS := 2

  /** Python's `type(x) is int`: a message field that is an integer, or something else. */
  datatype Field = Whole(value: int) | Other

  datatype Session = Session(
    owner: string, size: nat, name: string, fingerprint: string, offset: nat, touched: int, sealed: bool,
    consuming: bool)

  datatype Action =
    | Start(size: Field, name: Option<string>, fingerprint: Option<string>)
    | Chunk(data: Option<Bytes>, offset: Field)
    | Seal
    | Discard
    | Unknown

  datatype Message = Message(key: Key, owner: string, action: Action)

  datatype Error =
    | InvalidId | InvalidOwner | TooLarge | InvalidName | InvalidFingerprint | MetadataMismatch | CapacityReached
    | NotFound | Processing | InvalidChunk | InvalidOffset | RetryMismatch | Incomplete | InvalidArchive
    | FingerprintMismatch | InvalidAction | NotReady

  datatype Reply = Discarded | Status(session: Session)

  datatype State = State(sessions: map<Key, Session>, files: map<Key, Bytes>)

  /** Library functions: the fingerprint of a file and the rule for file names. */
  datatype Library = Library(digest: Bytes -> string, validName: string -> bool)

  predicate IsHex(s: string) { forall i :: 0 <= i < |s| ==> '0' <= s[i] <= '9' || 'a' <= s[i] <= 'f' }

  predicate IsArchive(file: Bytes) {
    |file| >= 4 && (file[..4] == [80, 75, 3, 4] || file[..4] == [80, 75, 5, 6] || file[..4] == [80, 75, 7, 8])
  }

  function Without(s: State, key: Key): State { State(s.sessions - {key}, s.files - {key}) }

  function Expired(s: State, now: int): set<Key> {
    set k | k in s.sessions && now - s.sessions[k].touched > TTL && !s.sessions[k].consuming
  }

  function Expire(s: State, now: int): State {
    State(s.sessions - Expired(s, now), s.files - Expired(s, now))
  }

  function Put(s: State, key: Key, session: Session): State { s.(sessions := s.sessions[key := session]) }

  /** Open a session, or repeat the opening of one. */
  function StartStep(lib: Library, s: State, m: Message, now: int): Result<State, Error>
    requires m.action.Start?
  {
    var a := m.action;
    if !a.size.Whole? || !(4 <= a.size.value <= MAX_BYTES) then Failure(TooLarge)
    else if a.name.None? || |a.name.value| > 255 || !lib.validName(a.name.value) then Failure(InvalidName)
    else if a.fingerprint.None? || |a.fingerprint.value| != 64 || !IsHex(a.fingerprint.value) then
      Failure(InvalidFingerprint)
    else if m.key in s.sessions then
      var former := s.sessions[m.key];
      if former.owner != m.owner || former.size != a.size.value || former.name != a.name.value
         || former.fingerprint != a.fingerprint.value
      then Failure(MetadataMismatch)
      else Success(s)
    else if |s.sessions| >= MAX_SESSIONS then Failure(CapacityReached)
    else
      Success(State(s.sessions[m.key := Session(m.owner, a.size.value, a.name.value, a.fingerprint.value, 0, now, false, false)],
                    s.files[m.key := []]))
  }

  /** A chunk at the end of the file is written; one before it must repeat what is there. */
  function ChunkStep(s: State, key: Key, action: Action): Result<State, Error>
    requires action.Chunk? && key in s.sessions && key in s.files
  {
    var session, file := s.sessions[key], s.files[key];
    if action.data.None? then Failure(InvalidChunk)
    else
      var chunk := action.data.value;
      if !action.offset.Whole? || action.offset.value < 0 || !(0 < |chunk| <= CHUNK_BYTES)
         || action.offset.value + |chunk| > session.size
      then Failure(InvalidOffset)
      else
        var offset: nat := action.offset.value;
        if offset < session.offset then
          if offset + |chunk| > session.offset || offset + |chunk| > |file| || file[offset..offset + |chunk|] != chunk
          then Failure(RetryMismatch)
          else Success(s)
        else if offset == session.offset && !session.sealed && offset <= |file| then
          Success(State(s.sessions[key := session.(offset := session.offset + |chunk|)],
                        s.files[key := Overwrite(file, offset, chunk)]))
        else Failure(InvalidOffset)
  }

  /** Writing into an open file at a position. */
  function Overwrite(file: Bytes, offset: nat, chunk: Bytes): Bytes
    requires offset <= |file|
  {
    file[..offset] + chunk + (if offset + |chunk| < |file| then file[offset + |chunk|..] else [])
  }

  function SealStep(lib: Library, s: State, key: Key): Result<State, Error>
    requires key in s.sessions && key in s.files
  {
    var session := s.sessions[key];
    if session.offset != session.size then Failure(Incomplete)
    else if !IsArchive(s.files[key]) then Failure(InvalidArchive)
    else if lib.digest(s.files[key]) != session.fingerprint then Failure(FingerprintMismatch)
    else Success(Put(s, key, session.(sealed := true)))
  }

  function Act(lib: Library, s: State, m: Message): (State, Result<Reply, Error>)
    requires m.key in s.sessions && m.key in s.files
  {
    match m.action
    case Discard => (Without(s, m.key), Success(Discarded))
    case Unknown => (s, Failure(InvalidAction))
    case Start(_, _, _) => (s, Success(Status(s.sessions[m.key])))
    case Chunk(_, _) =>
      (match ChunkStep(s, m.key, m.action)
       case Failure(e) => (s, Failure(e))
       case Success(t) => (t, Success(Status(if m.key in t.sessions then t.sessions[m.key] else s.sessions[m.key]))))
    case Seal =>
      (match SealStep(lib, s, m.key)
       case Failure(e) => (s, Failure(e))
       case Success(t) => (t, Success(Status(if m.key in t.sessions then t.sessions[m.key] else s.sessions[m.key]))))
  }

  function Request(lib: Library, before: State, m: Message, now: int): (State, Result<Reply, Error>) {
    var s := Expire(before, now);
    if |m.key| != 32 || !IsHex(m.key) then (s, Failure(InvalidId))
    else if m.owner == "" || |m.owner| > 256 then (s, Failure(InvalidOwner))
    else
      var started := if m.action.Start? then StartStep(lib, s, m, now) else Success(s);
      if started.Failure? then (s, Failure(started.error))
      else
        var t := started.value;
        if m.key !in t.sessions || m.key !in t.files || t.sessions[m.key].owner != m.owner then (t, Failure(NotFound))
        else if t.sessions[m.key].consuming then (t, Failure(Processing))
        else Act(lib, Put(t, m.key, t.sessions[m.key].(touched := now)), m)
  }

  predicate Ready(s: State, key: Key) { key in s.sessions && s.sessions[key].sealed && !s.sessions[key].consuming }

  /** Open a sealed upload for reading. */
  function OpenSealed(s: State, key: Key, fingerprint: string, now: int): (State, Result<Bytes, Error>) {
    if !Ready(s, key) || key !in s.files then (s, Failure(NotReady))
    else if s.sessions[key].fingerprint != fingerprint then (s, Failure(FingerprintMismatch))
    else (Put(s, key, s.sessions[key].(touched := now)), Success(s.files[key]))
  }

  /** Hand a sealed upload to one consumer. */
  function BeginConsume(s: State, key: Key): (State, Result<(), Error>) {
    if !Ready(s, key) then (s, Failure(NotReady))
    else (Put(s, key, s.sessions[key].(consuming := true)), Success(()))
  }

  datatype Event =
    | Asks(message: Message, now: int)
    | Opens(key: Key, fingerprint: string, now: int)
    | Begins(key: Key)
    | Ends(key: Key)

  /** The consumer's end removes the upload; only a consumer ends. */
  function Next(lib: Library, s: State, e: Event): State {
    match e
    case Asks(m, now) => Request(lib, s, m, now).0
    case Opens(key, fingerprint, now) => OpenSealed(s, key, fingerprint, now).0
    case Begins(key) => BeginConsume(s, key).0
    case Ends(key) => if key in s.sessions && s.sessions[key].consuming then Without(s, key) else s
  }

  function Run(lib: Library, s: State, events: seq<Event>): State
    decreases |events|
  {
    if events == [] then s else Run(lib, Next(lib, s, events[0]), events[1..])
  }

  const EMPTY := State(map[], map[])

  // --------------------------------------------------------------------- the service

  class ProjectUploads {
    const lib: Library
    var sessions: map<Key, Session>
    var files: map<Key, Bytes>

    constructor (lib: Library)
      ensures this.lib == lib && Now() == EMPTY
    {
      this.lib := lib;
      sessions, files := map[], map[];
    }

    function Now(): State
      reads this
    {
      State(sessions, files)
    }

    method Drop(keys: set<Key>)
      modifies this
      ensures sessions == old(sessions) - keys && files == old(files) - keys
    {
      sessions, files := sessions - keys, files - keys;
    }

    method Handle(m: Message, now: int) returns (r: Result<Reply, Error>)
      modifies this
      ensures (Now(), r) == Request(lib, old(Now()), m, now)
    {
      Drop(Expired(Now(), now));
      if |m.key| != 32 || !IsHex(m.key) { return Failure(InvalidId); }
      if m.owner == "" || |m.owner| > 256 { return Failure(InvalidOwner); }
      if m.action.Start? {
        var started := StartStep(lib, Now(), m, now);
        if started.Failure? { return Failure(started.error); }
        sessions, files := started.value.sessions, started.value.files;
      }
      if m.key !in sessions || m.key !in files || sessions[m.key].owner != m.owner { return Failure(NotFound); }
      if sessions[m.key].consuming { return Failure(Processing); }
      sessions := sessions[m.key := sessions[m.key].(touched := now)];
      match m.action
      case Discard =>
        Drop({m.key});
        r := Success(Discarded);
      case Unknown => r := Failure(InvalidAction);
      case Start(_, _, _) => r := Success(Status(sessions[m.key]));
      case Chunk(_, _) => r := WriteChunk(m.key, m.action);
      case Seal => r := SealFile(m.key);
    }

    method WriteChunk(key: Key, action: Action) returns (r: Result<Reply, Error>)
      requires action.Chunk? && key in sessions && key in files
      modifies this
      ensures match ChunkStep(old(Now()), key, action)
        case Failure(e) => r == Failure(e) && Now() == old(Now())
        case Success(t) => Now() == t && key in t.sessions && r == Success(Status(t.sessions[key]))
    {
      var session, file := sessions[key], files[key];
      if action.data.None? { return Failure(InvalidChunk); }
      var chunk := action.data.value;
      if !action.offset.Whole? || action.offset.value < 0 || !(0 < |chunk| <= CHUNK_BYTES)
         || action.offset.value + |chunk| > session.size
      {
        return Failure(InvalidOffset);
      }
      var offset: nat := action.offset.value;
      if offset < session.offset {
        if offset + |chunk| > session.offset || offset + |chunk| > |file| || file[offset..offset + |chunk|] != chunk {
          return Failure(RetryMismatch);
        }
      } else if offset == session.offset && !session.sealed && offset <= |file| {
        files := files[key := Overwrite(file, offset, chunk)];
        sessions := sessions[key := session.(offset := session.offset + |chunk|)];
      } else {
        return Failure(InvalidOffset);
      }
      r := Success(Status(sessions[key]));
    }

    method SealFile(key: Key) returns (r: Result<Reply, Error>)
      requires key in sessions && key in files
      modifies this`sessions
      ensures match SealStep(lib, old(Now()), key)
        case Failure(e) => r == Failure(e) && Now() == old(Now())
        case Success(t) => Now() == t && key in t.sessions && r == Success(Status(t.sessions[key]))
    {
      var session, file := sessions[key], files[key];
      if session.offset != session.size { return Failure(Incomplete); }
      if !IsArchive(file) { return Failure(InvalidArchive); }
      if lib.digest(file) != session.fingerprint { return Failure(FingerprintMismatch); }
      sessions := sessions[key := session.(sealed := true)];
      r := Success(Status(sessions[key]));
    }

    method Open(key: Key, fingerprint: string, now: int) returns (r: Result<Bytes, Error>)
      modifies this`sessions
      ensures (Now(), r) == OpenSealed(old(Now()), key, fingerprint, now)
    {
      if !Ready(Now(), key) || key !in files { return Failure(NotReady); }
      if sessions[key].fingerprint != fingerprint { return Failure(FingerprintMismatch); }
      sessions := sessions[key := sessions[key].(touched := now)];
      r := Success(files[key]);
    }

    method Begin(key: Key) returns (r: Result<(), Error>)
      modifies this`sessions
      ensures (Now(), r) == BeginConsume(old(Now()), key)
    {
      if !Ready(Now(), key) { return Failure(NotReady); }
      sessions := sessions[key := sessions[key].(consuming := true)];
      r := Success(());
    }

    method End(key: Key)
      modifies this
      ensures Now() == Next(lib, old(Now()), Ends(key))
    {
      if key in sessions && sessions[key].consuming { Drop({key}); }
    }
  }

  // --------------------------------------------------------------------- invariants

  /** A staged file is as long as its offset; a sealed one is whole and has its fingerprint. */
  ghost predicate Staged(lib: Library, session: Session, file: Bytes) {
    && session.offset == |file| <= session.size <= MAX_BYTES
    && (session.sealed ==> |file| == session.size && lib.digest(file) == session.fingerprint && IsArchive(file))
    && (session.consuming ==> session.sealed)
  }

  ghost predicate Inv(lib: Library, s: State) {
    && s.files.Keys == s.sessions.Keys && |s.sessions| <= MAX_SESSIONS
    && forall k :: k in s.sessions ==> Staged(lib, s.sessions[k], s.files[k])
  }

  lemma SmallerMap(m: map<Key, Session>, keys: set<Key>)
    ensures |m - keys| <= |m|
  {
    assert (m - keys).Keys == m.Keys - keys;
    SubsetSize(m.Keys - keys, m.Keys);
    assert |(m - keys).Keys| == |m - keys| && |m.Keys| == |m|;
  }

  lemma {:induction false} SubsetSize(a: set<Key>, b: set<Key>)
    requires a <= b
    ensures |a| <= |b|
    decreases a
  {
    if a != {} {
      var x :| x in a;
      SubsetSize(a - {x}, b - {x});
    }
  }

  lemma SameSize(m: map<Key, Session>, key: Key, session: Session)
    ensures |m[key := session]| == if key in m then |m| else |m| + 1
  {
    var n := m[key := session];
    assert n.Keys == m.Keys + {key};
    assert |n.Keys| == |n| && |m.Keys| == |m|;
  }

  lemma DropKeeps(lib: Library, s: State, keys: set<Key>)
    requires Inv(lib, s)
    ensures Inv(lib, State(s.sessions - keys, s.files - keys))
  {
    SmallerMap(s.sessions, keys);
  }

  lemma PutKeeps(lib: Library, s: State, key: Key, session: Session, file: Bytes)
    requires Inv(lib, s) && key in s.sessions && Staged(lib, session, file)
    ensures Inv(lib, State(s.sessions[key := session], s.files[key := file]))
  {
    SameSize(s.sessions, key, session);
  }

  lemma SamePut(s: State, key: Key, session: Session)
    requires key in s.files
    ensures Put(s, key, session) == State(s.sessions[key := session], s.files[key := s.files[key]])
  {
  }

  lemma StartKeeps(lib: Library, s: State, m: Message, now: int)
    requires Inv(lib, s) && m.action.Start? && StartStep(lib, s, m, now).Success?
    ensures Inv(lib, StartStep(lib, s, m, now).value)
  {
    var t := StartStep(lib, s, m, now).value;
    if m.key !in s.sessions { SameSize(s.sessions, m.key, t.sessions[m.key]); }
  }

  lemma ChunkKeeps(lib: Library, s: State, key: Key, action: Action)
    requires Inv(lib, s) && key in s.sessions && action.Chunk? && ChunkStep(s, key, action).Success?
    ensures Inv(lib, ChunkStep(s, key, action).value)
  {
    var session, file, chunk := s.sessions[key], s.files[key], action.data.value;
    if action.offset.value == session.offset {
      PutKeeps(lib, s, key, session.(offset := session.offset + |chunk|), Overwrite(file, session.offset, chunk));
    }
  }

  lemma SealKeeps(lib: Library, s: State, key: Key)
    requires Inv(lib, s) && key in s.sessions && SealStep(lib, s, key).Success?
    ensures Inv(lib, SealStep(lib, s, key).value)
  {
    SamePut(s, key, s.sessions[key].(sealed := true));
    PutKeeps(lib, s, key, s.sessions[key].(sealed := true), s.files[key]);
  }

  lemma ActKeeps(lib: Library, s: State, m: Message)
    requires Inv(lib, s) && m.key in s.sessions
    ensures Inv(lib, Act(lib, s, m).0)
  {
    match m.action
    case Discard => DropKeeps(lib, s, {m.key});
    case Chunk(_, _) => if ChunkStep(s, m.key, m.action).Success? { ChunkKeeps(lib, s, m.key, m.action); }
    case Seal => if SealStep(lib, s, m.key).Success? { SealKeeps(lib, s, m.key); }
    case _ =>
  }

  lemma TouchKeeps(lib: Library, s: State, key: Key, now: int)
    requires Inv(lib, s) && key in s.sessions
    ensures Inv(lib, Put(s, key, s.sessions[key].(touched := now)))
  {
    SamePut(s, key, s.sessions[key].(touched := now));
    PutKeeps(lib, s, key, s.sessions[key].(touched := now), s.files[key]);
  }

  predicate Addressed(m: Message) { |m.key| == 32 && IsHex(m.key) && m.owner != "" && |m.owner| <= 256 }

  /** What a message finds: the live sessions, and its own once it has opened it. */
  function Arrived(lib: Library, s: State, m: Message, now: int): State {
    var kept := Expire(s, now);
    if Addressed(m) && m.action.Start? && StartStep(lib, kept, m, now).Success?
    then StartStep(lib, kept, m, now).value
    else kept
  }

  predicate Proceeds(lib: Library, s: State, m: Message, now: int) {
    var t := Arrived(lib, s, m, now);
    && Addressed(m) && (m.action.Start? ==> StartStep(lib, Expire(s, now), m, now).Success?)
    && m.key in t.sessions && m.key in t.files && t.sessions[m.key].owner == m.owner && !t.sessions[m.key].consuming
  }

  function Touched(s: State, key: Key, now: int): State
    requires key in s.sessions
  {
    Put(s, key, s.sessions[key].(touched := now))
  }

  lemma RequestIs(lib: Library, s: State, m: Message, now: int)
    ensures var t := Arrived(lib, s, m, now);
      if Proceeds(lib, s, m, now) then Request(lib, s, m, now) == Act(lib, Touched(t, m.key, now), m)
      else Request(lib, s, m, now).0 == t && Request(lib, s, m, now).1.Failure?
  {
  }

  lemma ArrivedKeeps(lib: Library, s: State, m: Message, now: int)
    requires Inv(lib, s)
    ensures Inv(lib, Arrived(lib, s, m, now))
  {
    DropKeeps(lib, s, Expired(s, now));
    var kept := Expire(s, now);
    if m.action.Start? && StartStep(lib, kept, m, now).Success? { StartKeeps(lib, kept, m, now); }
  }

  lemma RequestKeeps(lib: Library, s: State, m: Message, now: int)
    requires Inv(lib, s)
    ensures Inv(lib, Request(lib, s, m, now).0)
  {
    RequestIs(lib, s, m, now);
    ArrivedKeeps(lib, s, m, now);
    if Proceeds(lib, s, m, now) {
      var t := Arrived(lib, s, m, now);
      TouchKeeps(lib, t, m.key, now);
      ActKeeps(lib, Touched(t, m.key, now), m);
    }
  }

  /** No message, valid or not, and no consumer breaks the invariant. */
  lemma StepKeeps(lib: Library, s: State, e: Event)
    requires Inv(lib, s)
    ensures Inv(lib, Next(lib, s, e))
  {
    match e
    case Asks(m, now) => RequestKeeps(lib, s, m, now);
    case Opens(key, _, now) => if key in s.sessions { TouchKeeps(lib, s, key, now); }
    case Begins(key) =>
      if Ready(s, key) {
        SamePut(s, key, s.sessions[key].(consuming := true));
        PutKeeps(lib, s, key, s.sessions[key].(consuming := true), s.files[key]);
      }
    case Ends(key) => DropKeeps(lib, s, {key});
  }

  lemma {:induction false} RunKeeps(lib: Library, s: State, events: seq<Event>)
    requires Inv(lib, s)
    ensures Inv(lib, Run(lib, s, events))
    decreases |events|
  {
    if events != [] {
      StepKeeps(lib, s, events[0]);
      RunKeeps(lib, Next(lib, s, events[0]), events[1..]);
    }
  }

  // ------------------------------------------------------------------------ theorems

  /** A chunk for this upload is a cut of the source at the place it names. */
  ghost predicate CutFrom(source: Bytes, key: Key, e: Event) {
    e.Asks? && e.message.key == key && e.message.action.Chunk? && e.message.action.data.Some?
      && e.message.action.offset.Whole? && 0 <= e.message.action.offset.value ==>
      var offset, chunk := e.message.action.offset.value, e.message.action.data.value;
      offset + |chunk| <= |source| && chunk == source[offset..offset + |chunk|]
  }

  ghost predicate PrefixOf(source: Bytes, key: Key, s: State) { key in s.files ==> s.files[key] <= source }

  lemma ChunkExtends(s: State, key: Key, action: Action, source: Bytes)
    requires action.Chunk? && key in s.sessions && key in s.files && ChunkStep(s, key, action).Success?
    requires s.sessions[key].offset == |s.files[key]| && s.files[key] <= source
    requires var offset, chunk := action.offset.value, action.data.value;
      offset + |chunk| <= |source| && chunk == source[offset..offset + |chunk|]
    ensures PrefixOf(source, key, ChunkStep(s, key, action).value)
  {
    var offset, chunk, file := action.offset.value, action.data.value, s.files[key];
    if offset == s.sessions[key].offset {
      assert file == source[..offset];
      assert Overwrite(file, offset, chunk) == source[..offset + |chunk|];
    }
  }

  lemma ActOnOthers(lib: Library, s: State, m: Message, key: Key)
    requires m.key in s.sessions && m.key in s.files && key != m.key
    ensures var t := Act(lib, s, m).0;
      && (key in t.files <==> key in s.files) && (key in s.files ==> t.files[key] == s.files[key])
      && (key in t.sessions <==> key in s.sessions) && (key in s.sessions ==> t.sessions[key] == s.sessions[key])
  {
  }

  /** An upload not expired is found as it was; a new one is empty. */
  lemma ArrivedSame(lib: Library, s: State, m: Message, now: int, key: Key)
    requires Inv(lib, s)
    ensures var t := Arrived(lib, s, m, now);
      if key in s.sessions && key !in Expired(s, now) then
        key in t.sessions && key in t.files && t.sessions[key] == s.sessions[key] && t.files[key] == s.files[key]
      else
        key in t.sessions ==> m.action.Start? && key in t.files && t.files[key] == [] && !t.sessions[key].sealed
  {
    ArrivedKeeps(lib, s, m, now);
    var kept := Expire(s, now);
    assert key in kept.sessions <==> key in s.sessions && key !in Expired(s, now);
    assert kept.files.Keys == kept.sessions.Keys;
  }

  lemma RequestKeepsPrefix(lib: Library, s: State, m: Message, now: int, key: Key, source: Bytes)
    requires Inv(lib, s) && PrefixOf(source, key, s) && CutFrom(source, key, Asks(m, now))
    ensures PrefixOf(source, key, Request(lib, s, m, now).0)
  {
    RequestIs(lib, s, m, now);
    ArrivedSame(lib, s, m, now, key);
    ArrivedKeeps(lib, s, m, now);
    var t := Arrived(lib, s, m, now);
    assert PrefixOf(source, key, t);
    if Proceeds(lib, s, m, now) {
      ActKeepsPrefix(lib, Touched(t, m.key, now), m, now, key, source);
    }
  }

  lemma ActKeepsPrefix(lib: Library, s: State, m: Message, now: int, key: Key, source: Bytes)
    requires m.key in s.sessions && m.key in s.files && PrefixOf(source, key, s) && CutFrom(source, key, Asks(m, now))
    requires s.sessions[m.key].offset == |s.files[m.key]|
    ensures PrefixOf(source, key, Act(lib, s, m).0)
  {
    if m.key != key {
      ActOnOthers(lib, s, m, key);
    } else if m.action.Chunk? && ChunkStep(s, key, m.action).Success? {
      ChunkExtends(s, key, m.action, source);
    }
  }

  /**
    However the messages of an upload are repeated, reordered or mixed with others, the staged file is the
    part of the source before the offset.
   */
  lemma {:induction false} StagedIsPrefix(lib: Library, s: State, events: seq<Event>, key: Key, source: Bytes)
    requires Inv(lib, s) && PrefixOf(source, key, s)
    requires forall i :: 0 <= i < |events| ==> CutFrom(source, key, events[i])
    ensures var t := Run(lib, s, events);
      key in t.sessions ==>
        && key in t.files && t.sessions[key].offset <= |source|
        && t.files[key] == source[..t.sessions[key].offset]
    decreases |events|
  {
    if events != [] {
      var e := events[0];
      StepKeeps(lib, s, e);
      if e.Asks? { RequestKeepsPrefix(lib, s, e.message, e.now, key, source); }
      StagedIsPrefix(lib, Next(lib, s, e), events[1..], key, source);
    }
  }

  /** After any run, a sealed upload has its declared size and fingerprint. */
  lemma {:induction false} SealedIsWhole(lib: Library, events: seq<Event>, key: Key)
    ensures var s := Run(lib, EMPTY, events);
      key in s.sessions && s.sessions[key].sealed ==>
        && key in s.files && |s.files[key]| == s.sessions[key].size
        && lib.digest(s.files[key]) == s.sessions[key].fingerprint
  {
    RunKeeps(lib, EMPTY, events);
  }

  ghost predicate SameUpload(a: Session, b: Session) {
    a.owner == b.owner && a.size == b.size && a.name == b.name && a.fingerprint == b.fingerprint
  }

  lemma SealedAct(lib: Library, s: State, m: Message, key: Key)
    requires m.key in s.sessions && m.key in s.files && key in s.sessions && key in s.files
    requires s.sessions[key].sealed
    ensures var t := Act(lib, s, m).0;
      key in t.sessions ==>
        key in t.files && t.sessions[key].sealed && t.files[key] == s.files[key]
        && SameUpload(t.sessions[key], s.sessions[key])
  {
    if m.key != key { ActOnOthers(lib, s, m, key); }
  }

  /** One event leaves a sealed upload as it is, or takes it away. */
  lemma SealedStays(lib: Library, s: State, e: Event, key: Key)
    requires Inv(lib, s) && key in s.sessions && s.sessions[key].sealed
    requires e.Asks? ==> key !in Expired(s, e.now)
    ensures var t := Next(lib, s, e);
      key in t.sessions ==>
        key in t.files && t.sessions[key].sealed && t.files[key] == s.files[key]
        && SameUpload(t.sessions[key], s.sessions[key])
  {
    if e.Asks? {
      RequestIs(lib, s, e.message, e.now);
      ArrivedSame(lib, s, e.message, e.now, key);
      if Proceeds(lib, s, e.message, e.now) {
        SealedAct(lib, Touched(Arrived(lib, s, e.message, e.now), e.message.key, e.now), e.message, key);
      }
    }
  }

  /** What takes an upload away: its expiry, its owner's discarding it, or its consumer's end. */
  predicate TakesAway(s: State, e: Event, key: Key) {
    match e
    case Asks(m, now) => key in Expired(s, now) || (m.key == key && m.action.Discard?)
    case Ends(k) => k == key
    case _ => false
  }

  lemma ActStays(lib: Library, s: State, m: Message, key: Key)
    requires m.key in s.sessions && m.key in s.files && key in s.sessions && key in s.files
    requires !(m.key == key && m.action.Discard?)
    ensures key in Act(lib, s, m).0.sessions
  {
    if m.key != key { ActOnOthers(lib, s, m, key); }
  }

  lemma StaysUnlessTaken(lib: Library, s: State, e: Event, key: Key)
    requires Inv(lib, s) && key in s.sessions && !TakesAway(s, e, key)
    ensures key in Next(lib, s, e).sessions
  {
    if e.Asks? {
      RequestIs(lib, s, e.message, e.now);
      ArrivedSame(lib, s, e.message, e.now, key);
      if Proceeds(lib, s, e.message, e.now) {
        ActStays(lib, Touched(Arrived(lib, s, e.message, e.now), e.message.key, e.now), e.message, key);
      }
    }
  }

  /** No event of the run takes the upload away. */
  ghost predicate Undisturbed(lib: Library, s: State, events: seq<Event>, key: Key)
    decreases |events|
  {
    events == [] || (!TakesAway(s, events[0], key) && Undisturbed(lib, Next(lib, s, events[0]), events[1..], key))
  }

  /**
    Over any run, however many chunks, seals and other uploads' messages it holds, a sealed upload stays, sealed and
    byte for byte the same, until it is discarded, consumed or expired.
   */
  lemma {:induction false} SealedIsFrozen(lib: Library, s: State, events: seq<Event>, key: Key)
    requires Inv(lib, s) && key in s.sessions && s.sessions[key].sealed && Undisturbed(lib, s, events, key)
    ensures var t := Run(lib, s, events);
      && key in t.sessions && key in t.files && t.sessions[key].sealed && t.files[key] == s.files[key]
      && SameUpload(t.sessions[key], s.sessions[key])
    decreases |events|
  {
    if events != [] {
      hide TakesAway;
      hide Next;
      var e := events[0];
      StepKeeps(lib, s, e);
      StaysUnlessTaken(lib, s, e, key);
      NotExpired(s, e, key);
      SealedStays(lib, s, e, key);
      SealedIsFrozen(lib, Next(lib, s, e), events[1..], key);
    }
  }

  lemma NotExpired(s: State, e: Event, key: Key)
    requires !TakesAway(s, e, key)
    ensures e.Asks? ==> key !in Expired(s, e.now)
  {
  }

  /** While one consumer has an upload, nothing else gets, changes, expires or discards it. */
  lemma ConsumedIsHeld(lib: Library, s: State, e: Event, key: Key)
    requires Inv(lib, s) && key in s.sessions && s.sessions[key].consuming && e != Ends(key)
    ensures var t := Next(lib, s, e);
      key in t.sessions && key in t.files && t.sessions[key].consuming && t.files[key] == s.files[key]
    ensures e == Begins(key) ==> BeginConsume(s, key).1 == Failure(NotReady)
    ensures e.Opens? && e.key == key ==> OpenSealed(s, key, e.fingerprint, e.now).1 == Failure(NotReady)
    ensures e.Asks? && e.message.key == key ==> Request(lib, s, e.message, e.now).1.Failure?
  {
    if e.Asks? {
      assert key !in Expired(s, e.now);
      RequestIs(lib, s, e.message, e.now);
      ArrivedSame(lib, s, e.message, e.now, key);
      if Proceeds(lib, s, e.message, e.now) {
        var t := Arrived(lib, s, e.message, e.now);
        ActOnOthers(lib, Touched(t, e.message.key, e.now), e.message, key);
      }
    }
  }

  /** In every run, a second consumer is refused until the first has ended. */
  lemma {:induction false} OneConsumerAtATime(lib: Library, s: State, events: seq<Event>, key: Key)
    requires Inv(lib, s) && key in s.sessions && s.sessions[key].consuming
    requires forall i :: 0 <= i < |events| ==> events[i] != Ends(key)
    ensures var t := Run(lib, s, events);
      && key in t.sessions && t.sessions[key].consuming && key in t.files && t.files[key] == s.files[key]
      && BeginConsume(t, key).1 == Failure(NotReady)
    decreases |events|
  {
    if events != [] {
      StepKeeps(lib, s, events[0]);
      ConsumedIsHeld(lib, s, events[0], key);
      OneConsumerAtATime(lib, Next(lib, s, events[0]), events[1..], key);
    }
  }

  /** Sending an accepted chunk again within the session's time is accepted and changes no byte. */
  lemma ResendIsHarmless(lib: Library, s: State, m: Message, now: int, later: int)
    requires Inv(lib, s) && m.action.Chunk? && Request(lib, s, m, now).1.Success? && later - now <= TTL
    ensures var t := Request(lib, s, m, now).0;
      var again := Request(lib, t, m, later);
      && again.1.Success? && m.key in again.0.sessions && m.key in t.sessions
      && m.key in again.0.files && m.key in t.files
      && again.0.files[m.key] == t.files[m.key]
      && again.0.sessions[m.key].offset == t.sessions[m.key].offset
  {
    var t := Request(lib, s, m, now).0;
    RequestIs(lib, s, m, now);
    var acted := Touched(Arrived(lib, s, m, now), m.key, now);
    ArrivedKeeps(lib, s, m, now);
    ChunkThere(acted, m.key, m.action);
    RequestKeeps(lib, s, m, now);
    assert m.key !in Expired(t, later);
    RequestIs(lib, t, m, later);
    ArrivedSame(lib, t, m, later, m.key);
    assert Proceeds(lib, t, m, later);
    ChunkAgain(Touched(Arrived(lib, t, m, later), m.key, later), m.key, m.action);
  }

  lemma ChunkAgain(s: State, key: Key, action: Action)
    requires action.Chunk? && key in s.sessions && key in s.files && s.sessions[key].offset == |s.files[key]|
    requires action.data.Some? && action.offset.Whole? && 0 <= action.offset.value
    requires 0 < |action.data.value| <= CHUNK_BYTES
    requires action.offset.value + |action.data.value| <= s.sessions[key].offset <= s.sessions[key].size
    requires s.files[key][action.offset.value..action.offset.value + |action.data.value|] == action.data.value
    ensures ChunkStep(s, key, action) == Success(s)
  {
  }

  lemma ChunkThere(s: State, key: Key, action: Action)
    requires action.Chunk? && key in s.sessions && key in s.files && ChunkStep(s, key, action).Success?
    requires s.sessions[key].offset == |s.files[key]| <= s.sessions[key].size
    ensures var t := ChunkStep(s, key, action).value;
      && key in t.sessions && key in t.files && t.sessions[key].offset == |t.files[key]|
      && action.offset.value + |action.data.value| <= t.sessions[key].offset
      && t.files[key][action.offset.value..action.offset.value + |action.data.value|] == action.data.value
      && t.sessions[key].size == s.sessions[key].size && t.sessions[key].offset <= t.sessions[key].size
      && t.sessions[key].touched == s.sessions[key].touched && t.sessions[key].owner == s.sessions[key].owner
      && t.sessions[key].consuming == s.sessions[key].consuming
  {
  }
}
