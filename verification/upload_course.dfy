/** One upload from its opening to its consumer: each message, told by what it finds, and the whole course. */
module UploadCourse {
  import opened Common
  import opened ProjectUpload

  // -------------------------------------------------------------------- one message

  ghost predicate Hex(s: string) { forall i :: 0 <= i < |s| ==> s[i] in "0123456789abcdef" }

  lemma HexIs(s: string)
    ensures IsHex(s) <==> Hex(s)
  {
    forall c: char ensures ('0' <= c <= '9' || 'a' <= c <= 'f') <==> c in "0123456789abcdef" { HexDigitIs(c); }
  }

  lemma HexDigitIs(c: char)
    ensures ('0' <= c <= '9' || 'a' <= c <= 'f') <==> c in "0123456789abcdef"
  {
  }

  /** The three signatures a zip file can begin with. */
  ghost predicate Zip(file: Bytes) {
    && |file| >= 4 && file[0] == 80 && file[1] == 75
    && ((file[2] == 3 && file[3] == 4) || (file[2] == 5 && file[3] == 6) || (file[2] == 7 && file[3] == 8))
  }

  lemma ZipIs(file: Bytes)
    ensures IsArchive(file) <==> Zip(file)
  {
    if |file| >= 4 { assert file[..4] == [file[0], file[1], file[2], file[3]]; }
  }

  /** Messages of one owner about one upload. */
  ghost predicate Speaks(key: Key, owner: string) { |key| == 32 && Hex(key) && 1 <= |owner| <= 256 }

  /** It is this owner's, still fresh, and nobody consumes it. */
  predicate Lives(s: State, key: Key, owner: string, now: int) {
    && key in s.sessions && key in s.files && s.sessions[key].owner == owner && !s.sessions[key].consuming
    && now - s.sessions[key].touched <= 1800
  }

  lemma LivesOn(s: State, key: Key, owner: string, now: int)
    requires Lives(s, key, owner, now)
    ensures var t := Expire(s, now);
      key in t.sessions && key in t.files && t.sessions[key] == s.sessions[key] && t.files[key] == s.files[key]
  {
  }

  /** What a message does to everything but its own upload: the expired go. */
  ghost predicate OnlyOwn(s: State, t: State, key: Key, now: int) {
    forall k :: k != key ==>
      && (k in t.sessions <==> k in s.sessions && (now - s.sessions[k].touched <= 1800 || s.sessions[k].consuming))
      && (k in t.sessions ==> t.sessions[k] == s.sessions[k])
      && (k in t.sessions && k in s.files ==> k in t.files && t.files[k] == s.files[k])
  }

  /** A new upload opens empty, when it is well described and fewer than two others live. */
  lemma StartOpens(lib: Library, s: State, key: Key, owner: string, size: int, name: string, fingerprint: string, now: int)
    requires Speaks(key, owner) && key !in s.sessions && |Expire(s, now).sessions| < 2
    requires 4 <= size <= 104857600 && |name| <= 255 && lib.validName(name) && |fingerprint| == 64 && Hex(fingerprint)
    ensures var (t, r) := Request(lib, s, Message(key, owner, Start(Whole(size), Some(name), Some(fingerprint))), now);
      && r == Success(Status(Session(owner, size, name, fingerprint, 0, now, false, false)))
      && key in t.sessions && key in t.files && r.value.session == t.sessions[key] && t.files[key] == []
      && OnlyOwn(s, t, key, now)
  {
    HexIs(key);
    HexIs(fingerprint);
    var m := Message(key, owner, Start(Whole(size), Some(name), Some(fingerprint)));
    StartStepOpens(lib, Expire(s, now), m, now);
    RequestStarts(lib, s, m, now);
    var session := Session(owner, size, name, fingerprint, 0, now, false, false);
    AddedOnly(s, State(Expire(s, now).sessions[key := session], Expire(s, now).files[key := []]), key, now);
    hide *;
  }

  lemma AddedOnly(s: State, t: State, key: Key, now: int)
    requires key in t.sessions && t.sessions == Expire(s, now).sessions[key := t.sessions[key]]
    requires key in t.files && t.files == Expire(s, now).files[key := t.files[key]]
    ensures OnlyOwn(s, t, key, now)
  {
    ExpireOnly(s, now);
    hide Expire;
  }

  lemma RequestStarts(lib: Library, s: State, m: Message, now: int)
    requires |m.key| == 32 && IsHex(m.key) && 1 <= |m.owner| <= 256 && m.action.Start?
    requires StartStep(lib, Expire(s, now), m, now).Success?
    requires var t := StartStep(lib, Expire(s, now), m, now).value;
      && m.key in t.sessions && m.key in t.files && t.sessions[m.key].owner == m.owner
      && !t.sessions[m.key].consuming && t.sessions[m.key].touched == now
    ensures var t := StartStep(lib, Expire(s, now), m, now).value;
      Request(lib, s, m, now) == (t, Success(Status(t.sessions[m.key])))
  {
    var t := StartStep(lib, Expire(s, now), m, now).value;
    assert Put(t, m.key, t.sessions[m.key].(touched := now)) == t;
    hide StartStep;
    hide Expire;
    hide IsHex;
  }

  lemma ExpireOnly(s: State, now: int)
    ensures forall k :: k in Expire(s, now).sessions <==>
      k in s.sessions && (now - s.sessions[k].touched <= 1800 || s.sessions[k].consuming)
    ensures forall k :: k in Expire(s, now).sessions ==> Expire(s, now).sessions[k] == s.sessions[k]
    ensures forall k :: k in Expire(s, now).sessions && k in s.files ==>
      k in Expire(s, now).files && Expire(s, now).files[k] == s.files[k]
  {
  }

  lemma StartStepOpens(lib: Library, s: State, m: Message, now: int)
    requires m.action.Start? && m.key !in s.sessions && |s.sessions| < 2
    requires m.action.size.Whole? && 4 <= m.action.size.value <= 104857600
    requires m.action.name.Some? && |m.action.name.value| <= 255 && lib.validName(m.action.name.value)
    requires m.action.fingerprint.Some? && |m.action.fingerprint.value| == 64 && IsHex(m.action.fingerprint.value)
    ensures var session := Session(m.owner, m.action.size.value, m.action.name.value, m.action.fingerprint.value, 0, now,
                                   false, false);
      StartStep(lib, s, m, now) == Success(State(s.sessions[m.key := session], s.files[m.key := []]))
  {
    hide IsHex;
  }

  /** A third is turned away. */
  lemma ThirdIsTurnedAway(lib: Library, s: State, key: Key, owner: string, size: int, name: string, fingerprint: string, now: int)
    requires Speaks(key, owner) && key !in s.sessions && |Expire(s, now).sessions| >= 2
    requires 4 <= size <= 104857600 && |name| <= 255 && lib.validName(name) && |fingerprint| == 64 && Hex(fingerprint)
    ensures Request(lib, s, Message(key, owner, Start(Whole(size), Some(name), Some(fingerprint))), now) ==
      (Expire(s, now), Failure(CapacityReached))
  {
    HexIs(key);
    HexIs(fingerprint);
    hide IsHex;
    hide Hex;
  }

  /** The next chunk is appended. */
  lemma ChunkAppends(lib: Library, s: State, key: Key, owner: string, chunk: Bytes, now: int)
    requires Speaks(key, owner) && Lives(s, key, owner, now) && !s.sessions[key].sealed
    requires s.sessions[key].offset == |s.files[key]| && 1 <= |chunk| <= 524288
    requires |s.files[key]| + |chunk| <= s.sessions[key].size
    ensures var (t, r) :=
        Request(lib, s, Message(key, owner, Chunk(Some(chunk), Whole(|s.files[key]|))), now);
      && key in t.sessions && key in t.files
      && t.sessions[key] == s.sessions[key].(offset := |s.files[key]| + |chunk|, touched := now)
      && t.files[key] == s.files[key] + chunk
      && r == Success(Status(t.sessions[key])) && OnlyOwn(s, t, key, now)
  {
    HexIs(key);
    LivesOn(s, key, owner, now);
    hide IsHex;
    hide Hex;
  }

  /** A complete upload with the right beginning and fingerprint is sealed, and only such a one. */
  lemma SealSealsExactly(lib: Library, s: State, key: Key, owner: string, now: int)
    requires Speaks(key, owner) && Lives(s, key, owner, now)
    ensures var (t, r) := Request(lib, s, Message(key, owner, Seal), now);
      var good := s.sessions[key].offset == s.sessions[key].size && Zip(s.files[key])
                  && lib.digest(s.files[key]) == s.sessions[key].fingerprint;
      && key in t.sessions && key in t.files && t.files[key] == s.files[key]
      && t.sessions[key] == s.sessions[key].(touched := now, sealed := s.sessions[key].sealed || good)
      && (good ==> r == Success(Status(t.sessions[key]))) && (!good ==> r.Failure?)
  {
    HexIs(key);
    ZipIs(s.files[key]);
    LivesOn(s, key, owner, now);
    hide IsHex;
    hide Hex;
    hide IsArchive;
    hide Zip;
  }

  /** Its owner can discard it. */
  lemma DiscardRemoves(lib: Library, s: State, key: Key, owner: string, now: int)
    requires Speaks(key, owner) && Lives(s, key, owner, now)
    ensures var (t, r) := Request(lib, s, Message(key, owner, Discard), now);
      r == Success(Discarded) && key !in t.sessions && key !in t.files && OnlyOwn(s, t, key, now)
  {
    HexIs(key);
    LivesOn(s, key, owner, now);
    hide IsHex;
    hide Hex;
  }

  // -------------------------------------------------------------------- what is refused

  /** The first thing wrong with a message, before its action is looked at. */
  function Unheard(s: State, key: Key, owner: string, start: bool): Option<Error> {
    if |key| != 32 || exists i :: 0 <= i < |key| && key[i] !in "0123456789abcdef" then Some(InvalidId)
    else if owner == "" || |owner| > 256 then Some(InvalidOwner)
    else if start then None
    else if key !in s.sessions || key !in s.files || s.sessions[key].owner != owner then Some(NotFound)
    else if s.sessions[key].consuming then Some(Processing)
    else None
  }

  /** Whatever is refused so changes nothing but that the expired go. */
  lemma UnheardChangesNothing(lib: Library, s: State, m: Message, now: int)
    ensures var x := Expire(s, now);
      Unheard(x, m.key, m.owner, m.action.Start?).Some? ==>
        Request(lib, s, m, now) == (x, Failure(Unheard(x, m.key, m.owner, m.action.Start?).value))
    ensures m.action.Unknown? && Unheard(Expire(s, now), m.key, m.owner, false).None? ==>
      Request(lib, s, m, now).1 == Failure(InvalidAction)
  {
    HexIs(m.key);
    hide IsHex;
    hide StartStep;
    hide Expire;
  }

  predicate WellSized(a: Action) requires a.Start? { a.size.Whole? && 4 <= a.size.value && a.size.value <= 104857600 }

  predicate WellNamed(lib: Library, a: Action)
    requires a.Start?
  {
    a.name.Some? && |a.name.value| <= 255 && lib.validName(a.name.value)
  }

  ghost predicate WellMarked(a: Action)
    requires a.Start?
  {
    a.fingerprint.Some? && |a.fingerprint.value| == 64 && Hex(a.fingerprint.value)
  }

  /** An upload that is open already is only opened again for the same owner, size, name and fingerprint. */
  predicate SameUpload(session: Session, owner: string, a: Action)
    requires a.Start?
  {
    && owner == session.owner && a.size == Whole(session.size) && a.name == Some(session.name)
    && a.fingerprint == Some(session.fingerprint)
  }

  lemma StartIsRefusedExactly(lib: Library, s: State, m: Message, now: int)
    requires m.action.Start? && Unheard(Expire(s, now), m.key, m.owner, true).None?
    ensures var (t, r) := Request(lib, s, m, now);
      var x, a := Expire(s, now), m.action;
      if !WellSized(a) then (t, r) == (x, Failure(TooLarge))
      else if !WellNamed(lib, a) then (t, r) == (x, Failure(InvalidName))
      else if !WellMarked(a) then (t, r) == (x, Failure(InvalidFingerprint))
      else if m.key !in x.sessions then (|x.sessions| >= 2 ==> (t, r) == (x, Failure(CapacityReached)))
      else if !SameUpload(x.sessions[m.key], m.owner, a) then (t, r) == (x, Failure(MetadataMismatch))
      else if m.key !in x.files then (t, r) == (x, Failure(NotFound))
      else if x.sessions[m.key].consuming then (t, r) == (x, Failure(Processing))
      else
        && t == x.(sessions := x.sessions[m.key := x.sessions[m.key].(touched := now)])
        && r == Success(Status(t.sessions[m.key]))
  {
    HexIs(m.key);
    StartStepExactly(lib, Expire(s, now), m, now);
    hide IsHex;
    hide Expire;
    hide Hex;
    hide WellMarked;
    hide StartStep;
  }

  lemma StartStepExactly(lib: Library, x: State, m: Message, now: int)
    requires m.action.Start?
    ensures var r, a := StartStep(lib, x, m, now), m.action;
      if !WellSized(a) then r == Failure(TooLarge)
      else if !WellNamed(lib, a) then r == Failure(InvalidName)
      else if !WellMarked(a) then r == Failure(InvalidFingerprint)
      else if m.key !in x.sessions then (|x.sessions| >= 2 ==> r == Failure(CapacityReached))
      else if !SameUpload(x.sessions[m.key], m.owner, a) then r == Failure(MetadataMismatch)
      else r == Success(x)
  {
    if m.action.fingerprint.Some? { HexIs(m.action.fingerprint.value); }
    hide IsHex;
    hide Hex;
  }

  /** What becomes of a chunk that is not the next one: it is refused, or it repeats what is there already. */
  lemma ChunkIsRefusedExactly(lib: Library, s: State, m: Message, now: int)
    requires m.action.Chunk? && Unheard(Expire(s, now), m.key, m.owner, false).None?
    ensures var (t, r) := Request(lib, s, m, now);
      var x, a := Expire(s, now), m.action;
      var session, file := x.sessions[m.key], x.files[m.key];
      var touched := x.(sessions := x.sessions[m.key := session.(touched := now)]);
      if a.data.None? then (t, r) == (touched, Failure(InvalidChunk))
      else
        var chunk := a.data.value;
        if a.offset.Other? || a.offset.value < 0 || chunk == [] || |chunk| > 524288
           || a.offset.value + |chunk| > session.size
        then (t, r) == (touched, Failure(InvalidOffset))
        else if a.offset.value < session.offset then
          var repeats := a.offset.value + |chunk| <= session.offset && session.offset <= |file|
                         && forall i :: 0 <= i < |chunk| ==> file[a.offset.value + i] == chunk[i];
          session.offset <= |file| ==>
            (t, r) == (touched, if repeats then Success(Status(touched.sessions[m.key])) else Failure(RetryMismatch))
        else if a.offset.value > session.offset || session.sealed then (t, r) == (touched, Failure(InvalidOffset))
        else r.Success? || session.offset > |file|
  {
    HexIs(m.key);
    hide IsHex;
    hide Expire;
    var x, a := Expire(s, now), m.action;
    var session, file := x.sessions[m.key], x.files[m.key];
    if a.data.Some? && a.offset.Whole? && 0 <= a.offset.value && a.offset.value + |a.data.value| <= session.offset <= |file| {
      var slice := file[a.offset.value..a.offset.value + |a.data.value|];
      assert slice == a.data.value <==>
        forall i :: 0 <= i < |a.data.value| ==> file[a.offset.value + i] == a.data.value[i];
    }
  }

  /** Why an upload is not sealed. */
  lemma SealIsRefusedExactly(lib: Library, s: State, m: Message, now: int)
    requires m.action.Seal? && Unheard(Expire(s, now), m.key, m.owner, false).None?
    ensures var r, x := Request(lib, s, m, now).1, Expire(s, now);
      var session, file := x.sessions[m.key], x.files[m.key];
      && (r == Failure(Incomplete) <==> session.offset != session.size)
      && (r == Failure(InvalidArchive) <==> session.offset == session.size && !Zip(file))
      && (r == Failure(Error.FingerprintMismatch) <==>
            session.offset == session.size && Zip(file) && lib.digest(file) != session.fingerprint)
  {
    HexIs(m.key);
    ZipIs(Expire(s, now).files[m.key]);
    hide IsHex;
    hide Expire;
    hide IsArchive;
    hide Zip;
  }

  // ------------------------------------------------------------------------ reading it

  /** A sealed upload nobody consumes is opened by its fingerprint, and only so. */
  lemma OpensExactly(lib: Library, s: State, key: Key, fingerprint: string, now: int)
    requires s.files.Keys == s.sessions.Keys
    ensures Next(lib, s, Opens(key, fingerprint, now)) == OpenSealed(s, key, fingerprint, now).0
    ensures var (t, r) := OpenSealed(s, key, fingerprint, now);
      var ready := key in s.sessions && s.sessions[key].sealed && !s.sessions[key].consuming;
      if ready && s.sessions[key].fingerprint == fingerprint then
        r == Success(s.files[key]) && t == s.(sessions := s.sessions[key := s.sessions[key].(touched := now)])
      else t == s && r == Failure(if ready then Error.FingerprintMismatch else NotReady)
  {
  }

  /** And given to one consumer, whose end removes it. */
  lemma ConsumesExactly(lib: Library, s: State, key: Key)
    ensures Next(lib, s, Begins(key)) == BeginConsume(s, key).0
    ensures var (t, r) := BeginConsume(s, key);
      if key in s.sessions && s.sessions[key].sealed && !s.sessions[key].consuming then
        && r.Success? && t == s.(sessions := s.sessions[key := s.sessions[key].(consuming := true)])
        && BeginConsume(t, key) == (t, Failure(NotReady))
        && Next(lib, t, Ends(key)) == State(s.sessions - {key}, s.files - {key})
      else t == s && r == Failure(NotReady)
    ensures key in s.sessions && !s.sessions[key].consuming ==> Next(lib, s, Ends(key)) == s
  {
  }

  // ------------------------------------------------------------------ the whole course

  /** The chunks of a file, one message each, at these times. */
  function ChunksAt(key: Key, owner: string, pieces: seq<Bytes>, offset: nat, times: seq<int>): seq<Event>
    requires |times| == |pieces|
  {
    if pieces == [] then []
    else
      [Asks(Message(key, owner, Chunk(Some(pieces[0]), Whole(offset))), times[0])]
      + ChunksAt(key, owner, pieces[1..], offset + |pieces[0]|, times[1..])
  }

  /** Nobody pauses longer than half an hour. */
  predicate Steady(from: int, times: seq<int>)
    decreases |times|
  {
    |times| > 0 ==> times[0] - from <= 1800 && Steady(times[0], times[1..])
  }

  ghost predicate Receiving(s: State, key: Key, owner: string, file: Bytes, size: nat, fingerprint: string, touched: int) {
    && key in s.sessions && key in s.files && s.files[key] == file
    && var session := s.sessions[key];
       && session.owner == owner && session.size == size && session.fingerprint == fingerprint
       && session.offset == |file| && session.touched == touched && !session.sealed && !session.consuming
  }

  lemma ChunkReceived(
    lib: Library, s: State, key: Key, owner: string, file: Bytes, size: nat, fingerprint: string, touched: int,
    piece: Bytes, now: int)
    requires Speaks(key, owner) && Receiving(s, key, owner, file, size, fingerprint, touched)
    requires now - touched <= 1800 && 1 <= |piece| <= 524288 && |file| + |piece| <= size
    ensures Receiving(Next(lib, s, Asks(Message(key, owner, Chunk(Some(piece), Whole(|file|))), now)), key, owner,
                      file + piece, size, fingerprint, now)
  {
    ChunkAppends(lib, s, key, owner, piece, now);
    hide Request;
    hide Speaks;
  }

  lemma {:induction false} ChunksArrive(
    lib: Library, s: State, key: Key, owner: string, file: Bytes, size: nat, fingerprint: string, touched: int,
    pieces: seq<Bytes>, times: seq<int>)
    requires Speaks(key, owner) && Receiving(s, key, owner, file, size, fingerprint, touched)
    requires |times| == |pieces| && Steady(touched, times)
    requires forall i :: 0 <= i < |pieces| ==> 1 <= |pieces[i]| <= 524288
    requires |file| + |Concat(pieces)| <= size
    ensures Receiving(Run(lib, s, ChunksAt(key, owner, pieces, |file|, times)), key, owner, file + Concat(pieces), size,
                      fingerprint, if times == [] then touched else times[|times| - 1])
    decreases |pieces|
  {
    if pieces == [] {
      assert file + Concat(pieces) == file;
    } else {
      var piece, rest := pieces[0], pieces[1..];
      ChunkReceived(lib, s, key, owner, file, size, fingerprint, touched, piece, times[0]);
      var e := Asks(Message(key, owner, Chunk(Some(piece), Whole(|file|))), times[0]);
      var next := Next(lib, s, e);
      ChunksArrive(lib, next, key, owner, file + piece, size, fingerprint, times[0], rest, times[1..]);
      assert ChunksAt(key, owner, pieces, |file|, times)[1..] ==
        ChunksAt(key, owner, rest, |file + piece|, times[1..]);
      Regroup(file, piece, Concat(rest));
      hide Next;
      hide Receiving;
      hide Speaks;
    }
  }

  /**
    An archive sent from beginning to end, in whatever pieces of up to half a mebibyte and at whatever steady pace, is
    sealed with exactly its bytes.
   */
  lemma {:induction false} UploadCompletes(
    lib: Library, s: State, key: Key, owner: string, name: string, source: Bytes, pieces: seq<Bytes>, begin: int,
    times: seq<int>, end: int)
    requires Speaks(key, owner) && key !in s.sessions && |Expire(s, begin).sessions| < 2
    requires 4 <= |source| <= 104857600 && |name| <= 255 && lib.validName(name) && Zip(source)
    requires |lib.digest(source)| == 64 && Hex(lib.digest(source))
    requires Concat(pieces) == source && forall i :: 0 <= i < |pieces| ==> 1 <= |pieces[i]| <= 524288
    requires |times| == |pieces| && Steady(begin, times) && end - (if times == [] then begin else times[|times| - 1]) <= 1800
    ensures var start := Message(key, owner, Start(Whole(|source|), Some(name), Some(lib.digest(source))));
      var open := Next(lib, s, Asks(start, begin));
      var sent := Run(lib, open, ChunksAt(key, owner, pieces, 0, times));
      var (t, r) := Request(lib, sent, Message(key, owner, Seal), end);
      r.Success? && key in t.sessions && t.sessions[key].sealed && key in t.files && t.files[key] == source
  {
    var fingerprint := lib.digest(source);
    StartOpens(lib, s, key, owner, |source|, name, fingerprint, begin);
    var open := Next(lib, s, Asks(Message(key, owner, Start(Whole(|source|), Some(name), Some(fingerprint))), begin));
    var none: Bytes := [];
    ChunksArrive(lib, open, key, owner, none, |source|, fingerprint, begin, pieces, times);
    var sent := Run(lib, open, ChunksAt(key, owner, pieces, 0, times));
    assert none + Concat(pieces) == source;
    SealSealsExactly(lib, sent, key, owner, end);
    hide Request;
    hide Run;
  }
}
