/** Finding frames in a serial stream: take a frame where one starts, else move on by a byte. */
module FrameScan {
  import opened Common

  /** The length of the frame a stream begins with, if it begins with one. */
  type Matcher = Bytes -> Option<nat>

  ghost predicate Sensible(m: Matcher) {
    forall s :: m(s).Some? ==> 0 < m(s).value <= |s|
  }

  datatype Slice = Slice(start: nat, end: nat)

  function Scan(m: Matcher, s: Bytes, at: nat): seq<Slice>
    requires Sensible(m)
    decreases |s|
  {
    if s == [] then []
    else
      match m(s)
      case None => Scan(m, s[1..], at + 1)
      case Some(n) => [Slice(at, at + n)] + Scan(m, s[n..], at + n)
  }

  ghost predicate Framed(m: Matcher, s: Bytes, at: nat, slice: Slice) {
    at <= slice.start < slice.end <= at + |s| && m(s[slice.start - at..]) == Some(slice.end - slice.start)
  }

  ghost predicate AllFramed(m: Matcher, s: Bytes, at: nat, slices: seq<Slice>) {
    forall i :: 0 <= i < |slices| ==> Framed(m, s, at, slices[i])
  }

  predicate InOrder(slices: seq<Slice>) {
    forall i, j :: 0 <= i < j < |slices| ==> slices[i].end <= slices[j].start
  }

  lemma FramedLater(m: Matcher, s: Bytes, at: nat, k: nat, slices: seq<Slice>)
    requires k <= |s| && AllFramed(m, s[k..], at + k, slices)
    ensures AllFramed(m, s, at, slices)
  {
    forall i | 0 <= i < |slices| ensures Framed(m, s, at, slices[i]) {
      assert Framed(m, s[k..], at + k, slices[i]);
      assert s[k..][slices[i].start - (at + k)..] == s[slices[i].start - at..];
    }
  }

  lemma OneMoreFrame(m: Matcher, s: Bytes, at: nat, n: nat, rest: seq<Slice>)
    requires m(s) == Some(n) && 0 < n <= |s|
    requires AllFramed(m, s[n..], at + n, rest) && InOrder(rest)
    ensures AllFramed(m, s, at, [Slice(at, at + n)] + rest) && InOrder([Slice(at, at + n)] + rest)
  {
    FramedLater(m, s, at, n, rest);
    FrameFirst(m, s, at, n);
    forall j | 0 <= j < |rest| ensures at + n <= rest[j].start {
      assert Framed(m, s[n..], at + n, rest[j]);
    }
    hide AllFramed;
    hide Framed;
    OrderedCons(Slice(at, at + n), rest);
  }

  lemma FrameFirst(m: Matcher, s: Bytes, at: nat, n: nat)
    requires m(s) == Some(n) && 0 < n <= |s|
    ensures Framed(m, s, at, Slice(at, at + n))
  {
    var first := Slice(at, at + n);
    StartsHere(s, first.start - at);
  }

  lemma StartsHere(s: Bytes, k: nat)
    requires k == 0
    ensures s[k..] == s
  {
  }

  lemma OrderedCons(first: Slice, rest: seq<Slice>)
    requires InOrder(rest) && forall j :: 0 <= j < |rest| ==> first.end <= rest[j].start
    ensures InOrder([first] + rest)
  {
  }

  /** Every slice is a frame of the stream, and they come in order without overlap. */
  lemma {:induction false} SlicesAreFrames(m: Matcher, s: Bytes, at: nat)
    requires Sensible(m)
    ensures AllFramed(m, s, at, Scan(m, s, at)) && InOrder(Scan(m, s, at))
    decreases |s|
  {
    hide AllFramed;
    hide InOrder;
    if s == [] {
      NothingFramed(m, s, at);
    } else {
      match m(s)
      case None =>
        SlicesAreFrames(m, s[1..], at + 1);
        FramedLater(m, s, at, 1, Scan(m, s[1..], at + 1));
      case Some(n) =>
        SlicesAreFrames(m, s[n..], at + n);
        OneMoreFrame(m, s, at, n, Scan(m, s[n..], at + n));
    }
  }

  lemma NothingFramed(m: Matcher, s: Bytes, at: nat)
    ensures AllFramed(m, s, at, []) && InOrder([])
  {
  }

  lemma ScanSkips(m: Matcher, buffer: Bytes, index: nat)
    requires Sensible(m) && index < |buffer| && m(buffer[index..]).None?
    ensures Scan(m, buffer[index..], index) == Scan(m, buffer[index + 1..], index + 1)
  {
    assert buffer[index..][1..] == buffer[index + 1..];
  }

  lemma ScanTakes(m: Matcher, buffer: Bytes, index: nat, n: nat, found: seq<Slice>)
    requires Sensible(m) && index < |buffer| && m(buffer[index..]) == Some(n)
    ensures 0 < n && index + n <= |buffer|
    ensures found + Scan(m, buffer[index..], index) ==
      found + [Slice(index, index + n)] + Scan(m, buffer[index + n..], index + n)
  {
    assert buffer[index..][n..] == buffer[index + n..];
  }

  /** Nothing is missed: no frame starts at a place that no slice covers. */
  lemma {:induction false} NoFrameBetween(m: Matcher, s: Bytes, at: nat, p: nat)
    requires Sensible(m) && at <= p < at + |s|
    requires forall i :: 0 <= i < |Scan(m, s, at)| ==> !(Scan(m, s, at)[i].start <= p < Scan(m, s, at)[i].end)
    ensures m(s[p - at..]).None?
    decreases |s|
  {
    var r := Scan(m, s, at);
    if m(s).Some? {
      var n := m(s).value;
      var rest := Scan(m, s[n..], at + n);
      assert r == [Slice(at, at + n)] + rest;
      assert r[0] == Slice(at, at + n);
      forall i | 0 <= i < |rest| ensures !(rest[i].start <= p < rest[i].end) {
        assert rest[i] == r[i + 1];
      }
      NoFrameBetween(m, s[n..], at + n, p);
      assert s[n..][p - (at + n)..] == s[p - at..];
    } else if p == at {
      assert s[0..] == s;
    } else {
      NoFrameBetween(m, s[1..], at + 1, p);
      assert s[1..][p - (at + 1)..] == s[p - at..];
    }
  }

  /** A stream is made of frames and of noise in which nothing looks like a frame. */
  datatype Item = Frame(bytes: Bytes) | Noise(bytes: Bytes)

  function Flatten(items: seq<Item>): Bytes {
    if items == [] then [] else items[0].bytes + Flatten(items[1..])
  }

  function SlicesOf(items: seq<Item>, at: nat): seq<Slice> {
    if items == [] then []
    else
      (if items[0].Frame? then [Slice(at, at + |items[0].bytes|)] else [])
      + SlicesOf(items[1..], at + |items[0].bytes|)
  }

  ghost predicate SelfDelimiting(m: Matcher, f: Bytes) {
    f != [] && forall rest :: m(f + rest) == Some(|f|)
  }

  ghost predicate Silent(m: Matcher, n: Bytes) {
    forall i, rest :: 0 <= i < |n| ==> m(n[i..] + rest).None?
  }

  ghost predicate Recognizable(m: Matcher, item: Item) {
    if item.Frame? then SelfDelimiting(m, item.bytes) else Silent(m, item.bytes)
  }

  lemma {:induction false} NoiseSkipped(m: Matcher, n: Bytes, rest: Bytes, at: nat)
    requires Sensible(m) && Silent(m, n)
    ensures Scan(m, n + rest, at) == Scan(m, rest, at + |n|)
    decreases |n|
  {
    if n == [] {
      assert n + rest == rest;
    } else {
      assert n[0..] == n;
      assert m(n + rest).None?;
      assert (n + rest)[1..] == n[1..] + rest;
      forall i, more | 0 <= i < |n[1..]| ensures m(n[1..][i..] + more).None? {
        assert n[1..][i..] == n[i + 1..];
      }
      NoiseSkipped(m, n[1..], rest, at + 1);
    }
  }

  /** Scanning a stream of recognizable items finds exactly its frames, in their places. */
  lemma {:induction false} ScanFindsFrames(m: Matcher, items: seq<Item>, at: nat)
    requires Sensible(m) && forall i :: 0 <= i < |items| ==> Recognizable(m, items[i])
    ensures Scan(m, Flatten(items), at) == SlicesOf(items, at)
    decreases |items|
  {
    hide SelfDelimiting;
    hide Silent;
    hide SlicesOf;
    hide Flatten;
    assert items == [] ==> Flatten(items) == [] && SlicesOf(items, at) == [] by { EmptyStream(at); }
    if items != [] {
      var item, rest := items[0], Flatten(items[1..]);
      ScanFindsFrames(m, items[1..], at + |item.bytes|);
      assert Recognizable(m, item);
      SlicesCons(items, at);
      if item.Frame? {
        FrameFound(m, item.bytes, rest, at);
      } else {
        NoiseSkipped(m, item.bytes, rest, at);
      }
    }
  }

  lemma {:induction false} EmptyStream(at: nat)
    ensures Flatten([]) == [] && SlicesOf([], at) == []
  {
  }

  lemma SlicesCons(items: seq<Item>, at: nat)
    requires items != []
    ensures Flatten(items) == items[0].bytes + Flatten(items[1..])
    ensures var slices := SlicesOf(items[1..], at + |items[0].bytes|);
      SlicesOf(items, at) == if items[0].Frame? then [Slice(at, at + |items[0].bytes|)] + slices else slices
  {
    var slices := SlicesOf(items[1..], at + |items[0].bytes|);
    var none: seq<Slice> := [];
    assert none + slices == slices;
  }

  lemma {:induction false} FrameFound(m: Matcher, f: Bytes, rest: Bytes, at: nat)
    requires Sensible(m) && SelfDelimiting(m, f)
    ensures Scan(m, f + rest, at) == [Slice(at, at + |f|)] + Scan(m, rest, at + |f|)
  {
    assert m(f + rest) == Some(|f|);
    assert (f + rest)[|f|..] == rest;
  }

  /** What is shorter than any frame holds none. */
  lemma {:induction false} TooShort(m: Matcher, s: Bytes, at: nat, least: nat)
    requires Sensible(m) && |s| < least && forall t :: |t| < least ==> m(t).None?
    ensures Scan(m, s, at) == []
    decreases |s|
  {
    if s != [] { TooShort(m, s[1..], at + 1, least); }
  }

  function FramesOf(items: seq<Item>): seq<Bytes> {
    if items == [] then []
    else (if items[0].Frame? then [items[0].bytes] else []) + FramesOf(items[1..])
  }

  /** The bytes of a slice. */
  function Cut(s: Bytes, slice: Slice): Bytes
    requires slice.start <= slice.end <= |s|
  {
    s[slice.start..slice.end]
  }

  /** Cutting the slices gives back the frames. */
  lemma {:induction false} CutsAreFrames(items: seq<Item>, at: nat, before: Bytes)
    requires |before| == at
    ensures var s, r := before + Flatten(items), SlicesOf(items, at);
      && |r| == |FramesOf(items)|
      && forall i :: 0 <= i < |r| ==> r[i].start <= r[i].end <= |s| && Cut(s, r[i]) == FramesOf(items)[i]
    decreases |items|
  {
    if items != [] {
      var b, rest := items[0].bytes, items[1..];
      CutsAreFrames(rest, at + |b|, before + b);
      hide SlicesOf;
      hide FramesOf;
      hide Flatten;
      hide Cut;
      SlicesCons(items, at);
      FramesCons(items);
      Regroup(before, b, Flatten(rest));
      FirstCut(before, b, Flatten(rest));
      var r, more := SlicesOf(items, at), SlicesOf(rest, at + |b|);
      var frames, others := FramesOf(items), FramesOf(rest);
      if items[0].Frame? {
        assert r == [Slice(at, at + |b|)] + more && frames == [b] + others;
        forall i | 0 < i < |r| ensures r[i] == more[i - 1] && frames[i] == others[i - 1] { }
      } else {
        assert r == more && frames == others;
      }
    }
  }

  lemma {:induction false} FramesCons(items: seq<Item>)
    requires items != []
    ensures FramesOf(items) == if items[0].Frame? then [items[0].bytes] + FramesOf(items[1..]) else FramesOf(items[1..])
  {
    var none: seq<Bytes> := [];
    assert none + FramesOf(items[1..]) == FramesOf(items[1..]);
  }

  lemma FirstCut(before: Bytes, b: Bytes, rest: Bytes)
    ensures Cut(before + b + rest, Slice(|before|, |before| + |b|)) == b
  {
  }
}
