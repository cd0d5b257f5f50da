/** How long a response body is (section 6.3 of RFC 9112), read off the header lines as they arrive. */
module HttpFraming {
  import opened Common
  import opened DecimalText

  datatype Framing = NoBody | Fixed(length: nat) | Chunked | UntilClose

  datatype FramingError = UnsupportedEncoding | ConflictingLengths | InvalidLength

  // ------------------------------------------------------------------------- headers

  /** str.lower() on the letters a header can hold: those of Latin-1. */
  function Lower(c: char): char {
    if 'A' <= c <= 'Z' || ('\U{C0}' <= c <= '\U{DE}' && c != '\U{D7}') then c + 32 as char else c
  }

  function LowerText(s: string): (r: string)
    ensures |r| == |s|
  {
    if s == "" then "" else [Lower(s[0])] + LowerText(s[1..])
  }

  /** A header line, cut at its first colon. */
  datatype Line = Line(name: string, value: string)

  /** The values under each name as it was written, in the order the names first came. */
  type Headers = seq<(string, seq<string>)>

  function Append(headers: Headers, name: string, value: string): Headers {
    if headers == [] then [(name, [value])]
    else if headers[0].0 == name then [(name, headers[0].1 + [value])] + headers[1..]
    else [headers[0]] + Append(headers[1..], name, value)
  }

  function Gather(lines: seq<Line>): Headers {
    if lines == [] then []
    else
      var last := lines[|lines| - 1];
      Append(Gather(lines[..|lines| - 1]), Strip(last.name), Strip(last.value))
  }

  /** All values under a name, whatever its case. */
  function ValuesOf(headers: Headers, name: string): seq<string> {
    if headers == [] then []
    else (if LowerText(headers[0].0) == name then headers[0].1 else []) + ValuesOf(headers[1..], name)
  }

  // ------------------------------------------------------------------------- numbers

  /** Digits with single underscores between them; `after` says a digit came just before. */
  function Digits(s: string, value: nat, after: bool): Option<nat> {
    if s == "" then if after then Some(value) else None
    else if IsDigit(s[0]) then Digits(s[1..], value * 10 + DigitValue(s[0]), true)
    else if s[0] == '_' && after then Digits(s[1..], value, false)
    else None
  }

  /** Python's int() of a text. */
  function ParseInt(text: string): Option<int> {
    var s := Strip(text);
    if s == "" then None
    else
      match Digits(if s[0] == '-' || s[0] == '+' then s[1..] else s, 0, false)
      case None => None
      case Some(n) => Some(Signed(n, s[0] == '-'))
  }

  function Signed(n: nat, negative: bool): int { if negative then 0 - n else n }

  // ------------------------------------------------------------------------- framing

  function Trimmed(items: seq<string>): (r: seq<string>)
    ensures |r| == |items| && forall i :: 0 <= i < |r| ==> r[i] == Strip(items[i])
  {
    if items == [] then [] else [Strip(items[0])] + Trimmed(items[1..])
  }

  function Lowered(items: seq<string>): (r: seq<string>)
    ensures |r| == |items| && forall i :: 0 <= i < |r| ==> r[i] == LowerText(items[i])
  {
    if items == [] then [] else [LowerText(items[0])] + Lowered(items[1..])
  }

  /** The comma-separated items of a value, without the spaces around them. */
  function ItemsOf(value: string): seq<string> { Trimmed(Split(value, ',')) }

  function NonEmpty(items: seq<string>): set<string> { set t | t in items && t != "" }

  /** The distinct items of some values. */
  function Distinct(values: seq<string>): set<string> {
    if values == [] then {} else NonEmpty(ItemsOf(values[0])) + Distinct(values[1..])
  }

  predicate HasNoBody(verb: string, status: int) {
    LowerText(verb) == "head" || 100 <= status < 200 || status == 204 || status == 304
  }

  function LengthOf(lengths: set<string>): Result<Framing, FramingError> {
    if lengths == {} then Success(UntilClose)
    else if |lengths| != 1 then Failure(ConflictingLengths)
    else
      match ParseInt(Only(lengths))
      case None => Failure(InvalidLength)
      case Some(n) => if n < 0 then Failure(InvalidLength) else Success(Fixed(n))
  }

  function FramingOf(verb: string, status: int, headers: Headers): Result<Framing, FramingError> {
    if status == 101 then Success(UntilClose)
    else if HasNoBody(verb, status) then Success(NoBody)
    else
      var encoding := Join(ValuesOf(headers, "transfer-encoding"), ',');
      if encoding != "" then
        if Lowered(ItemsOf(encoding)) == ["chunked"] then Success(Chunked) else Failure(UnsupportedEncoding)
      else LengthOf(Distinct(ValuesOf(headers, "content-length")))
  }

  /** Merge names that differ in case only. */
  method Merge(headers: Headers) returns (normalized: map<string, seq<string>>)
    ensures forall name :: Values(normalized, name) == ValuesOf(headers, name)
  {
    normalized := map[];
    for i := 0 to |headers|
      invariant forall name :: Values(normalized, name) + ValuesOf(headers[i..], name) == ValuesOf(headers, name)
    {
      var key := LowerText(headers[i].0);
      ghost var before := normalized;
      normalized := normalized[key := Values(normalized, key) + headers[i].1];
      forall name ensures Values(normalized, name) + ValuesOf(headers[i + 1..], name) == ValuesOf(headers, name) {
        MergeStep(before, headers, i, name);
      }
    }
    forall name ensures Values(normalized, name) == ValuesOf(headers, name) {
      assert headers[|headers|..] == [];
      var none: seq<string> := [];
      assert Values(normalized, name) + none == Values(normalized, name);
    }
  }

  lemma {:induction false} MergeStep(before: map<string, seq<string>>, headers: Headers, i: nat, name: string)
    requires i < |headers|
    ensures var key := LowerText(headers[i].0);
      Values(before[key := Values(before, key) + headers[i].1], name) + ValuesOf(headers[i + 1..], name)
      == Values(before, name) + ValuesOf(headers[i..], name)
  {
    hide LowerText;
    assert headers[i..][1..] == headers[i + 1..];
    var rest := ValuesOf(headers[i + 1..], name);
    if name == LowerText(headers[i].0) {
      Regroup(Values(before, name), headers[i].1, rest);
    } else {
      var none: seq<string> := [];
      assert none + rest == rest;
    }
  }

  /** Which framing a response has: names are merged in a first pass, then one header overrules the other. */
  method BodyPlan(verb: string, status: int, headers: Headers) returns (r: Result<Framing, FramingError>)
    ensures r == FramingOf(verb, status, headers)
  {
    var normalized := Merge(headers);
    if status == 101 { return Success(UntilClose); }
    if HasNoBody(verb, status) { return Success(NoBody); }
    var encoding := Join(Values(normalized, "transfer-encoding"), ',');
    if encoding != "" {
      return if Lowered(ItemsOf(encoding)) == ["chunked"] then Success(Chunked) else Failure(UnsupportedEncoding);
    }
    var lengths := Collect(Values(normalized, "content-length"));
    r := LengthOf(lengths);
  }

  method Collect(values: seq<string>) returns (lengths: set<string>)
    ensures lengths == Distinct(values)
  {
    hide ItemsOf;
    lengths := {};
    for i := 0 to |values|
      invariant lengths + Distinct(values[i..]) == Distinct(values)
    {
      assert values[i..][1..] == values[i + 1..];
      lengths := lengths + NonEmpty(ItemsOf(values[i]));
    }
  }

  function Values(normalized: map<string, seq<string>>, name: string): seq<string> {
    if name in normalized then normalized[name] else []
  }

  // ------------------------------------------------------------------- items of all lines

  predicate Named(line: Line, name: string) { LowerText(Strip(line.name)) == name }

  /** Every item of every line of a name, in whatever order, as often as it comes. */
  function AllItems(lines: seq<Line>, name: string): multiset<string> {
    if lines == [] then multiset{}
    else
      var last := lines[|lines| - 1];
      AllItems(lines[..|lines| - 1], name)
      + if Named(last, name) then multiset(ItemsOf(Strip(last.value))) else multiset{}
  }

  function Occurring(items: multiset<string>): set<string> { set t | t in items && t != "" }

  /** Digits, in groups of at least one with single underscores between them; `after` says a digit came before. */
  ghost predicate Grouped(s: string, after: bool) {
    && (forall i :: 0 <= i < |s| ==> IsDigit(s[i]) || s[i] == '_')
    && (forall i :: 0 <= i < |s| - 1 ==> s[i] != '_' || s[i + 1] != '_')
    && (if s == "" then after else s[|s| - 1] != '_' && (s[0] != '_' || after))
  }

  /** Only the digits count. */
  function ValueFrom(s: string, value: nat): nat {
    if s == "" then value
    else if IsDigit(s[0]) then ValueFrom(s[1..], value * 10 + DigitValue(s[0]))
    else ValueFrom(s[1..], value)
  }

  /** A length that is not negative: white space around it, a sign, and digits in groups. */
  ghost predicate IsLength(text: string, n: nat) {
    exists sign: string, digits: string ::
      && Strip(text) == sign + digits && Grouped(digits, false) && n == ValueFrom(digits, 0)
      && (sign == "" || sign == "+" || (sign == "-" && n == 0))
  }

  lemma GroupedRest(s: string, after: bool)
    requires s != ""
    ensures s[0] == '_' && after ==> (Grouped(s, after) <==> Grouped(s[1..], false))
    ensures IsDigit(s[0]) ==> (Grouped(s, after) <==> Grouped(s[1..], true))
  {
    var rest := s[1..];
    assert forall i :: 0 <= i < |rest| ==> rest[i] == s[i + 1];
    assert forall i :: 0 < i < |s| ==> s[i] == rest[i - 1];
  }

  lemma {:induction false} DigitsExactly(s: string, value: nat, after: bool)
    ensures Digits(s, value, after) == if Grouped(s, after) then Some(ValueFrom(s, value)) else None
    decreases |s|
  {
    if s != "" {
      GroupedRest(s, after);
      if s[0] == '_' && after {
        DigitsExactly(s[1..], value, false);
      } else if IsDigit(s[0]) {
        DigitsExactly(s[1..], value * 10 + DigitValue(s[0]), true);
      }
    }
  }

  lemma LengthIsReadExactly(text: string, n: nat)
    ensures (ParseInt(text).Some? && ParseInt(text).value == n) <==> IsLength(text, n)
  {
    var s := Strip(text);
    var signed := s != "" && (s[0] == '-' || s[0] == '+');
    var body := if signed then s[1..] else s;
    var sign := if signed then [s[0]] else "";
    assert s == sign + body;
    DigitsExactly(body, 0, false);
    hide Strip;
    hide Digits;
    if ParseInt(text).Some? && ParseInt(text).value == n {
      assert s == sign + body && Grouped(body, false);
    }
    if IsLength(text, n) {
      var plus: string, digits: string :|
        && s == plus + digits && Grouped(digits, false) && n == ValueFrom(digits, 0)
        && (plus == "" || plus == "+" || (plus == "-" && n == 0));
      assert digits != "" && digits[0] != '-' && digits[0] != '+';
      assert plus == sign && digits == body;
    }
  }

  /** What declared lengths come to: none, one that can be read, or an error. */
  ghost predicate LengthsGive(lengths: set<string>, r: Result<Framing, FramingError>) {
    if lengths == {} then r == Success(UntilClose)
    else if exists a, b :: a in lengths && b in lengths && a != b then r == Failure(ConflictingLengths)
    else if r.Success? then exists t, n :: lengths == {t} && IsLength(t, n) && r == Success(Fixed(n))
    else r == Failure(InvalidLength) && forall t, n: nat :: t in lengths ==> !IsLength(t, n)
  }

  lemma LengthsDecideExactly(lengths: set<string>)
    ensures LengthsGive(lengths, LengthOf(lengths))
  {
    hide ParseInt;
    hide IsLength;
    if lengths != {} {
      if a, b :| a in lengths && b in lengths && a != b {
        assert |lengths - {a}| > 0 by { assert b in lengths - {a}; }
      } else {
        var t :| t in lengths;
        assert lengths == {t};
        forall n: nat ensures (ParseInt(t).Some? && ParseInt(t).value == n) <==> IsLength(t, n) {
          LengthIsReadExactly(t, n);
        }
        if ParseInt(t).Some? && ParseInt(t).value >= 0 {
          var n: nat := ParseInt(t).value;
          assert IsLength(t, n);
        }
      }
    }
  }

  /** Which letters are lower-cased: those of Latin-1 that have a small form thirty-two places on. */
  lemma LowersExactly(c: char)
    ensures Lower(c) ==
      if c in "ABCDEFGHIJKLMNOPQRSTUVWXYZ" || ('\U{C0}' <= c < '\U{D7}') || ('\U{D7}' < c <= '\U{DE}') then c + 32 as char else c
  {
    assert 'A' <= c <= 'Z' <==> c in "ABCDEFGHIJKLMNOPQRSTUVWXYZ" by { LettersAre(c); }
  }

  lemma LettersAre(c: char)
    ensures 'A' <= c <= 'Z' <==> c in "ABCDEFGHIJKLMNOPQRSTUVWXYZ"
  {
    var letters := "ABCDEFGHIJKLMNOPQRSTUVWXYZ";
    assert forall i :: 0 <= i < 26 ==> letters[i] as int == 65 + i;
    if 'A' <= c <= 'Z' { assert letters[c as int - 65] == c; }
  }

  /** Answers to HEAD, and those that only inform, or have nothing or nothing new to say. */
  predicate Bodiless(verb: string, status: int) {
    LowerText(verb) == "head" || status / 100 == 1 || status in [204, 304]
  }

  /** The rule in terms of the items of all lines: an encoding decides alone, else one length must be declared. */
  function Rule(verb: string, status: int, encodings: multiset<string>, lengths: set<string>)
    : Result<Framing, FramingError>
  {
    if status == 101 then Success(UntilClose)
    else if Bodiless(verb, status) then Success(NoBody)
    else if encodings != multiset{} && encodings != multiset{""} then
      if Single(encodings, "chunked") then Success(Chunked) else Failure(UnsupportedEncoding)
    else LengthOf(lengths)
  }

  /** There is one item, and it is this one in some case. */
  predicate Single(items: multiset<string>, text: string) {
    |items| == 1 && forall t :: t in items ==> LowerText(t) == text
  }

  function ItemsOfAll(values: seq<string>): multiset<string> {
    if values == [] then multiset{} else multiset(ItemsOf(values[0])) + ItemsOfAll(values[1..])
  }

  lemma {:induction false} ItemsOfAllConcat(a: seq<string>, b: seq<string>)
    ensures ItemsOfAll(a + b) == ItemsOfAll(a) + ItemsOfAll(b)
  {
    hide ItemsOf;
    if a == [] {
      assert a + b == b;
    } else {
      assert (a + b)[1..] == a[1..] + b;
      ItemsOfAllConcat(a[1..], b);
    }
  }

  lemma {:induction false} AppendedItems(headers: Headers, name: string, value: string, asked: string)
    ensures ItemsOfAll(ValuesOf(Append(headers, name, value), asked)) ==
      ItemsOfAll(ValuesOf(headers, asked)) + if LowerText(name) == asked then multiset(ItemsOf(value)) else multiset{}
  {
    hide ItemsOf;
    hide LowerText;
    OneValue(value);
    if headers == [] {
      OneHeader(name, [value], asked);
    } else {
      var first, rest := headers[0], headers[1..];
      ConsHeader(first, rest, asked);
      if first.0 == name {
        ConsHeader((name, first.1 + [value]), rest, asked);
        ItemsOfAllConcat(first.1, [value]);
      } else {
        AppendedItems(rest, name, value, asked);
        ConsHeader(first, Append(rest, name, value), asked);
      }
    }
  }

  lemma OneValue(value: string)
    ensures ItemsOfAll([value]) == multiset(ItemsOf(value))
  {
    var one := [value];
    assert one[1..] == [];
  }

  lemma {:induction false} OneHeader(name: string, values: seq<string>, asked: string)
    ensures ValuesOf([(name, values)], asked) == if LowerText(name) == asked then values else []
  {
    var one := [(name, values)];
    assert one[1..] == [];
  }

  lemma {:induction false} ConsHeader(first: (string, seq<string>), rest: Headers, asked: string)
    ensures ItemsOfAll(ValuesOf([first] + rest, asked)) ==
      (if LowerText(first.0) == asked then ItemsOfAll(first.1) else multiset{}) + ItemsOfAll(ValuesOf(rest, asked))
  {
    hide ItemsOf;
    assert ([first] + rest)[1..] == rest;
    ItemsOfAllConcat(if LowerText(first.0) == asked then first.1 else [], ValuesOf(rest, asked));
  }

  /** Gathering by name loses no item and adds none. */
  lemma {:induction false} GatheredItems(lines: seq<Line>, name: string)
    ensures ItemsOfAll(ValuesOf(Gather(lines), name)) == AllItems(lines, name)
    decreases |lines|
  {
    hide ItemsOf;
    if lines != [] {
      var before, last := lines[..|lines| - 1], lines[|lines| - 1];
      GatheredItems(before, name);
      AppendedItems(Gather(before), Strip(last.name), Strip(last.value), name);
    }
  }

  lemma {:induction false} DistinctAreItems(values: seq<string>)
    ensures Distinct(values) == Occurring(ItemsOfAll(values))
  {
    hide ItemsOf;
    if values != [] { DistinctAreItems(values[1..]); }
  }

  // ----------------------------------------------------------------- joining and splitting

  lemma {:induction false} SplitConcat(a: string, b: string, sep: char)
    ensures Split(a + [sep] + b, sep) == Split(a, sep) + Split(b, sep)
  {
    if a == "" {
      assert a + [sep] + b == [sep] + b;
    } else {
      var s := a + [sep] + b;
      assert s[1..] == a[1..] + [sep] + b;
      SplitConcat(a[1..], b, sep);
      assert Split(s[1..], sep) == Split(a[1..], sep) + Split(b, sep);
    }
  }

  lemma {:induction false} TrimmedConcat(a: seq<string>, b: seq<string>)
    ensures Trimmed(a + b) == Trimmed(a) + Trimmed(b)
  {
  }

  /** A joined value has the items of its parts. */
  lemma {:induction false} JoinedItems(values: seq<string>)
    requires values != []
    ensures multiset(ItemsOf(Join(values, ','))) == ItemsOfAll(values)
  {
    if |values| == 1 {
      assert values[1..] == [];
    } else {
      JoinedItems(values[1..]);
      SplitConcat(values[0], Join(values[1..], ','), ',');
      TrimmedConcat(Split(values[0], ','), Split(Join(values[1..], ','), ','));
    }
  }

  lemma SplitEmpty(s: string)
    ensures s == "" ==> ItemsOf(s) == [""]
    ensures Lacks(s, ',') ==> ItemsOf(s) == [Strip(s)]
  {
    if Lacks(s, ',') {
      SplitPrefix(s, "", ',');
      assert Trimmed([s])[..] == [Strip(s)];
    }
  }

  lemma {:induction false} CommaSplits(s: string)
    requires !Lacks(s, ',')
    ensures |Split(s, ',')| >= 2
  {
    if s[0] != ',' {
      assert ',' in s[1..];
      CommaSplits(s[1..]);
    }
  }

  /** A trimmed value is empty exactly when its only item is. */
  lemma EmptyExactly(s: string)
    requires IsTrimmed(s)
    ensures s == "" <==> multiset(ItemsOf(s)) == multiset{""}
  {
    if Lacks(s, ',') {
      SplitEmpty(s);
    } else {
      CommaSplits(s);
      assert |multiset(ItemsOf(s))| == |ItemsOf(s)| >= 2;
    }
  }

  // ------------------------------------------------------------------------- theorems

  predicate AllTrimmed(values: seq<string>) { forall i :: 0 <= i < |values| ==> IsTrimmed(values[i]) }

  lemma {:induction false} GatheredTrimmed(lines: seq<Line>, name: string)
    ensures AllTrimmed(ValuesOf(Gather(lines), name))
    decreases |lines|
  {
    if lines != [] {
      var before, last := lines[..|lines| - 1], lines[|lines| - 1];
      GatheredTrimmed(before, name);
      StripTwice(last.value);
      AppendedTrimmed(Gather(before), Strip(last.name), Strip(last.value), name);
    }
  }

  lemma {:induction false} AppendedTrimmed(headers: Headers, name: string, value: string, asked: string)
    requires AllTrimmed(ValuesOf(headers, asked)) && IsTrimmed(value)
    ensures AllTrimmed(ValuesOf(Append(headers, name, value), asked))
  {
    hide LowerText;
    hide IsTrimmed;
    if headers == [] {
      OneHeader(name, [value], asked);
    } else {
      var first, rest := headers[0], headers[1..];
      var own := if LowerText(first.0) == asked then first.1 else [];
      assert ValuesOf(headers, asked) == own + ValuesOf(rest, asked);
      TrimmedParts(own, ValuesOf(rest, asked));
      if first.0 == name {
        var more := [(name, first.1 + [value])] + rest;
        assert more[1..] == rest;
        var longer := if LowerText(name) == asked then first.1 + [value] else [];
        TrimmedParts(longer, ValuesOf(rest, asked));
      } else {
        AppendedTrimmed(rest, name, value, asked);
        var more := [first] + Append(rest, name, value);
        assert more[1..] == Append(rest, name, value);
        TrimmedParts(own, ValuesOf(Append(rest, name, value), asked));
      }
    }
  }

  lemma TrimmedParts(a: seq<string>, b: seq<string>)
    ensures AllTrimmed(a + b) <==> AllTrimmed(a) && AllTrimmed(b)
  {
    hide IsTrimmed;
    if AllTrimmed(a + b) {
      forall i | 0 <= i < |a| ensures IsTrimmed(a[i]) { assert (a + b)[i] == a[i]; }
      forall i | 0 <= i < |b| ensures IsTrimmed(b[i]) { assert (a + b)[|a| + i] == b[i]; }
    }
  }

  /** A joined transfer encoding is there exactly when some value is, or there is more than one. */
  lemma {:induction false} EncodingThere(values: seq<string>)
    requires AllTrimmed(values)
    ensures Join(values, ',') != "" <==> ItemsOfAll(values) != multiset{} && ItemsOfAll(values) != multiset{""}
  {
    hide ItemsOf;
    if |values| == 1 {
      OneValue(values[0]);
      assert values == [values[0]];
      EmptyExactly(values[0]);
      ItemsThere(values[0]);
    } else if values != [] {
      var rest := values[1..];
      assert rest != [];
      ItemsThere(values[0]);
      ItemsThere(rest[0]);
      assert |ItemsOfAll(values)| >= 2;
    }
  }

  lemma ItemsThere(s: string)
    ensures |multiset(ItemsOf(s))| >= 1
  {
  }

  lemma {:induction false} SingleIsOne(items: seq<string>, text: string)
    ensures Lowered(items) == [text] <==> Single(multiset(items), text)
  {
    if |items| == 1 {
      assert items == [items[0]];
      assert items[0] in multiset(items);
    }
  }

  /**
    Whatever the lines, their order and the case of their names: the framing follows the rule for all items of the
    Transfer-Encoding and Content-Length lines together.
   */
  lemma {:induction false} FramingFollowsPrecedence(verb: string, status: int, lines: seq<Line>)
    ensures FramingOf(verb, status, Gather(lines)) ==
      Rule(verb, status, AllItems(lines, "transfer-encoding"), Occurring(AllItems(lines, "content-length")))
  {
    hide ItemsOf;
    hide LowerText;
    hide LengthOf;
    var headers := Gather(lines);
    var values := ValuesOf(headers, "transfer-encoding");
    GatheredItems(lines, "transfer-encoding");
    GatheredItems(lines, "content-length");
    GatheredTrimmed(lines, "transfer-encoding");
    DistinctAreItems(ValuesOf(headers, "content-length"));
    EncodingThere(values);
    if values != [] {
      JoinedItems(values);
      SingleIsOne(ItemsOf(Join(values, ',')), "chunked");
    }
  }

  /** Only the items count, not the lines they are spread over. */
  lemma {:induction false} SpreadDoesNotMatter(verb: string, status: int, lines: seq<Line>, others: seq<Line>)
    requires AllItems(lines, "transfer-encoding") == AllItems(others, "transfer-encoding")
    requires Occurring(AllItems(lines, "content-length")) == Occurring(AllItems(others, "content-length"))
    ensures FramingOf(verb, status, Gather(lines)) == FramingOf(verb, status, Gather(others))
  {
    FramingFollowsPrecedence(verb, status, lines);
    FramingFollowsPrecedence(verb, status, others);
  }

  /** When a body may follow and no encoding decides. */
  ghost predicate LengthDecides(verb: string, status: int, lines: seq<Line>) {
    && status != 101 && !Bodiless(verb, status)
    && AllItems(lines, "transfer-encoding") in {multiset{}, multiset{""}}
  }

  /** Lengths conflict exactly when two different items are declared, on whichever lines. */
  lemma {:induction false} ConflictExactly(verb: string, status: int, lines: seq<Line>)
    ensures FramingOf(verb, status, Gather(lines)) == Failure(ConflictingLengths) <==>
      && LengthDecides(verb, status, lines)
      && exists a, b :: a != b && a != "" && b != ""
           && a in AllItems(lines, "content-length") && b in AllItems(lines, "content-length")
  {
    hide AllItems;
    hide FramingOf;
    hide HasNoBody;
    FramingFollowsPrecedence(verb, status, lines);
    TwoItems(AllItems(lines, "content-length"));
    LengthsConflict(Occurring(AllItems(lines, "content-length")));
  }

  lemma LengthsConflict(lengths: set<string>)
    ensures LengthOf(lengths) == Failure(ConflictingLengths) <==> |lengths| > 1
  {
    hide ParseInt;
  }

  lemma TwoItems(items: multiset<string>)
    ensures |Occurring(items)| > 1 <==> exists a, b :: a != b && a != "" && b != "" && a in items && b in items
  {
    var lengths := Occurring(items);
    if |lengths| > 1 {
      var a :| a in lengths;
      assert |lengths - {a}| == |lengths| - 1;
      var b :| b in lengths - {a};
    } else if |lengths| == 1 {
      var x := Only(lengths);
      forall a | a in items && a != "" ensures a == x { assert a in lengths; }
    } else {
      assert forall a :: a in items && a != "" ==> a in lengths;
    }
  }

  // --------------------------------------------------------------------- a length reads back

  lemma {:induction false} DigitsSnoc(s: string, d: nat, value: nat, after: bool)
    requires d < 10 && Digits(s, value, after).Some?
    ensures Digits(s + [Digit(d)], value, after) == Some(Digits(s, value, after).value * 10 + d)
    decreases |s|
  {
    var t := s + [Digit(d)];
    if s == "" {
      assert t[1..] == "";
    } else {
      assert t[1..] == s[1..] + [Digit(d)];
      if IsDigit(s[0]) {
        DigitsSnoc(s[1..], d, value * 10 + DigitValue(s[0]), true);
      } else {
        DigitsSnoc(s[1..], d, value, false);
      }
    }
  }

  lemma {:induction false} NumeralDigits(n: nat)
    ensures Digits(Numeral(n), 0, false) == Some(n)
  {
    if n < 10 {
      assert Numeral(n)[1..] == "";
    } else {
      NumeralDigits(n / 10);
      DigitsSnoc(Numeral(n / 10), n % 10, 0, false);
    }
  }

  lemma {:induction false} NumeralTrimmed(n: nat)
    ensures IsTrimmed(Numeral(n)) && Lacks(Numeral(n), ',')
  {
    NumeralRoundTrip(n);
    var s := Numeral(n);
    assert StripRight(s) == s && StripLeft(s) == s;
  }

  /** A number declared on any number of lines, in lists or not, with empty items or not, is the body's length. */
  lemma {:induction false} DeclaredLength(verb: string, status: int, lines: seq<Line>, n: nat)
    requires LengthDecides(verb, status, lines)
    requires Occurring(AllItems(lines, "content-length")) == {Numeral(n)}
    ensures FramingOf(verb, status, Gather(lines)) == Success(Fixed(n))
  {
    hide FramingOf;
    FramingFollowsPrecedence(verb, status, lines);
    NumeralTrimmed(n);
    NumeralDigits(n);
    NumeralRoundTrip(n);
    assert Only({Numeral(n)}) == Numeral(n);
  }

  // -------------------------------------------------------------------- one line or two

  /** Spaces around a value are spaces around its first or last item. */
  lemma {:induction false} LeftItems(s: string)
    ensures ItemsOf(StripLeft(s)) == ItemsOf(s)
  {
    if s != "" && IsSpace(s[0]) {
      LeftItems(s[1..]);
      var rest := Split(s[1..], ',');
      StripsAlikeLeft(s[0], rest[0]);
      assert Split(s, ',') == [[s[0]] + rest[0]] + rest[1..];
      assert Trimmed(Split(s, ','))[..] == Trimmed(rest)[..];
    }
  }

  lemma StripsAlikeLeft(c: char, s: string)
    requires IsSpace(c)
    ensures Strip([c] + s) == Strip(s)
  {
    RightOfCons(c, s);
  }

  lemma {:induction false} RightOfCons(c: char, s: string)
    requires IsSpace(c)
    ensures StripRight([c] + s) == if StripRight(s) == "" then "" else [c] + StripRight(s)
  {
    var t := [c] + s;
    if s == "" {
      assert t[..0] == "";
    } else if IsSpace(s[|s| - 1]) {
      var before := s[..|s| - 1];
      RightOfCons(c, before);
      assert t[|t| - 1] == s[|s| - 1] && t[..|t| - 1] == [c] + before;
      assert StripRight(t) == StripRight([c] + before) && StripRight(s) == StripRight(before);
    } else {
      assert t[|t| - 1] == s[|s| - 1];
      assert StripRight(t) == t && StripRight(s) == s;
    }
  }

  /** The same parts, but the last one longer by a character. */
  predicate Longer(a: seq<string>, b: seq<string>, c: char) {
    |b| > 0 && |a| == |b| && a[..|a| - 1] == b[..|b| - 1] && a[|a| - 1] == b[|b| - 1] + [c]
  }

  lemma LongerFirst(a: seq<string>, b: seq<string>, c: char, first: char)
    requires Longer(a, b, c)
    ensures Longer([[first] + a[0]] + a[1..], [[first] + b[0]] + b[1..], c)
    ensures Longer([[]] + a, [[]] + b, c)
  {
    if |b| == 1 {
      Regroup([first], b[0], [c]);
    } else {
      assert a[..|a| - 1][0] == b[..|b| - 1][0];
      assert a[1..][..|a| - 2] == a[..|a| - 1][1..];
      assert b[1..][..|b| - 2] == b[..|b| - 1][1..];
    }
  }

  lemma {:induction false} SplitSnoc(s: string, c: char)
    requires c != ','
    ensures Longer(Split(s + [c], ','), Split(s, ','), c)
  {
    var t := s + [c];
    if s == "" {
      assert t[1..] == "";
    } else {
      assert t[0] == s[0] && t[1..] == s[1..] + [c];
      SplitSnoc(s[1..], c);
      LongerFirst(Split(t[1..], ','), Split(s[1..], ','), c, s[0]);
      hide Longer;
    }
  }

  lemma StripsAlikeRight(s: string, c: char)
    requires IsSpace(c)
    ensures Strip(s + [c]) == Strip(s)
  {
    assert (s + [c])[..|s|] == s;
  }

  lemma {:induction false} RightItems(s: string)
    ensures ItemsOf(StripRight(s)) == ItemsOf(s)
  {
    if s != "" && IsSpace(s[|s| - 1]) {
      var before, c := s[..|s| - 1], s[|s| - 1];
      assert s == before + [c];
      RightItems(before);
      SplitSnoc(before, c);
      LongerTrimmed(Split(s, ','), Split(before, ','), c);
      hide Trimmed;
      hide Longer;
    }
  }

  lemma {:induction false} LongerTrimmed(a: seq<string>, b: seq<string>, c: char)
    requires Longer(a, b, c) && IsSpace(c)
    ensures Trimmed(a) == Trimmed(b)
  {
    hide Strip;
    StripsAlikeRight(b[|b| - 1], c);
    forall i | 0 <= i < |a| ensures Strip(a[i]) == Strip(b[i]) {
      if i < |a| - 1 { assert a[..|a| - 1][i] == b[..|b| - 1][i]; }
    }
    assert Trimmed(a)[..] == Trimmed(b)[..];
  }

  lemma TrimmedValueItems(s: string)
    ensures ItemsOf(Strip(s)) == ItemsOf(s)
  {
    RightItems(s);
    LeftItems(StripRight(s));
  }

  lemma {:induction false} AllItemsConcat(a: seq<Line>, b: seq<Line>, name: string)
    ensures AllItems(a + b, name) == AllItems(a, name) + AllItems(b, name)
    decreases |b|
  {
    hide ItemsOf;
    hide Named;
    if b == [] {
      assert a + b == a;
    } else {
      var n := |b| - 1;
      assert (a + b)[..|a| + n] == a + b[..n];
      AllItemsConcat(a, b[..n], name);
    }
  }

  lemma {:induction false} OneLine(line: Line, name: string)
    ensures AllItems([line], name) == if Named(line, name) then multiset(ItemsOf(line.value)) else multiset{}
  {
    var one := [line];
    assert one[..0] == [];
    TrimmedValueItems(line.value);
  }

  lemma {:induction false} TwoLines(a: Line, b: Line, joined: Line, name: string)
    requires Named(a, name) == Named(b, name) == Named(joined, name) && joined.value == a.value + "," + b.value
    ensures AllItems([a, b], name) == AllItems([joined], name)
  {
    OneLine(a, name);
    OneLine(b, name);
    OneLine(joined, name);
    AllItemsConcat([a], [b], name);
    assert [a] + [b] == [a, b];
    SplitConcat(a.value, b.value, ',');
    TrimmedConcat(Split(a.value, ','), Split(b.value, ','));
  }

  /** A list on one line means the same as its parts on two lines, whatever the case of the names. */
  lemma {:induction false} OneLineOrTwo(
    verb: string, status: int, before: seq<Line>, a: Line, b: Line, joined: Line, after: seq<Line>)
    requires LowerText(Strip(a.name)) == LowerText(Strip(b.name)) == LowerText(Strip(joined.name))
    requires joined.value == a.value + "," + b.value
    ensures FramingOf(verb, status, Gather(before + [a, b] + after)) ==
      FramingOf(verb, status, Gather(before + [joined] + after))
  {
    hide FramingOf;
    hide AllItems;
    forall name ensures AllItems(before + [a, b] + after, name) == AllItems(before + [joined] + after, name) {
      TwoLines(a, b, joined, name);
      AllItemsConcat(before, [a, b], name);
      AllItemsConcat(before, [joined], name);
      AllItemsConcat(before + [a, b], after, name);
      AllItemsConcat(before + [joined], after, name);
    }
    SpreadDoesNotMatter(verb, status, before + [a, b] + after, before + [joined] + after);
  }
}
