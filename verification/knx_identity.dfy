/** Group addresses, their renderings, and the identities KNX rows get from them. */
module KnxIdentity {
  import opened Common
  import opened DecimalText

  /** A group address as the bus sees it: 5 bits main, 3 bits middle, 8 bits sub. */
  type Raw = n: int | 0 <= n < 65536

  datatype Format = Long | Short | Free

  /** The platforms with known identities; any other platform's rows stay manual. */
  datatype Platform =
    | Light | Switch | Button | Scene | Sensor | BinarySensor | Cover | Climate | Fan | Unsupported(name: string)

  function Numerals(levels: seq<nat>): (r: seq<string>)
    ensures |r| == |levels| && forall i :: 0 <= i < |r| ==> r[i] == Numeral(levels[i])
  {
    if levels == [] then [] else [Numeral(levels[0])] + Numerals(levels[1..])
  }

  function Levels(raw: Raw, format: Format): seq<nat> {
    match format
    case Long => [raw / 2048, raw % 2048 / 256, raw % 256]
    case Short => [raw / 2048, raw % 2048 / 256 * 256 + raw % 256]
    case Free => [raw / 2048 * 2048 + raw % 2048 / 256 * 256 + raw % 256]
  }

  function Rendering(raw: Raw, format: Format): string { Join(Numerals(Levels(raw, format)), '/') }

  function AsLong(raw: Raw): string { Rendering(raw, Long) }

  predicate AllNumeric(parts: seq<string>) {
    forall i :: 0 <= i < |parts| ==> AllDigits(parts[i])
  }

  function Values(parts: seq<string>): (r: seq<nat>)
    requires AllNumeric(parts)
    ensures |r| == |parts| && forall i :: 0 <= i < |r| ==> r[i] == ValueOf(parts[i])
  {
    if parts == [] then []
    else
      assert forall i :: 0 <= i < |parts| - 1 ==> parts[1..][i] == parts[i + 1];
      [ValueOf(parts[0])] + Values(parts[1..])
  }

  /** The address of one, two or three levels, each within its limit. */
  function FromLevels(levels: seq<nat>): Option<Raw> {
    if |levels| == 1 then if levels[0] > 65535 then None else Some(levels[0])
    else if |levels| == 2 then
      if levels[0] > 31 || levels[1] > 2047 then None else Some(levels[0] * 2048 + levels[1])
    else if |levels| == 3 then
      if levels[0] > 31 || levels[1] > 7 || levels[2] > 255 then None
      else Some(levels[0] * 2048 + levels[1] * 256 + levels[2])
    else None
  }

  function ParseAddress(text: string): Option<Raw> {
    var parts := Split(text, '/');
    if AllNumeric(parts) then FromLevels(Values(parts)) else None
  }

  predicate ThreeLevels(part: string) {
    var levels := Split(part, '/');
    |levels| == 3 && AllNumeric(levels)
  }

  /** The canonical long form of an address text, or none. */
  function Address(text: string): Option<string> {
    match ParseAddress(text)
    case None => None
    case Some(raw) => Some(AsLong(raw))
  }

  lemma {:induction false} NumeralsReadBack(levels: seq<nat>)
    requires |levels| > 0
    ensures var text := Join(Numerals(levels), '/');
      && Split(text, '/') == Numerals(levels)
      && ParseAddress(text) == FromLevels(levels)
      && Lacks(text, '_')
  {
    var parts := Numerals(levels);
    forall i | 0 <= i < |levels|
      ensures AllDigits(parts[i]) && ValueOf(parts[i]) == levels[i]
      ensures Lacks(parts[i], '/') && Lacks(parts[i], '_')
    {
      NumeralRoundTrip(levels[i]);
    }
    SplitJoin(parts, '/');
    JoinLacks(parts, '/', '_');
    assert Values(parts) == levels;
  }

  lemma LevelsReadBack(raw: Raw, format: Format)
    ensures FromLevels(Levels(raw, format)) == Some(raw)
  {
    var main, middle, sub := raw / 2048, raw % 2048 / 256, raw % 256;
    assert raw == main * 2048 + (middle * 256 + sub);
  }

  /** Every rendering reads back as the address it came from. */
  lemma RenderingReadsBack(raw: Raw, format: Format)
    ensures ParseAddress(Rendering(raw, format)) == Some(raw)
    ensures Lacks(Rendering(raw, format), '_')
  {
    NumeralsReadBack(Levels(raw, format));
    LevelsReadBack(raw, format);
  }

  lemma LongHasThreeLevels(raw: Raw)
    ensures ThreeLevels(AsLong(raw))
  {
    NumeralsReadBack(Levels(raw, Long));
    forall i | 0 <= i < 3 ensures AllDigits(Numerals(Levels(raw, Long))[i]) {
      NumeralRoundTrip(Levels(raw, Long)[i]);
    }
  }

  /** Canonical text is a fixed point, whatever spelling it came from, and every rendering leads to it. */
  lemma AddressInverts(text: string, raw: Raw, format: Format)
    ensures Address(text).Some? ==> Address(Address(text).value) == Address(text)
    ensures Address(Rendering(raw, format)) == Some(AsLong(raw))
  {
    RenderingReadsBack(raw, format);
    if Address(text).Some? { RenderingReadsBack(ParseAddress(text).value, Long); }
  }

  lemma RenderingInjective(a: Raw, b: Raw, format: Format)
    requires Rendering(a, format) == Rendering(b, format)
    ensures a == b
  {
    RenderingReadsBack(a, format);
    RenderingReadsBack(b, format);
  }

  // ---------------------------------------------------------- native identities

  function RenderPart(part: string, format: Format): string {
    if ThreeLevels(part) && ParseAddress(part).Some? then Rendering(ParseAddress(part).value, format) else part
  }

  function RenderParts(parts: seq<string>, format: Format): (r: seq<string>)
    ensures |r| == |parts| && forall i :: 0 <= i < |r| ==> r[i] == RenderPart(parts[i], format)
  {
    if parts == [] then [] else [RenderPart(parts[0], format)] + RenderParts(parts[1..], format)
  }

  /** Render every long address inside a stored identity in the project's format. */
  function FormatNativeIdentity(identity: string, format: Format): string {
    if format.Long? then identity else Join(RenderParts(Split(identity, '_'), format), '_')
  }

  // ------------------------------------------------------------------- rows

  /** A configuration value; `Encoded` is a button's datapoint type with the raw payload it leads to. */
  datatype Value =
    | Text(text: string)
    | Number(number: int)
    | Flag(flag: bool)
    | Items(items: seq<Value>)
    | Nested(fields: seq<Field>)
    | Encoded(payload: Option<nat>)

  datatype Field = Field(key: string, value: Value)

  type Row = map<string, Value>

  function Signed(n: int): string { if n < 0 then "-" + Numeral(-n) else Numeral(n) }

  /** What str() makes of a value where an address is looked for; containers never read as one. */
  function Str(value: Value): string {
    match value
    case Text(s) => s
    case Number(n) => Signed(n)
    case Flag(b) => if b then "True" else "False"
    case _ => "[]"
  }

  /** What counts as given: an empty, zero or false value does not. */
  predicate Truthy(value: Value) {
    match value
    case Text(s) => s != ""
    case Number(n) => n != 0
    case Flag(b) => b
    case Items(items) => items != []
    case Nested(fields) => fields != []
    case Encoded(_) => true
  }

  /** A number is written in decimals, with a minus sign only below zero: two numbers are written apart. */
  lemma NumbersAreWritten(n: int)
    ensures n >= 0 ==> Str(Number(n)) == Numeral(n)
    ensures n < 0 ==> Str(Number(n)) == ['-'] + Numeral(0 - n)
    ensures Str(Flag(true)) == "True" && Str(Flag(false)) == "False"
  {
  }

  /** Not given are exactly the empty text, list and mapping, zero, and false. */
  lemma GivenExactly(value: Value)
    ensures !Truthy(value) <==>
      value == Text("") || value == Number(0) || value == Flag(false) || value == Items([]) || value == Nested([])
  {
  }

  function Primary(row: Row, key: string, format: Format): Option<string> {
    if key !in row then None
    else
      var value := row[key];
      if value.Items? && value.items == [] then None
      else
        match Address(Str(if value.Items? then value.items[0] else value))
        case None => None
        case Some(canonical) => Some(FormatNativeIdentity(canonical, format))
  }

  const DEFAULT_BUTTON_PAYLOAD := 1

  function ButtonPayload(row: Row): Option<nat> {
    if "type" in row then (if row["type"].Encoded? then row["type"].payload else None)
    else if "payload" !in row then Some(DEFAULT_BUTTON_PAYLOAD)
    else
      match row["payload"]
      case Number(n) => if n >= 0 then Some(n) else None
      case Text(s) => if AllDigits(s) then Some(ValueOf(s)) else None
      case _ => None
  }

  function OrNone(part: Option<string>): string { if part.Some? then part.value else "None" }

  const CLIMATE_KEYS := [
    "temperature_address", "target_temperature_state_address", "target_temperature_address",
    "setpoint_shift_address"]

  const COVER_KEYS := ["move_long_address", "position_address"]

  function Primaries(row: Row, keys: seq<string>, format: Format): (r: seq<Option<string>>)
    ensures |r| == |keys| && forall i :: 0 <= i < |r| ==> r[i] == Primary(row, keys[i], format)
  {
    if keys == [] then [] else [Primary(row, keys[0], format)] + Primaries(row, keys[1..], format)
  }

  function Texts(parts: seq<Option<string>>): (r: seq<string>)
    ensures |r| == |parts| && forall i :: 0 <= i < |r| ==> r[i] == OrNone(parts[i])
  {
    if parts == [] then [] else [OrNone(parts[0])] + Texts(parts[1..])
  }

  function Joined(parts: seq<Option<string>>): Option<string> {
    if exists i :: 0 <= i < |parts| && parts[i].Some? then Some(Join(Texts(parts), '_')) else None
  }

  /** Python counts a Boolean as an integer here. */
  predicate SceneNumbered(row: Row) {
    "scene_number" in row && (row["scene_number"].Number? || row["scene_number"].Flag?)
  }

  /** The identity Home Assistant gives a row of a supported platform. */
  function RowIdentity(platform: Platform, row: Row, format: Format): Option<string> {
    if "unique_id" in row && Truthy(row["unique_id"]) then Some(Str(row["unique_id"]))
    else if platform.Light? || platform.Switch? then Primary(row, "address", format)
    else if platform.Button? then
      var address, payload := Primary(row, "address", format), ButtonPayload(row);
      if address.Some? && payload.Some? then Some(Join([address.value, Numeral(payload.value)], '_')) else None
    else if platform.Sensor? || platform.BinarySensor? then Primary(row, "state_address", format)
    else if platform.Fan? then
      var address := Primary(row, "address", format);
      if address.Some? then address else Primary(row, "switch_address", format)
    else if platform.Cover? then Joined(Primaries(row, COVER_KEYS, format))
    else if platform.Climate? then Joined(Primaries(row, CLIMATE_KEYS, format))
    else if platform.Scene? && SceneNumbered(row) then
      var address := Primary(row, "address", format);
      if address.Some? then Some(Join([address.value, Str(row["scene_number"])], '_')) else None
    else None
  }

  predicate Unnamed(row: Row) { "unique_id" !in row || !Truthy(row["unique_id"]) }

  // -------------------------------------------------------------- structure

  /** What an identity is made of, before any rendering. */
  datatype Part = Ga(raw: Raw) | Absent | Plain(text: string)

  function PartText(part: Part, format: Format): string {
    match part
    case Ga(raw) => Rendering(raw, format)
    case Absent => "None"
    case Plain(text) => text
  }

  function PartTexts(parts: seq<Part>, format: Format): (r: seq<string>)
    ensures |r| == |parts| && forall i :: 0 <= i < |r| ==> r[i] == PartText(parts[i], format)
  {
    if parts == [] then [] else [PartText(parts[0], format)] + PartTexts(parts[1..], format)
  }

  function Render(parts: seq<Part>, format: Format): string { Join(PartTexts(parts, format), '_') }

  predicate PlainPart(part: Part) {
    part.Plain? ==> Lacks(part.text, '_') && Lacks(part.text, '/')
  }

  predicate Plausible(parts: seq<Part>) {
    |parts| > 0 && forall i :: 0 <= i < |parts| ==> PlainPart(parts[i])
  }

  lemma PartHasNoSeparator(part: Part, format: Format)
    requires PlainPart(part)
    ensures Lacks(PartText(part, format), '_')
    ensures RenderPart(PartText(part, Long), format) == PartText(part, format)
  {
    match part {
      case Ga(raw) =>
        RenderingReadsBack(raw, format);
        RenderingReadsBack(raw, Long);
        LongHasThreeLevels(raw);
      case Absent =>
        SplitPrefix("None", "", '/');
      case Plain(text) =>
        SplitPrefix(text, "", '/');
    }
  }

  /** Rendering the long identity is the same as building the identity in the format. */
  lemma FormatOfRender(parts: seq<Part>, format: Format)
    requires Plausible(parts)
    ensures FormatNativeIdentity(Render(parts, Long), format) == Render(parts, format)
  {
    forall i | 0 <= i < |parts|
      ensures Lacks(PartTexts(parts, Long)[i], '_')
      ensures RenderPart(PartTexts(parts, Long)[i], format) == PartTexts(parts, format)[i]
    {
      PartHasNoSeparator(parts[i], format);
      PartHasNoSeparator(parts[i], Long);
    }
    SplitJoin(PartTexts(parts, Long), '_');
    assert RenderParts(PartTexts(parts, Long), format) == PartTexts(parts, format);
  }

  function PartAt(row: Row, key: string): Part {
    if key !in row then Absent
    else
      var value := row[key];
      if value.Items? && value.items == [] then Absent
      else
        match ParseAddress(Str(if value.Items? then value.items[0] else value))
        case None => Absent
        case Some(raw) => Ga(raw)
  }

  function PartsAt(row: Row, keys: seq<string>): (r: seq<Part>)
    ensures |r| == |keys| && forall i :: 0 <= i < |r| ==> r[i] == PartAt(row, keys[i])
  {
    if keys == [] then [] else [PartAt(row, keys[0])] + PartsAt(row, keys[1..])
  }

  function AnyGa(parts: seq<Part>): Option<seq<Part>> {
    if exists i :: 0 <= i < |parts| && parts[i].Ga? then Some(parts) else None
  }

  /** The parts of an unnamed row's identity, which say nothing about the format. */
  function NativeParts(platform: Platform, row: Row): Option<seq<Part>> {
    if platform.Light? || platform.Switch? then AnyGa([PartAt(row, "address")])
    else if platform.Button? then
      if PartAt(row, "address").Ga? && ButtonPayload(row).Some?
      then Some([PartAt(row, "address"), Plain(Numeral(ButtonPayload(row).value))])
      else None
    else if platform.Sensor? || platform.BinarySensor? then AnyGa([PartAt(row, "state_address")])
    else if platform.Fan? then
      if PartAt(row, "address").Ga? then Some([PartAt(row, "address")]) else AnyGa([PartAt(row, "switch_address")])
    else if platform.Cover? then AnyGa(PartsAt(row, COVER_KEYS))
    else if platform.Climate? then AnyGa(PartsAt(row, CLIMATE_KEYS))
    else if platform.Scene? && SceneNumbered(row) && PartAt(row, "address").Ga? then
      Some([PartAt(row, "address"), Plain(Str(row["scene_number"]))])
    else None
  }

  lemma PrimaryIsPart(row: Row, key: string, format: Format)
    ensures Primary(row, key, format).Some? <==> PartAt(row, key).Ga?
    ensures Primary(row, key, format).Some? ==> Primary(row, key, format).value == PartText(PartAt(row, key), format)
    ensures OrNone(Primary(row, key, format)) == PartText(PartAt(row, key), format)
  {
    if PartAt(row, key).Ga? {
      FormatOfRender([PartAt(row, key)], format);
    }
  }

  lemma NumberIsPlain(value: Value)
    requires value.Number? || value.Flag?
    ensures PlainPart(Plain(Str(value)))
  {
    if value.Number? { NumeralRoundTrip(if value.number < 0 then -value.number else value.number); }
  }

  lemma {:induction false} JoinedIsRender(row: Row, keys: seq<string>, format: Format)
    requires |keys| > 0
    ensures Joined(Primaries(row, keys, format)).Some? <==> AnyGa(PartsAt(row, keys)).Some?
    ensures AnyGa(PartsAt(row, keys)).Some? ==>
      Joined(Primaries(row, keys, format)).value == Render(PartsAt(row, keys), format)
  {
    var ps := Primaries(row, keys, format);
    forall i | 0 <= i < |keys|
      ensures ps[i].Some? <==> PartsAt(row, keys)[i].Ga?
      ensures Texts(ps)[i] == PartTexts(PartsAt(row, keys), format)[i]
    {
      PrimaryIsPart(row, keys[i], format);
    }
    assert Texts(ps) == PartTexts(PartsAt(row, keys), format);
  }

  lemma PairIsRender(row: Row, text: string, format: Format)
    requires PlainPart(Plain(text))
    ensures Primary(row, "address", format).Some? <==> PartAt(row, "address").Ga?
    ensures PartAt(row, "address").Ga? ==>
      && Plausible([PartAt(row, "address"), Plain(text)])
      && Join([Primary(row, "address", format).value, text], '_') ==
           Render([PartAt(row, "address"), Plain(text)], format)
  {
    PrimaryIsPart(row, "address", format);
    var parts := [PartAt(row, "address"), Plain(text)];
    assert PartTexts(parts, format) == [PartText(parts[0], format), PartText(parts[1], format)];
  }

  lemma SingleIsRender(row: Row, key: string, format: Format)
    ensures Primary(row, key, format).Some? <==> AnyGa([PartAt(row, key)]).Some?
    ensures PartAt(row, key).Ga? ==> AnyGa([PartAt(row, key)]) == Some([PartAt(row, key)])
    ensures Primary(row, key, format).Some? ==>
      Plausible([PartAt(row, key)]) && Primary(row, key, format).value == Render([PartAt(row, key)], format)
  {
    PrimaryIsPart(row, key, format);
    assert [PartAt(row, key)][0] == PartAt(row, key);
    assert PartTexts([PartAt(row, key)], format) == [PartText(PartAt(row, key), format)];
  }

  ghost predicate RendersParts(platform: Platform, row: Row, format: Format) {
    match NativeParts(platform, row)
    case None => RowIdentity(platform, row, format) == None
    case Some(parts) => Plausible(parts) && RowIdentity(platform, row, format) == Some(Render(parts, format))
  }

  lemma SingleKeyIdentity(platform: Platform, row: Row, format: Format)
    requires Unnamed(row) && (platform.Light? || platform.Switch? || platform.Sensor? || platform.BinarySensor?)
    ensures RendersParts(platform, row, format)
  {
    SingleIsRender(row, if platform.Light? || platform.Switch? then "address" else "state_address", format);
  }

  lemma FanIdentity(row: Row, format: Format)
    requires Unnamed(row)
    ensures RendersParts(Fan, row, format)
  {
    SingleIsRender(row, "address", format);
    SingleIsRender(row, "switch_address", format);
  }

  lemma PairIdentity(platform: Platform, row: Row, format: Format)
    requires Unnamed(row) && (platform.Button? || platform.Scene?)
    ensures RendersParts(platform, row, format)
  {
    if platform.Button? && ButtonPayload(row).Some? {
      NumeralRoundTrip(ButtonPayload(row).value);
      PairIsRender(row, Numeral(ButtonPayload(row).value), format);
    } else if platform.Scene? && SceneNumbered(row) {
      NumberIsPlain(row["scene_number"]);
      PairIsRender(row, Str(row["scene_number"]), format);
    }
  }

  lemma JoinedIdentity(platform: Platform, row: Row, format: Format)
    requires Unnamed(row) && (platform.Cover? || platform.Climate?)
    ensures RendersParts(platform, row, format)
  {
    hide Joined;
    hide Primaries;
    hide PartsAt;
    hide Render;
    hide Primary;
    hide SceneNumbered;
    hide ButtonPayload;
    JoinedIsRender(row, if platform.Cover? then COVER_KEYS else CLIMATE_KEYS, format);
  }

  /** The identity of an unnamed row is the rendering of its parts. */
  lemma IdentityOfParts(platform: Platform, row: Row, format: Format)
    requires Unnamed(row)
    ensures RendersParts(platform, row, format)
  {
    match platform
    case Fan => FanIdentity(row, format);
    case Button | Scene => PairIdentity(platform, row, format);
    case Cover | Climate => JoinedIdentity(platform, row, format);
    case Unsupported(_) =>
    case _ => SingleKeyIdentity(platform, row, format);
  }

  /** Building an identity in a format equals rendering the stored long identity in it. */
  lemma IdentityCommutesWithFormat(platform: Platform, row: Row, format: Format)
    requires Unnamed(row)
    ensures match RowIdentity(platform, row, Long)
      case None => RowIdentity(platform, row, format) == None
      case Some(long) => RowIdentity(platform, row, format) == Some(FormatNativeIdentity(long, format))
  {
    IdentityOfParts(platform, row, Long);
    IdentityOfParts(platform, row, format);
    if NativeParts(platform, row).Some? {
      FormatOfRender(NativeParts(platform, row).value, format);
    }
  }

  lemma RenderInjective(a: seq<Part>, b: seq<Part>, format: Format)
    requires Plausible(a) && Plausible(b) && Render(a, format) == Render(b, format)
    requires forall i :: 0 <= i < |a| && i < |b| ==> (a[i].Plain? <==> b[i].Plain?)
    ensures a == b
  {
    var s, t := PartTexts(a, format), PartTexts(b, format);
    forall i | 0 <= i < |a| ensures Lacks(s[i], '_') { PartHasNoSeparator(a[i], format); }
    forall i | 0 <= i < |b| ensures Lacks(t[i], '_') { PartHasNoSeparator(b[i], format); }
    SplitJoin(s, '_');
    SplitJoin(t, '_');
    assert s == t;
    forall i | 0 <= i < |a| ensures a[i] == b[i] {
      assert s[i] == t[i];
      if a[i].Ga? && b[i].Ga? {
        RenderingInjective(a[i].raw, b[i].raw, format);
      } else if a[i].Ga? && b[i].Absent? {
        NoneIsNoAddress(a[i].raw, format);
      } else if a[i].Absent? && b[i].Ga? {
        NoneIsNoAddress(b[i].raw, format);
      }
    }
  }

  lemma NoneIsNoAddress(raw: Raw, format: Format)
    ensures Rendering(raw, format) != "None"
  {
    RenderingReadsBack(raw, format);
    SplitPrefix("None", "", '/');
  }

  lemma SameShape(platform: Platform, a: Row, b: Row)
    requires NativeParts(platform, a).Some? && NativeParts(platform, b).Some?
    ensures var p, q := NativeParts(platform, a).value, NativeParts(platform, b).value;
      forall i :: 0 <= i < |p| && i < |q| ==> (p[i].Plain? <==> q[i].Plain?)
  {
    match platform
    case Cover =>
    case Climate =>
    case _ =>
  }

  lemma AgreeExactlyWhenPartsAgree(platform: Platform, a: Row, b: Row, format: Format)
    requires Unnamed(a) && Unnamed(b)
    ensures RowIdentity(platform, a, format) == RowIdentity(platform, b, format) <==>
      NativeParts(platform, a) == NativeParts(platform, b)
  {
    IdentityOfParts(platform, a, format);
    IdentityOfParts(platform, b, format);
    if NativeParts(platform, a).Some? && NativeParts(platform, b).Some? {
      SameShape(platform, a, b);
      var p, q := NativeParts(platform, a).value, NativeParts(platform, b).value;
      if Render(p, format) == Render(q, format) { RenderInjective(p, q, format); }
    }
  }

  /** No format makes two different rows of a platform look alike: identities agree in all formats or in none. */
  lemma FormatsDistinguishTheSameRows(platform: Platform, a: Row, b: Row, format: Format)
    requires Unnamed(a) && Unnamed(b)
    ensures RowIdentity(platform, a, format) == RowIdentity(platform, b, format) <==>
      RowIdentity(platform, a, Long) == RowIdentity(platform, b, Long)
  {
    AgreeExactlyWhenPartsAgree(platform, a, b, format);
    AgreeExactlyWhenPartsAgree(platform, a, b, Long);
  }
}
