/** Which texts are group addresses and which identity a row has, told from what stands in them. */
module KnxIdentityLaws {
  import opened Common
  import opened DecimalText
  import opened KnxIdentity

  // ----------------------------------------------------------------------- addresses

  /** A number at most this, in decimal digits. */
  ghost predicate Counts(text: string, n: nat, most: nat) {
    && text != "" && (forall i :: 0 <= i < |text| ==> '0' <= text[i] <= '9')
    && ValueOf(text) == n && n <= most
  }

  ghost predicate ReadsOne(text: string, raw: nat) { Counts(text, raw, 65535) }

  ghost predicate ReadsTwo(text: string, raw: nat) {
    exists a: string, b: string, main: nat, sub: nat ::
      text == a + "/" + b && Counts(a, main, 31) && Counts(b, sub, 2047) && raw == main * 2048 + sub
  }

  ghost predicate ReadsThree(text: string, raw: nat) {
    exists a: string, b: string, c: string, main: nat, middle: nat, sub: nat ::
      text == a + "/" + b + "/" + c && Counts(a, main, 31) && Counts(b, middle, 7) && Counts(c, sub, 255)
      && raw == main * 2048 + middle * 256 + sub
  }

  lemma DigitsLack(text: string)
    requires AllDigits(text)
    ensures Lacks(text, '/')
  {
    forall i | 0 <= i < |text| ensures text[i] != '/' { assert IsDigit(text[i]); }
  }

  lemma {:induction false} CountsIs(text: string, n: nat, most: nat)
    ensures Counts(text, n, most) <==> AllDigits(text) && ValueOf(text) == n && n <= most
  {
    if Counts(text, n, most) {
      forall i | 0 <= i < |text| ensures IsDigit(text[i]) { assert '0' <= text[i] <= '9'; }
    }
    if AllDigits(text) {
      forall i | 0 <= i < |text| ensures '0' <= text[i] <= '9' { assert IsDigit(text[i]); }
    }
  }

  lemma {:induction false} SplitsBack(text: string, sep: char)
    ensures Join(Split(text, sep), sep) == text
  {
    if text != "" {
      var rest := Split(text[1..], sep);
      SplitsBack(text[1..], sep);
      assert text == [text[0]] + text[1..];
      if text[0] == sep {
        assert Split(text, sep) == [[]] + rest;
        assert ([[]] + rest)[1..] == rest;
      } else {
        var parts := Split(text, sep);
        assert parts == [[text[0]] + rest[0]] + rest[1..];
        assert parts[1..] == rest[1..];
        if |rest| > 1 {
          assert Join(parts, sep) == ([text[0]] + rest[0]) + [sep] + Join(rest[1..], sep);
          assert Join(rest, sep) == rest[0] + [sep] + Join(rest[1..], sep);
        }
      }
    }
  }

  lemma {:induction false} TwoPieces(a: string, b: string)
    requires AllDigits(a) && AllDigits(b)
    ensures Split(a + "/" + b, '/') == [a, b]
  {
    DigitsLack(a);
    DigitsLack(b);
    SplitPrefix(a, b, '/');
    SplitPrefix(b, "", '/');
  }

  lemma {:induction false} ThreePieces(a: string, b: string, c: string)
    requires AllDigits(a) && AllDigits(b) && AllDigits(c)
    ensures Split(a + "/" + b + "/" + c, '/') == [a, b, c]
  {
    DigitsLack(a);
    TwoPieces(b, c);
    SplitPrefix(a, b + "/" + c, '/');
    assert a + "/" + b + "/" + c == a + "/" + (b + "/" + c);
  }

  lemma {:induction false} TwoJoined(parts: seq<string>)
    requires |parts| == 2
    ensures Join(parts, '/') == parts[0] + "/" + parts[1]
  {
  }

  lemma {:induction false} ThreeJoined(parts: seq<string>)
    requires |parts| == 3
    ensures Join(parts, '/') == parts[0] + "/" + parts[1] + "/" + parts[2]
  {
    TwoJoined(parts[1..]);
  }

  lemma ParsedReads(text: string, raw: Raw)
    requires ParseAddress(text) == Some(raw)
    ensures ReadsOne(text, raw) || ReadsTwo(text, raw) || ReadsThree(text, raw)
  {
    var parts := Split(text, '/');
    SplitsBack(text, '/');
    var levels := Values(parts);
    if |parts| == 1 {
      CountsIs(text, raw, 65535);
    } else if |parts| == 2 {
      TwoJoined(parts);
      CountsIs(parts[0], levels[0], 31);
      CountsIs(parts[1], levels[1], 2047);
    } else {
      ThreeJoined(parts);
      CountsIs(parts[0], levels[0], 31);
      CountsIs(parts[1], levels[1], 7);
      CountsIs(parts[2], levels[2], 255);
    }
  }

  lemma OneParsed(text: string, raw: Raw)
    requires ReadsOne(text, raw)
    ensures ParseAddress(text) == Some(raw)
  {
    CountsIs(text, raw, 65535);
    DigitsLack(text);
    SplitPrefix(text, "", '/');
  }

  lemma {:induction false} LevelsParsed(text: string, parts: seq<string>, levels: seq<nat>, raw: Raw)
    requires Split(text, '/') == parts && AllNumeric(parts) && |levels| == |parts|
    requires (forall i :: 0 <= i < |parts| ==> ValueOf(parts[i]) == levels[i]) && FromLevels(levels) == Some(raw)
    ensures ParseAddress(text) == Some(raw)
  {
    assert Values(parts) == levels;
  }

  lemma TwoParsed(text: string, raw: Raw)
    requires ReadsTwo(text, raw)
    ensures ParseAddress(text) == Some(raw)
  {
    var a: string, b: string, main: nat, sub: nat :|
      text == a + "/" + b && Counts(a, main, 31) && Counts(b, sub, 2047) && raw == main * 2048 + sub;
    CountsIs(a, main, 31);
    CountsIs(b, sub, 2047);
    TwoPieces(a, b);
    hide Counts;
    hide Split;
    hide ParseAddress;
    LevelsParsed(text, [a, b], [main, sub], raw);
  }

  lemma ThreeParsed(text: string, raw: Raw)
    requires ReadsThree(text, raw)
    ensures ParseAddress(text) == Some(raw)
  {
    var a: string, b: string, c: string, main: nat, middle: nat, sub: nat :|
      text == a + "/" + b + "/" + c && Counts(a, main, 31) && Counts(b, middle, 7) && Counts(c, sub, 255)
      && raw == main * 2048 + middle * 256 + sub;
    CountsIs(a, main, 31);
    CountsIs(b, middle, 7);
    CountsIs(c, sub, 255);
    ThreePieces(a, b, c);
    hide Counts;
    hide Split;
    hide ParseAddress;
    LevelsParsed(text, [a, b, c], [main, middle, sub], raw);
  }

  /** A text is an address exactly when it has one, two or three numbers within their limits. */
  lemma AddressesExactly(text: string, raw: Raw)
    ensures ParseAddress(text) == Some(raw) <==> ReadsOne(text, raw) || ReadsTwo(text, raw) || ReadsThree(text, raw)
  {
    if ParseAddress(text) == Some(raw) { ParsedReads(text, raw); }
    if ReadsOne(text, raw) { OneParsed(text, raw); }
    if ReadsTwo(text, raw) { TwoParsed(text, raw); }
    if ReadsThree(text, raw) { ThreeParsed(text, raw); }
  }

  lemma LevelsAre(raw: Raw)
    ensures raw % 2048 / 256 == raw / 256 % 8
    ensures raw % 2048 / 256 * 256 + raw % 256 == raw % 2048
    ensures raw / 2048 * 2048 + raw % 2048 == raw
  {
  }

  lemma {:induction false} NumeralsThree(a: nat, b: nat, c: nat)
    ensures Join(Numerals([a, b, c]), '/') == Numeral(a) + "/" + Numeral(b) + "/" + Numeral(c)
  {
    hide Numeral;
    ThreeJoined(Numerals([a, b, c]));
  }

  lemma {:induction false} NumeralsTwo(a: nat, b: nat)
    ensures Join(Numerals([a, b]), '/') == Numeral(a) + "/" + Numeral(b)
    ensures Join(Numerals([a]), '/') == Numeral(a)
  {
    hide Numeral;
    TwoJoined(Numerals([a, b]));
  }

  lemma {:induction false} LongWrites(raw: Raw)
    ensures Rendering(raw, Long) == Numeral(raw / 2048) + "/" + Numeral(raw / 256 % 8) + "/" + Numeral(raw % 256)
  {
    LevelsAre(raw);
    NumeralsThree(raw / 2048, raw % 2048 / 256, raw % 256);
    hide Join;
    hide Numerals;
    hide Numeral;
  }

  lemma {:induction false} ShortWrites(raw: Raw)
    ensures Rendering(raw, Short) == Numeral(raw / 2048) + "/" + Numeral(raw % 2048)
  {
    LevelsAre(raw);
    NumeralsTwo(raw / 2048, raw % 2048);
    hide Join;
    hide Numerals;
    hide Numeral;
  }

  lemma {:induction false} FreeWrites(raw: Raw)
    ensures Rendering(raw, Free) == Numeral(raw)
  {
    LevelsAre(raw);
    NumeralsTwo(raw, 0);
    hide Join;
    hide Numerals;
    hide Numeral;
  }

  /** Each format writes its own number of levels. */
  lemma {:induction false} FormatsWrite(raw: Raw)
    ensures Rendering(raw, Long) == Numeral(raw / 2048) + "/" + Numeral(raw / 256 % 8) + "/" + Numeral(raw % 256)
    ensures Rendering(raw, Short) == Numeral(raw / 2048) + "/" + Numeral(raw % 2048)
    ensures Rendering(raw, Free) == Numeral(raw)
  {
    hide *;
    LongWrites(raw);
    ShortWrites(raw);
    FreeWrites(raw);
  }

  // ---------------------------------------------------------------------- identities

  /** The address a field gives, a list its first element. */
  ghost predicate GivesFirst(row: Row, key: string, raw: Raw) {
    && key in row
    && (if row[key].Items? then row[key].items != [] && ParseAddress(Str(row[key].items[0])) == Some(raw)
        else ParseAddress(Str(row[key])) == Some(raw))
  }

  /** The piece of an identity that a field gives; without an address the word None stands for it. */
  ghost predicate PieceIs(row: Row, key: string, format: Format, piece: string) {
    if exists raw :: GivesFirst(row, key, raw) then exists raw :: GivesFirst(row, key, raw) && piece == Rendering(raw, format)
    else piece == "None"
  }

  ghost predicate GivesAny(row: Row, keys: set<string>) { exists key, raw :: key in keys && GivesFirst(row, key, raw) }

  /** The number a button sends: that of its type, the one it names, or 1. */
  ghost predicate ButtonSends(row: Row, n: nat) {
    if "type" in row then row["type"] == Encoded(Some(n))
    else if "payload" !in row then n == 1
    else
      || row["payload"] == Number(n)
      || exists digits :: row["payload"] == Text(digits) && AllDigits(digits) && ValueOf(digits) == n
  }

  ghost predicate AddressIs(row: Row, key: string, format: Format, id: string) {
    exists raw :: GivesFirst(row, key, raw) && id == Rendering(raw, format)
  }

  /** What an unnamed row's identity is, platform by platform. */
  ghost predicate NativelyIs(platform: Platform, row: Row, format: Format, id: string) {
    match platform
    case Light | Switch => AddressIs(row, "address", format, id)
    case Sensor | BinarySensor => AddressIs(row, "state_address", format, id)
    case Fan =>
      if exists raw :: GivesFirst(row, "address", raw) then AddressIs(row, "address", format, id)
      else AddressIs(row, "switch_address", format, id)
    case Button =>
      exists address, n :: AddressIs(row, "address", format, address) && ButtonSends(row, n) && id == address + "_" + Numeral(n)
    case Scene =>
      && "scene_number" in row && (row["scene_number"].Number? || row["scene_number"].Flag?)
      && exists address :: AddressIs(row, "address", format, address) && id == address + "_" + Str(row["scene_number"])
    case Cover =>
      && GivesAny(row, {"move_long_address", "position_address"})
      && exists a, b :: PieceIs(row, "move_long_address", format, a) && PieceIs(row, "position_address", format, b)
           && id == a + "_" + b
    case Climate =>
      && GivesAny(row, {"temperature_address", "target_temperature_state_address", "target_temperature_address",
                        "setpoint_shift_address"})
      && ClimatePieces(row, format, id)
    case Unsupported(_) => false
  }

  lemma PrimaryIs(row: Row, key: string, format: Format)
    ensures Primary(row, key, format).Some? <==> exists raw :: GivesFirst(row, key, raw)
    ensures forall raw :: GivesFirst(row, key, raw) ==> Primary(row, key, format) == Some(Rendering(raw, format))
  {
    PrimaryIsPart(row, key, format);
    hide Rendering;
    hide FormatNativeIdentity;
    if PartAt(row, key).Ga? { assert GivesFirst(row, key, PartAt(row, key).raw); }
  }

  lemma AddressIsPrimary(row: Row, key: string, format: Format, id: string)
    ensures AddressIs(row, key, format, id) <==> Primary(row, key, format) == Some(id)
  {
    PrimaryIs(row, key, format);
    hide Primary;
    hide GivesFirst;
    hide Rendering;
    if Primary(row, key, format) == Some(id) {
      var raw :| GivesFirst(row, key, raw);
      assert id == Rendering(raw, format);
    }
  }

  lemma PieceIsPrimary(row: Row, key: string, format: Format, piece: string)
    ensures PieceIs(row, key, format, piece) <==> piece == OrNone(Primary(row, key, format))
  {
    PrimaryIs(row, key, format);
    hide Primary;
    hide GivesFirst;
    hide Rendering;
  }

  lemma SendsIs(row: Row, n: nat)
    ensures ButtonSends(row, n) <==> ButtonPayload(row) == Some(n)
  {
  }

  lemma PairJoined(a: string, b: string)
    ensures Join([a, b], '_') == a + "_" + b
  {
  }

  lemma FourJoined(a: string, b: string, c: string, d: string)
    ensures Join([a, b, c, d], '_') == a + "_" + b + "_" + c + "_" + d
  {
    assert [a, b, c, d][1..] == [b, c, d] && [b, c, d][1..] == [c, d];
    PairJoined(c, d);
    assert Join([b, c, d], '_') == b + "_" + (c + "_" + d);
    assert a + "_" + (b + "_" + (c + "_" + d)) == a + "_" + b + "_" + c + "_" + d;
  }

  lemma {:induction false} AnyIs(row: Row, keys: seq<string>, format: Format)
    ensures (exists i :: 0 <= i < |keys| && Primaries(row, keys, format)[i].Some?) <==> GivesAny(row, set k | k in keys)
  {
    hide Primary;
    hide GivesFirst;
    forall i | 0 <= i < |keys|
      ensures Primaries(row, keys, format)[i].Some? <==> exists raw :: GivesFirst(row, keys[i], raw)
    {
      PrimaryIs(row, keys[i], format);
    }
    if key, raw :| key in keys && GivesFirst(row, key, raw) {
      var i :| 0 <= i < |keys| && keys[i] == key;
      assert Primaries(row, keys, format)[i].Some?;
    }
  }

  lemma {:induction false} CoverIs(row: Row, format: Format, id: string)
    ensures NativelyIs(Cover, row, format, id) <==> Joined(Primaries(row, COVER_KEYS, format)) == Some(id)
  {
    var parts := Primaries(row, COVER_KEYS, format);
    var a, b := OrNone(parts[0]), OrNone(parts[1]);
    AnyIs(row, COVER_KEYS, format);
    assert (set k | k in COVER_KEYS) == {"move_long_address", "position_address"};
    PieceIsPrimary(row, "move_long_address", format, a);
    PieceIsPrimary(row, "position_address", format, b);
    forall x ensures PieceIs(row, "move_long_address", format, x) <==> x == a {
      PieceIsPrimary(row, "move_long_address", format, x);
    }
    forall x ensures PieceIs(row, "position_address", format, x) <==> x == b {
      PieceIsPrimary(row, "position_address", format, x);
    }
    PairJoined(a, b);
    assert Texts(parts) == [a, b];
    hide PieceIs;
    hide GivesAny;
    hide Primaries;
    hide Texts;
    hide Join;
  }

  lemma {:induction false} ClimateIs(row: Row, format: Format, id: string)
    ensures NativelyIs(Climate, row, format, id) <==> Joined(Primaries(row, CLIMATE_KEYS, format)) == Some(id)
  {
    hide PieceIs;
    hide GivesAny;
    hide ClimatePieces;
    hide Primary;
    hide OrNone;
    hide Join;
    hide Texts;
    AnyIs(row, CLIMATE_KEYS, format);
    ClimateKeys();
    ClimateTexts(row, format, id);
    hide CLIMATE_KEYS;
    hide Primaries;
  }

  lemma ClimateKeys()
    ensures (set k | k in CLIMATE_KEYS) ==
      {"temperature_address", "target_temperature_state_address", "target_temperature_address", "setpoint_shift_address"}
  {
  }

  lemma {:induction false} ClimateTexts(row: Row, format: Format, id: string)
    ensures ClimatePieces(row, format, id) <==> id == Join(Texts(Primaries(row, CLIMATE_KEYS, format)), '_')
  {
    hide PieceIs;
    hide OrNone;
    hide Primary;
    hide ClimatePieces;
    hide Join;
    var a := OrNone(Primary(row, "temperature_address", format));
    var b := OrNone(Primary(row, "target_temperature_state_address", format));
    var c := OrNone(Primary(row, "target_temperature_address", format));
    var d := OrNone(Primary(row, "setpoint_shift_address", format));
    forall key, x ensures PieceIs(row, key, format, x) <==> x == OrNone(Primary(row, key, format)) {
      PieceIsPrimary(row, key, format, x);
    }
    PiecesAre(row, format, a, b, c, d, id);
    FourJoined(a, b, c, d);
    assert Texts(Primaries(row, CLIMATE_KEYS, format)) == [a, b, c, d];
  }

  ghost predicate ClimatePieces(row: Row, format: Format, id: string) {
    exists a, b, c, d ::
      && PieceIs(row, "temperature_address", format, a) && PieceIs(row, "target_temperature_state_address", format, b)
      && PieceIs(row, "target_temperature_address", format, c) && PieceIs(row, "setpoint_shift_address", format, d)
      && id == a + "_" + b + "_" + c + "_" + d
  }

  lemma PiecesAre(row: Row, format: Format, a: string, b: string, c: string, d: string, id: string)
    requires forall x :: PieceIs(row, "temperature_address", format, x) <==> x == a
    requires forall x :: PieceIs(row, "target_temperature_state_address", format, x) <==> x == b
    requires forall x :: PieceIs(row, "target_temperature_address", format, x) <==> x == c
    requires forall x :: PieceIs(row, "setpoint_shift_address", format, x) <==> x == d
    ensures ClimatePieces(row, format, id) <==> id == a + "_" + b + "_" + c + "_" + d
  {
    hide PieceIs;
    assert PieceIs(row, "temperature_address", format, a) && PieceIs(row, "target_temperature_state_address", format, b);
    assert PieceIs(row, "target_temperature_address", format, c) && PieceIs(row, "setpoint_shift_address", format, d);
  }

  lemma OtherIs(platform: Platform, row: Row, format: Format, id: string)
    requires Unnamed(row) && !platform.Cover? && !platform.Climate?
    ensures RowIdentity(platform, row, format) == Some(id) <==> NativelyIs(platform, row, format, id)
  {
    hide Primary;
    hide AddressIs;
    hide GivesFirst;
    hide ButtonPayload;
    hide ButtonSends;
    hide Numeral;
    hide Join;
    forall key, text ensures AddressIs(row, key, format, text) <==> Primary(row, key, format) == Some(text) {
      AddressIsPrimary(row, key, format, text);
    }
    PrimaryIs(row, "address", format);
    if platform.Button? {
      forall n: nat ensures ButtonSends(row, n) <==> ButtonPayload(row) == Some(n) { SendsIs(row, n); }
      forall a, n: nat ensures Join([a, Numeral(n)], '_') == a + "_" + Numeral(n) { PairJoined(a, Numeral(n)); }
    }
    if platform.Scene? && "scene_number" in row {
      forall a ensures Join([a, Str(row["scene_number"])], '_') == a + "_" + Str(row["scene_number"]) {
        PairJoined(a, Str(row["scene_number"]));
      }
    }
  }

  /** A row without a name of its own has exactly this identity; a named one has its name. */
  lemma IdentitiesExactly(platform: Platform, row: Row, format: Format, id: string)
    ensures RowIdentity(platform, row, format) == Some(id) <==>
      if "unique_id" in row && row["unique_id"] !in {Text(""), Number(0), Flag(false), Items([]), Nested([])}
      then id == Str(row["unique_id"])
      else NativelyIs(platform, row, format, id)
  {
    hide NativelyIs;
    if "unique_id" in row { GivenExactly(row["unique_id"]); }
    if Unnamed(row) {
      if platform.Cover? { CoverIs(row, format, id); }
      else if platform.Climate? { ClimateIs(row, format, id); }
      else { OtherIs(platform, row, format, id); }
    }
    hide Primary;
    hide Primaries;
    hide Joined;
    hide ButtonPayload;
  }
}
