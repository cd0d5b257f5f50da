/** The plan algebra: what happens to a plan's rows and entities between the mapper and the writer. */
module KnxPlan {
  import opened Common
  import opened KnxIdentity

  datatype Entity = Entity(platform: Platform, uniqueId: string, canonical: Option<string>, addresses: seq<string>)

  datatype Key = Key(platform: Platform, uid: string)

  datatype Skip = Skip(address: string, reason: string)

  /** One platform of a configuration; a configuration is a dictionary in insertion order. */
  datatype Block = Block(platform: Platform, rows: seq<Row>)

  type Config = seq<Block>

  datatype Plan = Plan(config: Config, entities: seq<Entity>, skipped: seq<Skip>)

  datatype PlanError =
    | DuplicateIdentity | MissingRow | IdentityUnsupported | EntityExists | AddressExists | InvalidScene

  function KeyOf(e: Entity): Key { Key(e.platform, e.uniqueId) }

  function RowKey(platform: Platform, row: Row, format: Format): Option<Key> {
    match RowIdentity(platform, row, format)
    case None => None
    case Some(uid) => Some(Key(platform, uid))
  }

  // ---------------------------------------------------------- configurations

  ghost predicate Dict(config: Config) {
    forall i, j :: 0 <= i < j < |config| ==> config[i].platform != config[j].platform
  }

  function RowsOf(config: Config, platform: Platform): seq<Row> {
    if config == [] then []
    else if config[0].platform == platform then config[0].rows
    else RowsOf(config[1..], platform)
  }

  /** setdefault(platform, []).extend(rows) */
  function AddRows(config: Config, platform: Platform, rows: seq<Row>): Config {
    if config == [] then [Block(platform, rows)]
    else if config[0].platform == platform then [Block(platform, config[0].rows + rows)] + config[1..]
    else [config[0]] + AddRows(config[1..], platform, rows)
  }

  function Extend(config: Config, blocks: Config): Config
    decreases |blocks|
  {
    if blocks == [] then config
    else Extend(AddRows(config, blocks[0].platform, blocks[0].rows), blocks[1..])
  }

  lemma {:induction false} AddRowsFind(config: Config, platform: Platform, rows: seq<Row>, p: Platform)
    ensures RowsOf(AddRows(config, platform, rows), p) ==
      RowsOf(config, p) + (if p == platform then rows else [])
  {
    if config != [] && config[0].platform != platform {
      AddRowsFind(config[1..], platform, rows, p);
      assert AddRows(config, platform, rows)[1..] == AddRows(config[1..], platform, rows);
    } else if config != [] {
      assert AddRows(config, platform, rows)[1..] == config[1..];
    }
  }

  lemma {:induction false} AddRowsPlatforms(config: Config, platform: Platform, rows: seq<Row>)
    ensures forall b :: b in AddRows(config, platform, rows) ==>
      b.platform == platform || exists c :: c in config && c.platform == b.platform
  {
    if config != [] {
      assert config == [config[0]] + config[1..];
      AddRowsPlatforms(config[1..], platform, rows);
      forall b | b in AddRows(config, platform, rows)
        ensures b.platform == platform || exists c :: c in config && c.platform == b.platform
      {
        if config[0].platform != platform && b in AddRows(config[1..], platform, rows) && b.platform != platform {
          var c :| c in config[1..] && c.platform == b.platform;
          assert c in config;
        } else if b.platform != platform {
          assert b == config[0] || b in config[1..];
          assert b in config;
        }
      }
    }
  }

  lemma DictCons(block: Block, rest: Config)
    requires Dict(rest) && forall b :: b in rest ==> b.platform != block.platform
    ensures Dict([block] + rest)
  {
  }

  lemma OtherPlatforms(config: Config)
    requires Dict(config) && config != []
    ensures Dict(config[1..]) && forall c :: c in config[1..] ==> c.platform != config[0].platform
  {
    forall c | c in config[1..] ensures c.platform != config[0].platform {
      var j :| 0 <= j < |config[1..]| && config[1..][j] == c;
      assert config[j + 1] == c;
    }
  }

  lemma {:induction false} AddRowsDict(config: Config, platform: Platform, rows: seq<Row>)
    requires Dict(config)
    ensures Dict(AddRows(config, platform, rows))
  {
    if config != [] {
      OtherPlatforms(config);
      if config[0].platform == platform {
        DictCons(Block(platform, config[0].rows + rows), config[1..]);
      } else {
        AddRowsDict(config[1..], platform, rows);
        AddRowsPlatforms(config[1..], platform, rows);
        DictCons(config[0], AddRows(config[1..], platform, rows));
      }
    }
  }

  lemma {:induction false} RowsOfAdd(config: Config, platform: Platform, rows: seq<Row>, p: Platform)
    ensures RowsOf(AddRows(config, platform, rows), p) ==
      RowsOf(config, p) + (if p == platform then rows else [])
    ensures Dict(config) ==> Dict(AddRows(config, platform, rows))
  {
    AddRowsFind(config, platform, rows, p);
    if Dict(config) { AddRowsDict(config, platform, rows); }
  }

  lemma {:induction false} RowsOfExtend(config: Config, blocks: Config, p: Platform)
    requires Dict(blocks)
    ensures RowsOf(Extend(config, blocks), p) == RowsOf(config, p) + RowsOf(blocks, p)
    ensures Dict(config) ==> Dict(Extend(config, blocks))
    decreases |blocks|
  {
    if blocks != [] {
      var next := AddRows(config, blocks[0].platform, blocks[0].rows);
      RowsOfAdd(config, blocks[0].platform, blocks[0].rows, p);
      assert Extend(config, blocks) == Extend(next, blocks[1..]);
      RowsOfExtend(next, blocks[1..], p);
      if blocks[0].platform == p {
        NoRows(blocks[1..], p);
        assert RowsOf(blocks, p) == blocks[0].rows;
      } else {
        assert RowsOf(blocks, p) == RowsOf(blocks[1..], p);
      }
    }
  }

  lemma {:induction false} NoRows(config: Config, p: Platform)
    requires forall i :: 0 <= i < |config| ==> config[i].platform != p
    ensures RowsOf(config, p) == []
  {
    if config != [] { NoRows(config[1..], p); }
  }

  // ------------------------------------------------------------ addresses

  predicate IsAddressKey(key: string) {
    key == "address" || (|key| >= 8 && key[|key| - 8..] == "_address")
  }

  function Canonical(text: string): set<string> {
    match Address(text) case None => {} case Some(address) => {address}
  }

  function Direct(items: seq<Value>): set<string> {
    if items == [] then {} else Canonical(Str(items[0])) + Direct(items[1..])
  }

  /** The addresses a field contributes: its own when the key says so, and any nested ones. */
  function FieldAddresses(key: string, value: Value): set<string>
    decreases value, 1
  {
    (if !IsAddressKey(key) then {} else if value.Items? then Direct(value.items) else Canonical(Str(value)))
    + NestedAddresses(value)
  }

  function NestedAddresses(value: Value): set<string>
    decreases value, 0
  {
    match value
    case Items(items) => ItemsAddresses(items)
    case Nested(fields) => FieldsAddresses(fields)
    case _ => {}
  }

  function ItemsAddresses(items: seq<Value>): set<string> {
    if items == [] then {} else NestedAddresses(items[0]) + ItemsAddresses(items[1..])
  }

  function FieldsAddresses(fields: seq<Field>): set<string> {
    if fields == [] then {} else FieldAddresses(fields[0].key, fields[0].value) + FieldsAddresses(fields[1..])
  }

  /** Every canonical group address a row mentions. */
  function RowAddresses(row: Row): set<string> {
    set k, a | k in row && a in FieldAddresses(k, row[k]) :: a
  }

  function AddressSet(e: Entity): set<string> { set a | a in e.addresses }

  function Mapped(entities: seq<Entity>): set<string> {
    set e, a | e in entities && a in e.addresses :: a
  }

  function SkippedSet(skipped: seq<Skip>): set<string> {
    set s | s in skipped :: s.address
  }

  // ------------------------------------------------------- correspondence

  predicate DistinctRows(platform: Platform, rows: seq<Row>, format: Format) {
    forall i, j :: 0 <= i < j < |rows| ==>
      RowIdentity(platform, rows[i], format) != RowIdentity(platform, rows[j], format)
  }

  predicate HasRow(config: Config, key: Key, format: Format) {
    exists row :: row in RowsOf(config, key.platform) && RowIdentity(key.platform, row, format) == Some(key.uid)
  }

  predicate HasEntity(entities: seq<Entity>, key: Key) {
    exists e :: e in entities && KeyOf(e) == key
  }

  ghost predicate DistinctEntities(entities: seq<Entity>) {
    forall i, j :: 0 <= i < j < |entities| ==> KeyOf(entities[i]) != KeyOf(entities[j])
  }

  /** Rows and entities are in bijection through their identities. */
  ghost predicate Corresponds(config: Config, entities: seq<Entity>, format: Format) {
    && Dict(config)
    && DistinctEntities(entities)
    && (forall p :: DistinctRows(p, RowsOf(config, p), format))
    && (forall p, row :: row in RowsOf(config, p) ==>
          RowKey(p, row, format).Some? && HasEntity(entities, RowKey(p, row, format).value))
    && (forall e :: e in entities ==> HasRow(config, KeyOf(e), format))
  }

  // --------------------------------------------------------- indexed rows

  function IndexRows(
    platform: Platform, rows: seq<Row>, format: Format, index: map<Key, Row>): Result<map<Key, Row>, PlanError>
    decreases |rows|
  {
    if rows == [] then Success(index)
    else
      match RowKey(platform, rows[0], format)
      case None => IndexRows(platform, rows[1..], format, index)
      case Some(key) =>
        if key in index then Failure(DuplicateIdentity)
        else IndexRows(platform, rows[1..], format, index[key := rows[0]])
  }

  function IndexBlocks(config: Config, format: Format, index: map<Key, Row>): Result<map<Key, Row>, PlanError>
    decreases |config|
  {
    if config == [] then Success(index)
    else
      match IndexRows(config[0].platform, config[0].rows, format, index)
      case Failure(e) => Failure(e)
      case Success(more) => IndexBlocks(config[1..], format, more)
  }

  /** Rows by identity; two rows with one identity are an error. */
  function IndexedRows(config: Config, format: Format): Result<map<Key, Row>, PlanError> {
    IndexBlocks(config, format, map[])
  }

  method IndexRowsOf(config: Config, format: Format) returns (r: Result<map<Key, Row>, PlanError>)
    ensures r == IndexedRows(config, format)
  {
    var index: map<Key, Row> := map[];
    for i := 0 to |config|
      invariant IndexBlocks(config[i..], format, index) == IndexedRows(config, format)
    {
      var rows := config[i].rows;
      assert config[i..][1..] == config[i + 1..];
      ghost var before := index;
      for k := 0 to |rows|
        invariant IndexRows(config[i].platform, rows[k..], format, index) ==
          IndexRows(config[i].platform, rows, format, before)
      {
        assert rows[k..][1..] == rows[k + 1..];
        var key := RowKey(config[i].platform, rows[k], format);
        if key.Some? {
          if key.value in index { return Failure(DuplicateIdentity); }
          index := index[key.value := rows[k]];
        }
      }
    }
    r := Success(index);
  }

  predicate AllKeyed(platform: Platform, rows: seq<Row>, format: Format) {
    forall row :: row in rows ==> RowKey(platform, row, format).Some?
  }

  predicate Fresh(platform: Platform, rows: seq<Row>, format: Format, index: map<Key, Row>) {
    forall row :: row in rows && RowKey(platform, row, format).Some? ==> RowKey(platform, row, format).value !in index
  }

  lemma DistinctCons(platform: Platform, row: Row, rest: seq<Row>, format: Format)
    ensures DistinctRows(platform, [row] + rest, format) <==>
      DistinctRows(platform, rest, format)
      && forall other :: other in rest ==> RowIdentity(platform, other, format) != RowIdentity(platform, row, format)
  {
    var rows := [row] + rest;
    if DistinctRows(platform, rows, format) {
      forall i, j | 0 <= i < j < |rest|
        ensures RowIdentity(platform, rest[i], format) != RowIdentity(platform, rest[j], format)
      {
        assert rest[i] == rows[i + 1] && rest[j] == rows[j + 1];
      }
      forall other | other in rest ensures RowIdentity(platform, other, format) != RowIdentity(platform, row, format) {
        var j :| 0 <= j < |rest| && rest[j] == other;
        assert rows[0] == row && rows[j + 1] == other;
      }
    }
  }

  /** Where every row has an identity, that is to say that the rows differ. */
  lemma {:induction false} IndexRowsSucceeds(platform: Platform, rows: seq<Row>, format: Format, index: map<Key, Row>)
    requires AllKeyed(platform, rows, format)
    ensures IndexRows(platform, rows, format, index).Success? <==>
      DistinctRows(platform, rows, format) && Fresh(platform, rows, format, index)
    decreases |rows|
  {
    if rows != [] {
      var key := RowKey(platform, rows[0], format).value;
      var rest := rows[1..];
      assert rows == [rows[0]] + rest;
      DistinctCons(platform, rows[0], rest, format);
      if key !in index {
        IndexRowsSucceeds(platform, rest, format, index[key := rows[0]]);
        FreshCons(platform, rows[0], rest, format, index);
      } else {
        assert rows[0] in rows;
      }
    }
  }

  /** Rows without an identity are passed over; the others are all different. */
  predicate DistinctKeyed(platform: Platform, rows: seq<Row>, format: Format) {
    forall i, j :: 0 <= i < j < |rows| && RowKey(platform, rows[i], format).Some? ==>
      RowKey(platform, rows[i], format) != RowKey(platform, rows[j], format)
  }

  lemma DistinctKeyedCons(platform: Platform, row: Row, rest: seq<Row>, format: Format)
    ensures DistinctKeyed(platform, [row] + rest, format) <==>
      DistinctKeyed(platform, rest, format)
      && forall other :: other in rest && RowKey(platform, row, format).Some? ==>
           RowKey(platform, other, format) != RowKey(platform, row, format)
  {
    hide RowKey;
    var rows := [row] + rest;
    if DistinctKeyed(platform, rows, format) {
      forall i, j | 0 <= i < j < |rest| && RowKey(platform, rest[i], format).Some?
        ensures RowKey(platform, rest[i], format) != RowKey(platform, rest[j], format)
      {
        assert rest[i] == rows[i + 1] && rest[j] == rows[j + 1];
      }
      forall other | other in rest && RowKey(platform, row, format).Some?
        ensures RowKey(platform, other, format) != RowKey(platform, row, format)
      {
        var j :| 0 <= j < |rest| && rest[j] == other;
        assert rows[0] == row && rows[j + 1] == other;
      }
    }
  }

  /** Indexing any rows fails exactly when an identity occurs twice, among them or in the index. */
  lemma {:induction false} IndexRowsExactly(platform: Platform, rows: seq<Row>, format: Format, index: map<Key, Row>)
    ensures IndexRows(platform, rows, format, index).Success? <==>
      DistinctKeyed(platform, rows, format) && Fresh(platform, rows, format, index)
    decreases |rows|
  {
    hide RowKey;
    if rows != [] {
      var row, rest := rows[0], rows[1..];
      var key := RowKey(platform, row, format);
      assert rows == [row] + rest && row in rows;
      DistinctKeyedCons(platform, row, rest, format);
      if key.None? {
        IndexRowsExactly(platform, rest, format, index);
      } else if key.value !in index {
        IndexRowsExactly(platform, rest, format, index[key.value := row]);
        FreshKeyed(platform, row, rest, format, index);
      }
    }
  }

  lemma FreshKeyed(platform: Platform, row: Row, rest: seq<Row>, format: Format, index: map<Key, Row>)
    requires RowKey(platform, row, format).Some? && RowKey(platform, row, format).value !in index
    ensures Fresh(platform, rest, format, index[RowKey(platform, row, format).value := row]) <==>
      Fresh(platform, [row] + rest, format, index)
      && forall other :: other in rest ==> RowKey(platform, other, format) != RowKey(platform, row, format)
  {
    hide RowKey;
    var rows := [row] + rest;
    assert forall other :: other in rows <==> other == row || other in rest;
  }

  lemma {:induction false} IndexRowsPlatform(platform: Platform, rows: seq<Row>, format: Format, index: map<Key, Row>)
    requires IndexRows(platform, rows, format, index).Success?
    ensures forall k :: k in IndexRows(platform, rows, format, index).value ==> k in index || k.platform == platform
    decreases |rows|
  {
    hide RowIdentity;
    if rows != [] {
      var key := RowKey(platform, rows[0], format);
      IndexRowsPlatform(platform, rows[1..], format, if key.Some? then index[key.value := rows[0]] else index);
    }
  }

  ghost predicate AllDistinctKeyed(config: Config, format: Format) {
    forall p :: DistinctKeyed(p, RowsOf(config, p), format)
  }

  lemma AllDistinctCons(config: Config, format: Format)
    requires Dict(config) && config != []
    ensures AllDistinctKeyed(config, format) <==>
      DistinctKeyed(config[0].platform, config[0].rows, format) && AllDistinctKeyed(config[1..], format)
  {
    hide DistinctKeyed;
    var p0 := config[0].platform;
    assert RowsOf(config, p0) == config[0].rows;
    NothingKeyed(p0, format);
    NoRows(config[1..], p0);
    forall p ensures RowsOf(config[1..], p) == if p == p0 then [] else RowsOf(config, p) {}
    if AllDistinctKeyed(config, format) {
      assert DistinctKeyed(p0, RowsOf(config, p0), format);
      forall p ensures DistinctKeyed(p, RowsOf(config[1..], p), format) {
        assert DistinctKeyed(p, RowsOf(config, p), format);
      }
    }
    if DistinctKeyed(p0, config[0].rows, format) && AllDistinctKeyed(config[1..], format) {
      forall p ensures DistinctKeyed(p, RowsOf(config, p), format) {
        assert DistinctKeyed(p, RowsOf(config[1..], p), format);
      }
    }
  }

  /** A configuration is refused exactly when two rows of one platform have one identity. */
  lemma {:induction false} IndexBlocksExactly(config: Config, format: Format, index: map<Key, Row>)
    requires Dict(config) && forall i, k :: 0 <= i < |config| && k in index ==> k.platform != config[i].platform
    ensures IndexBlocks(config, format, index).Success? <==> AllDistinctKeyed(config, format)
    decreases |config|
  {
    hide RowKey;
    hide DistinctKeyed;
    if config == [] {
      forall p ensures DistinctKeyed(p, RowsOf(config, p), format) { NothingKeyed(p, format); }
    } else {
      hide AllDistinctKeyed;
      var p0, rows := config[0].platform, config[0].rows;
      AllDistinctCons(config, format);
      IndexRowsExactly(p0, rows, format, index);
      KeysOfPlatform(p0, rows, format);
      if IndexRows(p0, rows, format, index).Success? {
        IndexRowsPlatform(p0, rows, format, index);
        IndexBlocksExactly(config[1..], format, IndexRows(p0, rows, format, index).value);
      }
    }
  }

  lemma NothingKeyed(p: Platform, format: Format)
    ensures DistinctKeyed(p, [], format)
  {
  }

  lemma KeysOfPlatform(p: Platform, rows: seq<Row>, format: Format)
    ensures forall row :: row in rows && RowKey(p, row, format).Some? ==> RowKey(p, row, format).value.platform == p
  {
    hide RowIdentity;
  }

  lemma FreshCons(platform: Platform, row: Row, rest: seq<Row>, format: Format, index: map<Key, Row>)
    requires RowKey(platform, row, format).Some? && RowKey(platform, row, format).value !in index
    ensures Fresh(platform, rest, format, index[RowKey(platform, row, format).value := row]) <==>
      Fresh(platform, [row] + rest, format, index)
      && forall other :: other in rest ==> RowIdentity(platform, other, format) != RowIdentity(platform, row, format)
  {
    var rows := [row] + rest;
    assert forall other :: other in rows <==> other == row || other in rest;
    forall other | other in rest
      ensures RowKey(platform, other, format) == RowKey(platform, row, format) <==>
        RowIdentity(platform, other, format) == RowIdentity(platform, row, format)
    {
    }
  }

  lemma {:induction false} IndexRowsHolds(platform: Platform, rows: seq<Row>, format: Format, index: map<Key, Row>)
    requires AllKeyed(platform, rows, format) && IndexRows(platform, rows, format, index).Success?
    ensures var r := IndexRows(platform, rows, format, index).value;
      && (forall k :: k in index ==> k in r && r[k] == index[k])
      && (forall row :: row in rows ==>
            var k := RowKey(platform, row, format).value; k in r && r[k] == row)
      && (forall k :: k in r && k !in index ==> k.platform == platform)
    decreases |rows|
  {
    if rows != [] {
      var key := RowKey(platform, rows[0], format).value;
      assert rows == [rows[0]] + rows[1..];
      IndexRowsHolds(platform, rows[1..], format, index[key := rows[0]]);
    }
  }

  lemma {:induction false} IndexBlocksWorks(config: Config, format: Format, index: map<Key, Row>)
    requires Dict(config)
    requires forall p :: DistinctRows(p, RowsOf(config, p), format)
    requires forall p, row :: row in RowsOf(config, p) ==> RowKey(p, row, format).Some?
    requires forall i, k :: 0 <= i < |config| && k in index ==> k.platform != config[i].platform
    ensures var r := IndexBlocks(config, format, index);
      && r.Success?
      && (forall k :: k in index ==> k in r.value && r.value[k] == index[k])
      && (forall p, row :: row in RowsOf(config, p) ==>
            var k := RowKey(p, row, format).value; k in r.value && r.value[k] == row)
    decreases |config|
  {
    if config != [] {
      var p0, rows := config[0].platform, config[0].rows;
      assert RowsOf(config, p0) == rows;
      assert forall row :: row in rows ==> row in RowsOf(config, p0);
      IndexRowsSucceeds(p0, rows, format, index);
      IndexRowsHolds(p0, rows, format, index);
      var more := IndexRows(p0, rows, format, index).value;
      NoRows(config[1..], p0);
      forall p ensures RowsOf(config[1..], p) == if p == p0 then [] else RowsOf(config, p) {}
      forall p ensures DistinctRows(p, RowsOf(config[1..], p), format) {
        assert DistinctRows(p, RowsOf(config, p), format);
      }
      IndexBlocksWorks(config[1..], format, more);
    }
  }

  /** A configuration in bijection with entities has every row under its own identity. */
  lemma CorrespondingRowsIndexed(config: Config, entities: seq<Entity>, format: Format)
    requires Corresponds(config, entities, format)
    ensures var r := IndexedRows(config, format);
      && r.Success?
      && forall e :: e in entities ==> KeyOf(e) in r.value
  {
    IndexBlocksWorks(config, format, map[]);
    var r := IndexedRows(config, format);
    forall e | e in entities ensures KeyOf(e) in r.value {
      var k := KeyOf(e);
      assert HasRow(config, k, format);
      var row :| row in RowsOf(config, k.platform) && RowIdentity(k.platform, row, format) == Some(k.uid);
    }
  }
}
