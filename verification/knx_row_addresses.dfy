/** Which group addresses a row mentions, told by where they stand in it. */
module KnxRowAddresses {
  import opened Common
  import opened KnxIdentity
  import opened KnxPlan

  /** What stands at the end of a path through lists and mappings. */
  function Follow(v: Value, path: seq<nat>): Option<Value>
    decreases |path|
  {
    if path == [] then Some(v)
    else
      match v
      case Items(items) => if path[0] < |items| then Follow(items[path[0]], path[1..]) else None
      case Nested(fields) => if path[0] < |fields| then Follow(fields[path[0]].value, path[1..]) else None
      case _ => None
  }

  ghost predicate HoldsAt(v: Value, path: seq<nat>, field: Field) {
    var at := Follow(v, path); at.Some? && at.value.Nested? && field in at.value.fields
  }

  /** Some mapping inside the value, at any depth of lists and mappings, has this field. */
  ghost predicate Holds(v: Value, field: Field) { exists path: seq<nat> :: HoldsAt(v, path, field) }

  ghost predicate NamesAddress(key: string) { key == "address" || exists stem: string :: key == stem + "_address" }

  /** The field is one for addresses, and its value, or an element of its list, reads as this one. */
  ghost predicate Gives(field: Field, a: string) {
    && NamesAddress(field.key)
    && if field.value.Items? then exists x :: x in field.value.items && Address(Str(x)) == Some(a)
       else Address(Str(field.value)) == Some(a)
  }

  /** A field of the row, or of something in it. */
  ghost predicate FieldOf(row: Row, field: Field) {
    exists k :: k in row && (field == Field(k, row[k]) || Holds(row[k], field))
  }

  // ------------------------------------------------------------------------- proofs

  lemma KeyNames(key: string)
    ensures IsAddressKey(key) <==> NamesAddress(key)
  {
    if key != "address" {
      if |key| >= 8 && key[|key| - 8..] == "_address" {
        assert key == key[..|key| - 8] + "_address";
      }
      if stem: string :| key == stem + "_address" {
        assert key[|key| - 8..] == "_address";
      }
    }
  }

  lemma {:induction false} DirectGives(items: seq<Value>, a: string)
    ensures a in Direct(items) <==> exists x :: x in items && Address(Str(x)) == Some(a)
  {
    hide Address;
    hide Str;
    if items != [] {
      assert items == [items[0]] + items[1..];
      DirectGives(items[1..], a);
    }
  }

  /** Inside a list: in one of its elements. */
  lemma HoldsInItems(items: seq<Value>, field: Field)
    ensures Holds(Items(items), field) <==> exists i :: 0 <= i < |items| && Holds(items[i], field)
  {
    if path: seq<nat> :| HoldsAt(Items(items), path, field) {
      assert HoldsAt(items[path[0]], path[1..], field);
    }
    if i :| 0 <= i < |items| && Holds(items[i], field) {
      var path: seq<nat> :| HoldsAt(items[i], path, field);
      var first: nat := i;
      assert ([first] + path)[1..] == path;
      assert HoldsAt(Items(items), [first] + path, field);
    }
  }

  /** Inside a mapping: a field of it, or in one of them. */
  lemma HoldsInFields(fields: seq<Field>, field: Field)
    ensures Holds(Nested(fields), field) <==>
      field in fields || exists i :: 0 <= i < |fields| && Holds(fields[i].value, field)
  {
    if path: seq<nat> :| HoldsAt(Nested(fields), path, field) {
      if path != [] { assert HoldsAt(fields[path[0]].value, path[1..], field); }
    }
    if field in fields {
      var none: seq<nat> := [];
      assert HoldsAt(Nested(fields), none, field);
    }
    if i :| 0 <= i < |fields| && Holds(fields[i].value, field) {
      var path: seq<nat> :| HoldsAt(fields[i].value, path, field);
      var first: nat := i;
      assert ([first] + path)[1..] == path;
      assert HoldsAt(Nested(fields), [first] + path, field);
    }
  }

  lemma HoldsInLeaf(v: Value, field: Field)
    requires !v.Items? && !v.Nested?
    ensures !Holds(v, field)
  {
    forall path: seq<nat> ensures !HoldsAt(v, path, field) { }
  }

  ghost predicate HoldsGiving(v: Value, a: string) { exists field :: Holds(v, field) && Gives(field, a) }

  lemma {:induction false} FieldGives(field: Field, a: string)
    ensures a in FieldAddresses(field.key, field.value) <==> Gives(field, a) || HoldsGiving(field.value, a)
    decreases field.value, 1
  {
    hide Address;
    KeyNames(field.key);
    hide NamesAddress;
    hide Holds;
    if field.value.Items? { DirectGives(field.value.items, a); }
    NestedGives(field.value, a);
  }

  lemma {:induction false} NestedGives(v: Value, a: string)
    ensures a in NestedAddresses(v) <==> HoldsGiving(v, a)
    decreases v, 0
  {
    hide Gives;
    hide Holds;
    hide FieldAddresses;
    match v
    case Items(items) =>
      ItemsGive(items, a);
      forall field { HoldsInItems(items, field); }
    case Nested(fields) =>
      FieldsGive(fields, a);
      forall field { HoldsInFields(fields, field); }
    case _ => forall field { HoldsInLeaf(v, field); }
  }

  lemma {:induction false} ItemsGive(items: seq<Value>, a: string)
    ensures a in ItemsAddresses(items) <==> exists i :: 0 <= i < |items| && HoldsGiving(items[i], a)
    decreases items
  {
    hide HoldsGiving;
    if items != [] {
      NestedGives(items[0], a);
      ItemsGive(items[1..], a);
      if i :| 0 <= i < |items| && HoldsGiving(items[i], a) {
        assert i > 0 ==> items[1..][i - 1] == items[i];
      }
    }
  }

  lemma {:induction false} FieldsGive(fields: seq<Field>, a: string)
    ensures a in FieldsAddresses(fields) <==>
      exists i :: 0 <= i < |fields| && (Gives(fields[i], a) || HoldsGiving(fields[i].value, a))
    decreases fields
  {
    hide HoldsGiving;
    hide Gives;
    hide FieldAddresses;
    if fields != [] {
      FieldGives(fields[0], a);
      FieldsGive(fields[1..], a);
      if i :| 0 <= i < |fields| && (Gives(fields[i], a) || HoldsGiving(fields[i].value, a)) {
        assert i > 0 ==> fields[1..][i - 1] == fields[i];
      }
    }
  }

  /**
    A row mentions exactly the addresses that some field of it, or of any mapping at any depth in it, gives under the
    key `address` or a key ending in `_address`: as its value, or as any element of its list.
   */
  lemma RowAddressesExactly(row: Row, a: string)
    ensures a in RowAddresses(row) <==> exists field :: FieldOf(row, field) && Gives(field, a)
  {
    hide Gives;
    hide Holds;
    hide FieldAddresses;
    forall k | k in row
      ensures a in FieldAddresses(k, row[k]) <==> Gives(Field(k, row[k]), a) || HoldsGiving(row[k], a)
    {
      FieldGives(Field(k, row[k]), a);
    }
    if k :| k in row && Gives(Field(k, row[k]), a) { assert FieldOf(row, Field(k, row[k])); }
  }
}
