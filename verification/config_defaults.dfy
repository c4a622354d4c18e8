/** The default filler of tools/config_validator.py: it walks a JSON schema and a
    configuration together, sets every missing key whose property carries a
    default, and descends where both sides are objects.

    JSON (and TOML) values are immutable here: where the source stores the
    schema's own default object in the result, the model stores an equal value. */
module ConfigDefaults {
  import opened Options
  import opened Sequences

  datatype Json =
    | Null
    | Bool(b: bool)
    | Num(n: real)
    | Str(s: string)
    | Arr(elements: seq<Json>)
    | Obj(fields: map<string, Json>)

  /** Raised stands for a Python exception leaving the call. */
  datatype Outcome<T> = Raised | Returned(value: T)

  const DEFAULT := "default"
  const PROPERTIES := "properties"

  /** `"default" in prop`, then prop["default"]: a list or a string may contain
      the word, but cannot be indexed by it; null, booleans and numbers cannot be asked. */
  function DefaultOf(prop: Json): Outcome<Option<Json>> {
    match prop
    case Obj(fields) => Returned(Get(fields, DEFAULT))
    case Str(s) => if Contains(s, DEFAULT) then Raised else Returned(None)
    case Arr(elements) => if Str(DEFAULT) in elements then Raised else Returned(None)
    case _ => Raised
  }

  function Get(fields: map<string, Json>, key: string): Option<Json> {
    if key in fields then Some(fields[key]) else None
  }

  /** schema.get("properties", {}).items() */
  function Properties(schema: Json): (props: Outcome<map<string, Json>>)
    requires schema.Obj?
    ensures props.Returned? ==> forall key <- props.value :: props.value[key] < schema
  {
    if PROPERTIES !in schema.fields then Returned(map[])
    else if schema.fields[PROPERTIES].Obj? then Returned(schema.fields[PROPERTIES].fields)
    else Raised
  }

  predicate Nested(prop: Json) {
    prop.Obj? && PROPERTIES in prop.fields
  }

  // ---------- the filled configuration ----------

  /** What one property makes of the value the configuration has under its key. */
  function Entry(mine: Option<Json>, prop: Json): Outcome<Option<Json>>
    decreases prop, 3
  {
    if DefaultOf(prop).Raised? then Raised
    else
      var start := if mine.None? then DefaultOf(prop).value else mine;
      if start.Some? && start.value.Obj? && Nested(prop) then
        var inner := Apply(start.value, prop);
        if inner.Raised? then Raised else Returned(Some(inner.value))
      else Returned(start)
  }

  function EntryAt(value: Json, schema: Json, key: string): Outcome<Option<Json>>
    requires value.Obj? && schema.Obj? && Properties(schema).Returned?
    decreases schema, 1
  {
    var props := Properties(schema).value;
    if key in props then Entry(Get(value.fields, key), props[key]) else Returned(Get(value.fields, key))
  }

  function Apply(value: Json, schema: Json): Outcome<Json>
    decreases schema, 2
  {
    if !value.Obj? || !schema.Obj? then Returned(value)
    else if Properties(schema).Raised? then Raised
    else
      var keys := value.fields.Keys + Properties(schema).value.Keys;
      if exists key <- keys :: EntryAt(value, schema, key).Raised? then Raised
      else
        Returned(Obj(map key | key in keys && EntryAt(value, schema, key).value.Some?
                     :: EntryAt(value, schema, key).value.value))
  }

  lemma AfterApply(value: Json, schema: Json, key: string)
    requires value.Obj? && schema.Obj? && Apply(value, schema).Returned?
    ensures Properties(schema).Returned? && EntryAt(value, schema, key).Returned?
    ensures Apply(value, schema).value.Obj?
    ensures Get(Apply(value, schema).value.fields, key) == EntryAt(value, schema, key).value
  {
  }

  method ApplyDefaults(value: Json, schema: Json) returns (result: Outcome<Json>)
    ensures result == Apply(value, schema)
    decreases schema
  {
    if !value.Obj? || !schema.Obj? {
      return Returned(value);
    }
    if PROPERTIES in schema.fields && !schema.fields[PROPERTIES].Obj? {
      return Raised;
    }
    var properties := if PROPERTIES in schema.fields then schema.fields[PROPERTIES].fields else map[];
    assert Properties(schema) == Returned(properties);
    var fields := value.fields;
    var pending := properties.Keys;
    while pending != {}
      invariant pending <= properties.Keys
      invariant forall key :: key in pending ==> Get(fields, key) == Get(value.fields, key)
      invariant forall key :: key !in pending ==>
        EntryAt(value, schema, key) == Returned(Get(fields, key))
      decreases |pending|
    {
      var key :| key in pending;
      var prop := properties[key];
      var start := DefaultOf(prop);
      if start.Raised? {
        assert EntryAt(value, schema, key).Raised?;
        return Raised;
      }
      if start.value.Some? && key !in fields {
        fields := fields[key := start.value.value];
      }
      if key in fields && fields[key].Obj? && Nested(prop) {
        var inner := ApplyDefaults(fields[key], prop);
        if inner.Raised? {
          assert EntryAt(value, schema, key).Raised?;
          return Raised;
        }
        fields := fields[key := inner.value];
      }
      pending := pending - {key};
    }
    result := Returned(Obj(fields));
    forall key ensures EntryAt(value, schema, key) == Returned(Get(fields, key)) {
    }
    AllReturned(value, schema, fields);
  }

  lemma AllReturned(value: Json, schema: Json, fields: map<string, Json>)
    requires value.Obj? && schema.Obj? && Properties(schema).Returned?
    requires forall key :: EntryAt(value, schema, key) == Returned(Get(fields, key))
    ensures Apply(value, schema) == Returned(Obj(fields))
  {
    var keys := value.fields.Keys + Properties(schema).value.Keys;
    forall key | key in fields ensures key in keys {
      assert EntryAt(value, schema, key) == Returned(Get(fields, key));
    }
    assert forall key <- keys :: EntryAt(value, schema, key).Returned?;
    var filled := Apply(value, schema).value.fields;
    forall key ensures Get(filled, key) == Get(fields, key) {
      AfterApply(value, schema, key);
    }
    assert forall key :: key in filled <==> Get(filled, key).Some?;
    assert forall key :: key in fields <==> Get(fields, key).Some?;
    assert filled == fields;
  }

  // ---------- idempotence ----------

  lemma {:induction false} ApplyIsIdempotent(value: Json, schema: Json)
    requires Apply(value, schema).Returned?
    ensures Apply(Apply(value, schema).value, schema) == Apply(value, schema)
    decreases schema, 0
  {
    if !value.Obj? || !schema.Obj? {
    } else {
      var filled := Apply(value, schema).value;
      AfterApply(value, schema, "");
      forall key ensures EntryAt(filled, schema, key) == Returned(Get(filled.fields, key)) {
        AfterApply(value, schema, key);
        if key in Properties(schema).value {
          EntryIsIdempotent(Get(value.fields, key), Properties(schema).value[key]);
        }
      }
      AllReturned(filled, schema, filled.fields);
    }
  }

  lemma {:induction false} EntryIsIdempotent(mine: Option<Json>, prop: Json)
    requires Entry(mine, prop).Returned?
    ensures Entry(Entry(mine, prop).value, prop) == Entry(mine, prop)
    decreases prop, 1
  {
    var start := if mine.None? then DefaultOf(prop).value else mine;
    if start.Some? && start.value.Obj? && Nested(prop) {
      AfterApply(start.value, prop, "");
      ApplyIsIdempotent(start.value, prop);
    }
  }

  // ---------- paths ----------

  function Lookup(value: Json, path: seq<string>): Option<Json> {
    if path == [] then Some(value)
    else if value.Obj? && path[0] in value.fields then Lookup(value.fields[path[0]], path[1..])
    else None
  }

  /** The property the schema describes at a path, descending through "properties". */
  function PropertyAt(schema: Json, path: seq<string>): Option<Json> {
    if path == [] then Some(schema)
    else if schema.Obj? && Properties(schema).Returned? && path[0] in Properties(schema).value then
      PropertyAt(Properties(schema).value[path[0]], path[1..])
    else None
  }

  predicate Keeps(before: Option<Json>, after: Option<Json>) {
    before.Some? ==> after.Some? && if before.value.Obj? then after.value.Obj? else after == before
  }

  /** Everything the user set survives: objects stay objects, anything else is unchanged. */
  lemma {:induction false} KeepsUserValues(value: Json, schema: Json, path: seq<string>)
    requires Apply(value, schema).Returned?
    ensures Keeps(Lookup(value, path), Lookup(Apply(value, schema).value, path))
  {
    if path == [] || !value.Obj? || !schema.Obj? || path[0] !in value.fields {
    } else {
      var key := path[0];
      AfterApply(value, schema, key);
      var mine := value.fields[key];
      if key in Properties(schema).value {
        var prop := Properties(schema).value[key];
        if mine.Obj? && Nested(prop) {
          KeepsUserValues(mine, prop, path[1..]);
        }
      }
    }
  }

  /** A key that appears was missing, and the schema carries a default there:
      `path` is that key, or lies inside the (filled) default. */
  predicate FilledAt(value: Json, schema: Json, filled: Json, path: seq<string>, n: nat) {
    && 0 < n <= |path|
    && Lookup(value, path[..n - 1]).Some?
    && Lookup(value, path[..n]).None?
    && PropertyAt(schema, path[..n]).Some?
    && var prop := PropertyAt(schema, path[..n]).value;
    && prop.Obj? && DEFAULT in prop.fields
    && Entry(None, prop) == Returned(Lookup(filled, path[..n]))
  }

  /** What is filled in is the schema's default itself, or, if that is an object and the property describes
      properties of its own, the default filled by those. */
  lemma FilledValue(value: Json, schema: Json, filled: Json, path: seq<string>, n: nat)
    requires FilledAt(value, schema, filled, path, n)
    ensures PropertyAt(schema, path[..n]).Some? && PropertyAt(schema, path[..n]).value.Obj?
    ensures var prop := PropertyAt(schema, path[..n]).value.fields;
      && "default" in prop
      && (if prop["default"].Obj? && "properties" in prop
          then Apply(prop["default"], Obj(prop)) == Returned(Lookup(filled, path[..n]).value)
          else Lookup(filled, path[..n]) == Some(prop["default"]))
  {
    hide Apply;
  }

  /** Looking for a default raises exactly in null, booleans, numbers, and in strings and lists that hold the
      word; in an object it finds the value under the word. */
  lemma DefaultMeans(prop: Json)
    ensures DefaultOf(prop).Raised? <==>
      || prop.Null? || prop.Bool? || prop.Num?
      || (prop.Str? && Contains(prop.s, "default"))
      || (prop.Arr? && Str("default") in prop.elements)
    ensures prop.Obj? && "default" in prop.fields ==> DefaultOf(prop) == Returned(Some(prop.fields["default"]))
    ensures prop.Obj? && "default" !in prop.fields ==> DefaultOf(prop) == Returned(None)
  {}

  lemma {:induction false} AddsOnlyDefaults(value: Json, schema: Json, path: seq<string>) returns (n: nat)
    requires Apply(value, schema).Returned?
    requires Lookup(value, path).None? && Lookup(Apply(value, schema).value, path).Some?
    ensures FilledAt(value, schema, Apply(value, schema).value, path, n)
  {
    var key := path[0];
    var filled := Apply(value, schema).value;
    AfterApply(value, schema, key);
    var prop := Properties(schema).value[key];
    if key in value.fields {
      var m := AddsOnlyDefaults(value.fields[key], prop, path[1..]);
      n := m + 1;
      assert path[..n - 1][1..] == path[1..][..m - 1] && path[..n][1..] == path[1..][..m];
    } else {
      n := 1;
      assert path[..0] == [] && path[..1] == [key];
      assert path[..1][1..] == [];
    }
  }

  /** No default is missed: wherever the result has an object, it has every key
      the schema carries a default for there. */
  lemma {:induction false} FillsEveryDefault(value: Json, schema: Json, path: seq<string>, key: string)
    requires Apply(value, schema).Returned?
    requires Lookup(Apply(value, schema).value, path).Some?
    requires Lookup(Apply(value, schema).value, path).value.Obj?
    requires PropertyAt(schema, path + [key]).Some?
    requires PropertyAt(schema, path + [key]).value.Obj?
    requires DEFAULT in PropertyAt(schema, path + [key]).value.fields
    ensures Lookup(Apply(value, schema).value, path + [key]).Some?
    decreases |path|
  {
    var here := (path + [key])[0];
    AfterApply(value, schema, here);
    var prop := Properties(schema).value[here];
    if path == [] {
      assert (path + [key])[1..] == [];
    } else {
      assert (path + [key])[1..] == path[1..] + [key];
      var mine := Get(value.fields, here);
      var start := if mine.None? then DefaultOf(prop).value else mine;
      FillsEveryDefault(start.value, prop, path[1..], key);
    }
  }

  // ---------- when it raises ----------

  /** Every property is something "default" can be looked up in, at every depth. */
  predicate Walkable(schema: Json) {
    schema.Obj? ==>
      && Properties(schema).Returned?
      && forall key <- Properties(schema).value ::
        && DefaultOf(Properties(schema).value[key]).Returned?
        && Walkable(Properties(schema).value[key])
  }

  lemma {:induction false} WalkableNeverRaises(value: Json, schema: Json)
    requires Walkable(schema)
    ensures Apply(value, schema).Returned?
    decreases schema
  {
    if !value.Obj? || !schema.Obj? {
    } else {
      forall key ensures EntryAt(value, schema, key).Returned? {
        if key in Properties(schema).value {
          var prop := Properties(schema).value[key];
          var mine := Get(value.fields, key);
          var start := if mine.None? then DefaultOf(prop).value else mine;
          if start.Some? {
            WalkableNeverRaises(start.value, prop);
          }
        }
      }
    }
  }

  lemma {:induction false} UnwalkableRaises(schema: Json) returns (value: Json)
    requires !Walkable(schema)
    ensures Apply(value, schema).Raised?
    decreases schema
  {
    value := Obj(map[]);
    if Properties(schema).Returned? {
      var props := Properties(schema).value;
      var key :| key in props && !(DefaultOf(props[key]).Returned? && Walkable(props[key]));
      if DefaultOf(props[key]).Returned? {
        var inner := UnwalkableRaises(props[key]);
        value := Obj(map[key := inner]);
      }
      assert EntryAt(value, schema, key).Raised?;
    }
  }

  /** A schema serves every configuration exactly when it is walkable. */
  lemma NeverRaisesIffWalkable(schema: Json)
    ensures (forall value :: Apply(value, schema).Returned?) <==> Walkable(schema)
  {
    if Walkable(schema) {
      forall value ensures Apply(value, schema).Returned? {
        WalkableNeverRaises(value, schema);
      }
    } else {
      var value := UnwalkableRaises(schema);
      assert !Apply(value, schema).Returned?;
    }
  }

  /** A property described by null makes the filler raise for every object, the empty one included. */
  lemma NullPropertyRaises(fields: map<string, Json>)
    ensures var schema := Obj(map[PROPERTIES := Obj(map["interval" := Null])]);
      !Walkable(schema) && Apply(Obj(fields), schema).Raised?
  {
    var schema := Obj(map[PROPERTIES := Obj(map["interval" := Null])]);
    assert Properties(schema) == Returned(map["interval" := Null]);
    assert "interval" in Properties(schema).value;
    assert EntryAt(Obj(fields), schema, "interval").Raised?;
  }
}
