/**
 * Module settings against a subset of JSON Schema 2020-12 (shared/src/settings-schema.ts): one pass
 * that both validates a value and cleans it.
 */
module SettingsSchema {
  import opened Wrappers

  /** JSON values; the fields of an object keep their order and have distinct keys. */
  datatype Json =
    | Null
    | Bool(b: bool)
    | Num(n: real)
    | Str(s: string)
    | Arr(items: seq<Json>)
    | Obj(fields: seq<Field>)

  datatype Field = Field(key: string, value: Json)

  function Lookup(fields: seq<Field>, key: string): Option<Json> {
    if fields == [] then None
    else if fields[0].key == key then Some(fields[0].value)
    else Lookup(fields[1..], key)
  }

  /** `json[key]` of an object; anything else has no properties. */
  function Get(json: Json, key: string): Option<Json> {
    if json.Obj? then Lookup(json.fields, key) else None
  }

  predicate HasKey(fields: seq<Field>, key: string) {
    Lookup(fields, key).Some?
  }

  // ---------------------------------------------------------------- the keywords

  function JsonEquals(a: Json, b: Json): bool
    decreases a, 1
  {
    match (a, b)
    case (Arr(xs), Arr(ys)) => |xs| == |ys| && ItemsEqual(xs, ys)
    case (Obj(fs), Obj(gs)) => |fs| == |gs| && FieldsEqual(fs, gs)
    case (_, _) => a == b
  }

  function ItemsEqual(xs: seq<Json>, ys: seq<Json>): bool
    requires |xs| == |ys|
    decreases xs, 0
  {
    xs == [] || (JsonEquals(xs[0], ys[0]) && ItemsEqual(xs[1..], ys[1..]))
  }

  /** Every field of `fs` is in `gs` with an equal value, in whatever order. */
  function FieldsEqual(fs: seq<Field>, gs: seq<Field>): bool
    decreases fs, 0
  {
    fs == [] ||
    (var there := Lookup(gs, fs[0].key);
     there.Some? && JsonEquals(fs[0].value, there.value) && FieldsEqual(fs[1..], gs))
  }

  /** Keys are distinct, at every level. */
  predicate WellFormed(v: Json)
    decreases v, 1
  {
    match v
    case Arr(items) => forall i :: 0 <= i < |items| ==> WellFormed(items[i])
    case Obj(fields) => FieldsWellFormed(fields)
    case _ => true
  }

  predicate FieldsWellFormed(fields: seq<Field>)
    decreases fields, 0
  {
    && (forall i :: 0 <= i < |fields| ==> WellFormed(fields[i].value))
    && (forall i, j :: 0 <= i < j < |fields| ==> fields[i].key != fields[j].key)
  }

  lemma {:induction false} LookupFound(fields: seq<Field>, key: string)
    ensures match Lookup(fields, key)
            case Some(v) => exists i :: 0 <= i < |fields| && fields[i] == Field(key, v)
            case None => forall i :: 0 <= i < |fields| ==> fields[i].key != key
  {
    if fields != [] && fields[0].key != key {
      LookupFound(fields[1..], key);
      if Lookup(fields, key).Some? {
        var i :| 0 <= i < |fields| - 1 && fields[1..][i] == Field(key, Lookup(fields, key).value);
        assert fields[i + 1] == Field(key, Lookup(fields, key).value);
      } else {
        assert forall i :: 1 <= i < |fields| ==> fields[i] == fields[1..][i - 1];
      }
    } else if fields != [] {
      assert fields[0] == Field(key, fields[0].value);
    }
  }

  lemma {:induction false} ItemsEqualPointwise(xs: seq<Json>, ys: seq<Json>)
    requires |xs| == |ys|
    ensures ItemsEqual(xs, ys) <==> forall i :: 0 <= i < |xs| ==> JsonEquals(xs[i], ys[i])
  {
    if xs != [] {
      ItemsEqualPointwise(xs[1..], ys[1..]);
      assert forall i :: 1 <= i < |xs| ==> xs[i] == xs[1..][i - 1] && ys[i] == ys[1..][i - 1];
    }
  }

  lemma {:induction false} FieldsEqualPointwise(fs: seq<Field>, gs: seq<Field>)
    ensures FieldsEqual(fs, gs) <==>
            forall i :: 0 <= i < |fs| ==> HasKey(gs, fs[i].key) && JsonEquals(fs[i].value, Lookup(gs, fs[i].key).value)
  {
    if fs != [] {
      FieldsEqualPointwise(fs[1..], gs);
      assert forall i :: 1 <= i < |fs| ==> fs[i] == fs[1..][i - 1];
    }
  }

  /** Two objects of the same size with the keys of one among those of the other have the same keys. */
  lemma SameKeys(fs: seq<Field>, gs: seq<Field>)
    requires |fs| == |gs| && FieldsWellFormed(fs) && FieldsWellFormed(gs)
    requires forall i :: 0 <= i < |fs| ==> HasKey(gs, fs[i].key)
    ensures forall j :: 0 <= j < |gs| ==> HasKey(fs, gs[j].key)
  {
    var ks, ls := Keys(fs), Keys(gs);
    KeysCount(fs);
    KeysCount(gs);
    forall k | k in ks ensures k in ls {
      var i :| 0 <= i < |fs| && fs[i].key == k;
      LookupFound(gs, k);
    }
    assert |ls - ks| == |ls| - |ks|;
    assert ls == ks + (ls - ks);
    forall j | 0 <= j < |gs| ensures HasKey(fs, gs[j].key) {
      assert gs[j].key in ks;
      LookupFound(fs, gs[j].key);
    }
  }

  ghost function Keys(fs: seq<Field>): set<string> {
    set i | 0 <= i < |fs| :: fs[i].key
  }

  lemma {:induction false} KeysCount(fs: seq<Field>)
    requires FieldsWellFormed(fs)
    ensures |Keys(fs)| == |fs|
  {
    if fs != [] {
      var n := |fs| - 1;
      KeysCount(fs[..n]);
      assert Keys(fs) == Keys(fs[..n]) + {fs[n].key};
    }
  }

  /** On well-formed values deep equality, which ignores the order of keys, is an equivalence. */
  lemma {:induction false} JsonEqualsReflexive(v: Json)
    requires WellFormed(v)
    ensures JsonEquals(v, v)
  {
    match v
    case Arr(items) =>
      forall i | 0 <= i < |items| ensures JsonEquals(items[i], items[i]) {
        JsonEqualsReflexive(items[i]);
      }
      ItemsEqualPointwise(items, items);
    case Obj(fields) =>
      forall i | 0 <= i < |fields|
        ensures HasKey(fields, fields[i].key) && JsonEquals(fields[i].value, Lookup(fields, fields[i].key).value)
      {
        LookupFound(fields, fields[i].key);
        JsonEqualsReflexive(fields[i].value);
      }
      FieldsEqualPointwise(fields, fields);
    case _ =>
  }

  lemma {:induction false} JsonEqualsSymmetric(a: Json, b: Json)
    requires WellFormed(a) && WellFormed(b) && JsonEquals(a, b)
    ensures JsonEquals(b, a)
    decreases a
  {
    match (a, b)
    case (Arr(xs), Arr(ys)) =>
      ItemsEqualPointwise(xs, ys);
      forall i | 0 <= i < |xs| ensures JsonEquals(ys[i], xs[i]) {
        JsonEqualsSymmetric(xs[i], ys[i]);
      }
      ItemsEqualPointwise(ys, xs);
    case (Obj(fs), Obj(gs)) =>
      FieldsEqualPointwise(fs, gs);
      SameKeys(fs, gs);
      forall j | 0 <= j < |gs|
        ensures JsonEquals(gs[j].value, Lookup(fs, gs[j].key).value)
      {
        LookupFound(fs, gs[j].key);
        var i :| 0 <= i < |fs| && fs[i] == Field(gs[j].key, Lookup(fs, gs[j].key).value);
        LookupFound(gs, fs[i].key);
        JsonEqualsSymmetric(fs[i].value, gs[j].value);
      }
      FieldsEqualPointwise(gs, fs);
    case (_, _) =>
  }

  lemma {:induction false} JsonEqualsTransitive(a: Json, b: Json, c: Json)
    requires JsonEquals(a, b) && JsonEquals(b, c)
    ensures JsonEquals(a, c)
    decreases a
  {
    if a.Arr? {
      ItemsEqualPointwise(a.items, b.items);
      ItemsEqualPointwise(b.items, c.items);
      forall i | 0 <= i < |a.items| ensures JsonEquals(a.items[i], c.items[i]) {
        JsonEqualsTransitive(a.items[i], b.items[i], c.items[i]);
      }
      ItemsEqualPointwise(a.items, c.items);
    } else if a.Obj? {
      FieldsEqualPointwise(a.fields, b.fields);
      FieldsEqualPointwise(b.fields, c.fields);
      forall i | 0 <= i < |a.fields|
        ensures HasKey(c.fields, a.fields[i].key)
                && JsonEquals(a.fields[i].value, Lookup(c.fields, a.fields[i].key).value)
      {
        var key := a.fields[i].key;
        LookupFound(b.fields, key);
        var j :| 0 <= j < |b.fields| && b.fields[j] == Field(key, Lookup(b.fields, key).value);
        JsonEqualsTransitive(a.fields[i].value, b.fields[j].value, Lookup(c.fields, key).value);
      }
      FieldsEqualPointwise(a.fields, c.fields);
    }
  }

  predicate Scalar(v: Json) {
    !v.Arr? && !v.Obj?
  }

  /** Scalars are equal when they are the same, arrays item by item, objects key by key. */
  lemma JsonEqualsMeans(a: Json, b: Json)
    requires WellFormed(a) && WellFormed(b)
    ensures Scalar(a) || Scalar(b) ==> (JsonEquals(a, b) <==> a == b)
    ensures a.Arr? != b.Arr? ==> !JsonEquals(a, b)
    ensures a.Arr? && b.Arr? ==>
              (JsonEquals(a, b) <==>
               |a.items| == |b.items| && forall i :: 0 <= i < |a.items| ==> JsonEquals(a.items[i], b.items[i]))
    ensures a.Obj? && b.Obj? ==>
              (JsonEquals(a, b) <==>
               |a.fields| == |b.fields| && forall i :: 0 <= i < |a.fields| ==> HasEqual(b.fields, a.fields[i]))
  {
    if a.Arr? && b.Arr? && |a.items| == |b.items| {
      ItemsEqualPointwise(a.items, b.items);
    } else if a.Obj? && b.Obj? {
      FieldsEqualPointwise(a.fields, b.fields);
      forall i | 0 <= i < |a.fields|
        ensures HasEqual(b.fields, a.fields[i]) <==>
                HasKey(b.fields, a.fields[i].key)
                && JsonEquals(a.fields[i].value, Lookup(b.fields, a.fields[i].key).value)
      {
        LookupFound(b.fields, a.fields[i].key);
      }
    }
  }

  predicate HasEqual(fields: seq<Field>, f: Field) {
    exists j :: 0 <= j < |fields| && fields[j].key == f.key && JsonEquals(f.value, fields[j].value)
  }

  predicate TypeMatches(value: Json, typ: string) {
    match typ
    case "object" => value.Obj?
    case "array" => value.Arr?
    case "string" => value.Str?
    case "boolean" => value.Bool?
    case "number" => value.Num?
    case "integer" => value.Num? && value.n == value.n.Floor as real
    case _ => false
  }

  predicate Truthy(v: Option<Json>) {
    v.Some? && v.value != Null && v.value != Bool(false) && v.value != Num(0.0) && v.value != Str("")
  }

  function Limit(schema: Json, key: string): Option<real> {
    match Get(schema, key)
    case Some(Num(n)) => Some(n)
    case _ => None
  }

  /** `const`, `enum`, `type` and the bounds, in this order; the first that is violated is the one reported. */
  datatype Keyword = Const | Enum | Type | Minimum | Maximum | Unknown | Required | NotAnObject

  function Violated(value: Json, schema: Json): Option<Keyword> {
    var enum, typ := Get(schema, "enum"), Get(schema, "type");
    if Get(schema, "const").Some? && !JsonEquals(value, Get(schema, "const").value) then Some(Const)
    else if enum.Some? && enum.value.Arr? && !(exists e :: e in enum.value.items && JsonEquals(value, e))
        then Some(Enum)
    else if Truthy(typ) && !(typ.value.Str? && TypeMatches(value, typ.value.s)) then Some(Type)
    else
      match value
      case Str(s) => OutOfBounds(|s| as real, schema, "minLength", "maxLength")
      case Num(n) => OutOfBounds(n, schema, "minimum", "maximum")
      case Arr(items) => OutOfBounds(|items| as real, schema, "minItems", "maxItems")
      case _ => None
  }

  function OutOfBounds(n: real, schema: Json, min: string, max: string): Option<Keyword> {
    if Limit(schema, min).Some? && n < Limit(schema, min).value then Some(Minimum)
    else if Limit(schema, max).Some? && n > Limit(schema, max).value then Some(Maximum)
    else None
  }

  function ItemSchema(schema: Json): Option<Json> {
    match Get(schema, "items")
    case Some(Obj(fs)) => Some(Obj(fs))
    case _ => None
  }

  function PropertySchema(schema: Json, key: string): Option<Json> {
    match Get(schema, "properties")
    case Some(properties) => Get(properties, key)
    case None => None
  }

  predicate AdditionalAllowed(schema: Json) {
    Get(schema, "additionalProperties") != Some(Bool(false))
  }

  predicate IsObjectNode(schema: Json) {
    Get(schema, "type") == Some(Str("object"))
  }

  function RequiredKeys(schema: Json): seq<string> {
    match Get(schema, "required")
    case Some(Arr(items)) => Strings(items)
    case _ => []
  }

  function Strings(items: seq<Json>): seq<string> {
    if items == [] then []
    else (if items[0].Str? then [items[0].s] else []) + Strings(items[1..])
  }

  // ---------------------------------------------------------------- what validating and cleaning computes

  /** The path is the list of keys and indices from the root. */
  datatype Step = Key(key: string) | Index(i: nat)

  type Path = seq<Step>

  datatype Error = Error(path: Path, keyword: Keyword)

  datatype Verdict = Verdict(ok: bool, value: Json, errors: seq<Error>)

  datatype Cleaned = Cleaned(ok: bool, fields: seq<Field>, errors: seq<Error>)

  function Node(value: Json, schema: Json, path: Path): Verdict
    decreases value, 1
  {
    var violated := Violated(value, schema);
    if violated.Some? then Verdict(false, value, [Error(path, violated.value)])
    else
      match value
      case Arr(items) =>
        var errors := if ItemSchema(schema).Some? then ItemErrors(items, ItemSchema(schema).value, path, 0) else [];
        Verdict(errors == [], value, errors)
      case Obj(fields) =>
        if IsObjectNode(schema) then
          var c := Object(fields, schema, path);
          Verdict(c.ok, Obj(c.fields), c.errors)
        else Verdict(true, value, [])
      case _ => Verdict(true, value, [])
  }

  /** The errors of the first item that fails; there are no partial arrays. */
  function ItemErrors(items: seq<Json>, schema: Json, path: Path, i: nat): seq<Error>
    decreases items, 0
  {
    if items == [] then []
    else
      var v := Node(items[0], schema, path + [Index(i)]);
      if v.ok then v.errors + ItemErrors(items[1..], schema, path, i + 1) else v.errors
  }

  function Object(fields: seq<Field>, schema: Json, path: Path): Cleaned
    decreases fields, 1
  {
    var c := Properties(fields, schema, path);
    var missing := Missing(RequiredKeys(schema), c.fields, path);
    Cleaned(c.ok && missing == [], c.fields, c.errors + missing)
  }

  function Properties(fields: seq<Field>, schema: Json, path: Path): Cleaned
    decreases fields, 0
  {
    if fields == [] then Cleaned(true, [], [])
    else
      var f := fields[0];
      var first := Property(f, schema, path);
      var rest := Properties(fields[1..], schema, path);
      Cleaned(first.ok && rest.ok, first.fields + rest.fields, first.errors + rest.errors)
  }

  /** One property: kept with its (cleaned) value, or dropped with an error. */
  function Property(f: Field, schema: Json, path: Path): Cleaned
    decreases f, 2
  {
    var p := PropertySchema(schema, f.key);
    if p.None? then
      if AdditionalAllowed(schema) then Cleaned(true, [f], [])
      else Cleaned(false, [], [Error(path + [Key(f.key)], Unknown)])
    else
      var v := Node(f.value, p.value, path + [Key(f.key)]);
      Cleaned(v.ok, if v.ok then [Field(f.key, v.value)] else [], v.errors)
  }

  function Missing(required: seq<string>, fields: seq<Field>, path: Path): seq<Error> {
    if required == [] then []
    else (if HasKey(fields, required[0]) then [] else [Error(path + [Key(required[0])], Required)])
         + Missing(required[1..], fields, path)
  }

  // ---------------------------------------------------------------- the code

  lemma Regroup<T>(a: seq<T>, b: seq<T>, c: seq<T>)
    ensures a + (b + c) == a + b + c
  {
  }

  /** The `errors` array all recursive calls append to. */
  class ErrorList {
    var errors: seq<Error>

    constructor ()
      ensures errors == []
    {
      errors := [];
    }

    method ValidateNode(value: Json, schema: Json, path: Path) returns (ok: bool, cleaned: Json)
      modifies this
      ensures var v := Node(value, schema, path);
              ok == v.ok && cleaned == v.value && errors == old(errors) + v.errors
      decreases value, 1
    {
      var violated := Violated(value, schema);
      if violated.Some? {
        errors := errors + [Error(path, violated.value)];
        return false, value;
      }
      if value.Arr? && ItemSchema(schema).Some? {
        var items, itemSchema := value.items, ItemSchema(schema).value;
        var i := 0;
        while i < |items|
          invariant 0 <= i <= |items|
          invariant old(errors) + ItemErrors(items, itemSchema, path, 0)
              == errors + ItemErrors(items[i..], itemSchema, path, i)
          invariant ItemErrors(items, itemSchema, path, 0) == [] <==> ItemErrors(items[i..], itemSchema, path, i) == []
        {
          NodeReports(items[i], itemSchema, path + [Index(i)]);
          assert items[i..][1..] == items[i + 1..];
          ghost var before, rest := errors, ItemErrors(items[i + 1..], itemSchema, path, i + 1);
          var itemOk, _ := ValidateNode(items[i], itemSchema, path + [Index(i)]);
          if !itemOk {
            return false, value;
          }
          assert errors + rest == before + (Node(items[i], itemSchema, path + [Index(i)]).errors + rest);
          i := i + 1;
        }
      }
      if value.Obj? && IsObjectNode(schema) {
        var out: seq<Field>;
        ok, out := ValidateObject(value.fields, schema, path);
        return ok, Obj(out);
      }
      return true, value;
    }

    method ValidateObject(fields: seq<Field>, schema: Json, path: Path) returns (ok: bool, out: seq<Field>)
      modifies this
      ensures var c := Object(fields, schema, path);
              ok == c.ok && out == c.fields && errors == old(errors) + c.errors
      decreases fields, 1
    {
      ok, out := ValidateProperties(fields, schema, path);
      ghost var all := Properties(fields, schema, path);
      var complete := ReportMissing(RequiredKeys(schema), out, path);
      ok := ok && complete;
      Regroup(old(errors), all.errors, Missing(RequiredKeys(schema), out, path));
    }

    method ValidateProperties(fields: seq<Field>, schema: Json, path: Path) returns (ok: bool, out: seq<Field>)
      modifies this
      ensures var c := Properties(fields, schema, path);
              ok == c.ok && out == c.fields && errors == old(errors) + c.errors
      decreases fields, 0
    {
      ok, out := true, [];
      ghost var all := Properties(fields, schema, path);
      var i := 0;
      while i < |fields|
        invariant 0 <= i <= |fields|
        invariant var rest := Properties(fields[i..], schema, path);
                  && all.ok == (ok && rest.ok)
                  && all.fields == out + rest.fields
                  && old(errors) + all.errors == errors + rest.errors
      {
        ghost var rest := Properties(fields[i + 1..], schema, path);
        assert fields[i..][1..] == fields[i + 1..];
        Regroup(out, Property(fields[i], schema, path).fields, rest.fields);
        Regroup(errors, Property(fields[i], schema, path).errors, rest.errors);
        var keptOk, kept := ValidateProperty(fields[i], schema, path);
        ok, out := ok && keptOk, out + kept;
        i := i + 1;
      }
      assert fields[|fields|..] == [];
    }

    method ValidateProperty(f: Field, schema: Json, path: Path) returns (ok: bool, kept: seq<Field>)
      modifies this
      ensures var c := Property(f, schema, path);
              ok == c.ok && kept == c.fields && errors == old(errors) + c.errors
      decreases f, 2
    {
      var p := PropertySchema(schema, f.key);
      if p.None? {
        if AdditionalAllowed(schema) {
          return true, [f];
        }
        errors := errors + [Error(path + [Key(f.key)], Unknown)];
        return false, [];
      }
      var valueOk, cleaned := ValidateNode(f.value, p.value, path + [Key(f.key)]);
      return valueOk, if valueOk then [Field(f.key, cleaned)] else [];
    }

    method ReportMissing(required: seq<string>, out: seq<Field>, path: Path) returns (complete: bool)
      modifies this
      ensures errors == old(errors) + Missing(required, out, path)
      ensures complete <==> Missing(required, out, path) == []
    {
      complete := true;
      var j := 0;
      while j < |required|
        invariant 0 <= j <= |required|
        invariant old(errors) + Missing(required, out, path) == errors + Missing(required[j..], out, path)
        invariant Missing(required, out, path) == [] <==> complete && Missing(required[j..], out, path) == []
      {
        assert required[j..][1..] == required[j + 1..];
        if !HasKey(out, required[j]) {
          errors := errors + [Error(path + [Key(required[j])], Required)];
          complete := false;
        }
        j := j + 1;
      }
    }
  }

  // ---------------------------------------------------------------- one verdict, independent of the pass

  predicate ConstHolds(value: Json, schema: Json) {
    match Get(schema, "const")
    case None => true
    case Some(c) => JsonEquals(value, c)
  }

  predicate EnumHolds(value: Json, schema: Json) {
    match Get(schema, "enum")
    case Some(Arr(items)) => exists e :: e in items && JsonEquals(value, e)
    case _ => true
  }

  /** A type nobody knows is held by no value; an empty one, or a falsy one of another kind, is none. */
  predicate TypeHolds(value: Json, schema: Json) {
    match Get(schema, "type")
    case None => true
    case Some(Str(name)) =>
      || name == ""
      || (name == "string" && value.Str?) || (name == "number" && value.Num?) || (name == "boolean" && value.Bool?)
      || (name == "array" && value.Arr?) || (name == "object" && value.Obj?)
      || (name == "integer" && value.Num? && value.n == value.n.Floor as real)
    case Some(other) => other == Null || other == Bool(false) || other == Num(0.0)
  }

  predicate AtLeast(n: real, schema: Json, keyword: string) {
    match Get(schema, keyword)
    case Some(Num(least)) => least <= n
    case _ => true
  }

  predicate AtMost(n: real, schema: Json, keyword: string) {
    match Get(schema, keyword)
    case Some(Num(most)) => n <= most
    case _ => true
  }

  /** The bounds of the value's own kind: length, number or size. */
  predicate LowHolds(value: Json, schema: Json) {
    && (value.Str? ==> AtLeast(|value.s| as real, schema, "minLength"))
    && (value.Num? ==> AtLeast(value.n, schema, "minimum"))
    && (value.Arr? ==> AtLeast(|value.items| as real, schema, "minItems"))
  }

  predicate HighHolds(value: Json, schema: Json) {
    && (value.Str? ==> AtMost(|value.s| as real, schema, "maxLength"))
    && (value.Num? ==> AtMost(value.n, schema, "maximum"))
    && (value.Arr? ==> AtMost(|value.items| as real, schema, "maxItems"))
  }

  /** What a schema accepts, said without errors, paths or cleaning. */
  predicate Accepts(value: Json, schema: Json)
    decreases value, 1
  {
    && ConstHolds(value, schema) && EnumHolds(value, schema) && TypeHolds(value, schema)
    && LowHolds(value, schema) && HighHolds(value, schema)
    && (value.Arr? ==> match Get(schema, "items")
                       case Some(Obj(fs)) => forall i :: 0 <= i < |value.items| ==> Accepts(value.items[i], Obj(fs))
                       case _ => true)
    && (value.Obj? && Get(schema, "type") == Some(Str("object")) ==> ObjectAccepted(value.fields, schema))
  }

  predicate ObjectAccepted(fields: seq<Field>, schema: Json)
    decreases fields, 0
  {
    && (forall i :: 0 <= i < |fields| ==> Kept(fields[i], schema))
    && match Get(schema, "required")
       case Some(Arr(keys)) => forall i :: 0 <= i < |keys| && keys[i].Str? ==> HasKey(fields, keys[i].s)
       case _ => true
  }

  /** A property survives the cleaning: a declared one that is accepted, or another one where that is allowed. */
  predicate Kept(f: Field, schema: Json)
    decreases f, 0
  {
    match Declared(schema, f.key)
    case Some(p) => Accepts(f.value, p)
    case None => Get(schema, "additionalProperties") != Some(Bool(false))
  }

  function Declared(schema: Json, key: string): Option<Json> {
    match Get(schema, "properties")
    case Some(Obj(properties)) => Lookup(properties, key)
    case _ => None
  }

  /** The first keyword that does not hold, in the order const, enum, type, bounds. */
  function FirstFailing(value: Json, schema: Json): Option<Keyword> {
    if !ConstHolds(value, schema) then Some(Const)
    else if !EnumHolds(value, schema) then Some(Enum)
    else if !TypeHolds(value, schema) then Some(Type)
    else if !LowHolds(value, schema) then Some(Minimum)
    else if !HighHolds(value, schema) then Some(Maximum)
    else None
  }

  lemma KeywordsInOrder(value: Json, schema: Json)
    ensures Violated(value, schema) == FirstFailing(value, schema)
  {
  }

  lemma {:induction false} StringsMean(items: seq<Json>, key: string)
    ensures key in Strings(items) <==> Str(key) in items
  {
    if items != [] {
      StringsMean(items[1..], key);
      assert Str(key) in items <==> Str(key) == items[0] || Str(key) in items[1..];
    }
  }

  lemma RequiredPresent(fields: seq<Field>, schema: Json)
    ensures (forall key :: key in RequiredKeys(schema) ==> HasKey(fields, key)) <==>
            match Get(schema, "required")
            case Some(Arr(keys)) => forall i :: 0 <= i < |keys| && keys[i].Str? ==> HasKey(fields, keys[i].s)
            case _ => true
  {
    match Get(schema, "required")
    case Some(Arr(keys)) =>
      forall key ensures key in Strings(keys) <==> exists i :: 0 <= i < |keys| && keys[i].Str? && keys[i].s == key {
        StringsMean(keys, key);
        if Str(key) in keys {
          var i :| 0 <= i < |keys| && keys[i] == Str(key);
          assert keys[i].s == key;
        }
      }
    case _ =>
  }

  function KeptFields(fields: seq<Field>, schema: Json): seq<Field> {
    if fields == [] then []
    else (if Kept(fields[0], schema) then [fields[0]] else []) + KeptFields(fields[1..], schema)
  }

  lemma MissingIffAbsent(required: seq<string>, fields: seq<Field>, path: Path)
    ensures Missing(required, fields, path) == [] <==> forall key :: key in required ==> HasKey(fields, key)
  {
    if required != [] {
      MissingIffAbsent(required[1..], fields, path);
      assert forall key :: key in required <==> key == required[0] || key in required[1..];
    }
  }

  /** A node passes exactly when nothing is reported, and then its value is left as it was. */
  lemma {:induction false} NodeReports(value: Json, schema: Json, path: Path)
    ensures var v := Node(value, schema, path);
            && (v.ok <==> v.errors == [])
            && (v.ok <==> Accepts(value, schema))
            && (v.ok ==> v.value == value)
    decreases value, 1
  {
    KeywordsInOrder(value, schema);
    if Violated(value, schema).None? {
      if value.Arr? && ItemSchema(schema).Some? {
        ItemsReport(value.items, ItemSchema(schema).value, path, 0);
      } else if value.Obj? && IsObjectNode(schema) {
        ObjectReports(value.fields, schema, path);
      }
    }
  }

  lemma {:induction false} ItemsReport(items: seq<Json>, schema: Json, path: Path, i: nat)
    ensures ItemErrors(items, schema, path, i) == [] <==> forall j :: 0 <= j < |items| ==> Accepts(items[j], schema)
    decreases items, 0
  {
    if items != [] {
      NodeReports(items[0], schema, path + [Index(i)]);
      ItemsReport(items[1..], schema, path, i + 1);
      assert forall j :: 1 <= j < |items| ==> items[j] == items[1..][j - 1];
    }
  }

  /** The cleaned object holds exactly the properties that survive, verbatim and in order. */
  lemma {:induction false} PropertyReports(f: Field, schema: Json, path: Path)
    ensures var c := Property(f, schema, path);
            (c.ok <==> c.errors == []) && (c.ok <==> Kept(f, schema)) && c.fields == if Kept(f, schema) then [f] else []
    decreases f, 2
  {
    if PropertySchema(schema, f.key).Some? {
      NodeReports(f.value, PropertySchema(schema, f.key).value, path + [Key(f.key)]);
    }
  }

  predicate AllKept(fields: seq<Field>, schema: Json) {
    fields == [] || (Kept(fields[0], schema) && AllKept(fields[1..], schema))
  }

  lemma {:induction false} AllKeptFacts(fields: seq<Field>, schema: Json)
    ensures AllKept(fields, schema) <==> forall i :: 0 <= i < |fields| ==> Kept(fields[i], schema)
    ensures AllKept(fields, schema) ==> KeptFields(fields, schema) == fields
  {
    if fields != [] {
      AllKeptFacts(fields[1..], schema);
      assert forall i :: 1 <= i < |fields| ==> fields[i] == fields[1..][i - 1];
    }
  }

  lemma {:induction false} PropertiesFold(fields: seq<Field>, schema: Json, path: Path)
    ensures var c := Properties(fields, schema, path);
            c.fields == KeptFields(fields, schema) && (c.ok <==> c.errors == []) && (c.ok <==> AllKept(fields, schema))
    decreases fields, 0
  {
    if fields != [] {
      PropertyReports(fields[0], schema, path);
      PropertiesFold(fields[1..], schema, path);
    }
  }

  lemma PropertiesReport(fields: seq<Field>, schema: Json, path: Path)
    ensures var c := Properties(fields, schema, path);
            && c.fields == KeptFields(fields, schema)
            && (c.ok <==> c.errors == [])
            && (c.ok <==> forall i :: 0 <= i < |fields| ==> Kept(fields[i], schema))
            && (c.ok ==> c.fields == fields)
    decreases fields, 1
  {
    PropertiesFold(fields, schema, path);
    AllKeptFacts(fields, schema);
  }

  lemma {:induction false} ObjectReports(fields: seq<Field>, schema: Json, path: Path)
    ensures var c := Object(fields, schema, path);
            && c.fields == KeptFields(fields, schema)
            && (c.ok <==> c.errors == [])
            && (c.ok <==> ObjectAccepted(fields, schema))
            && (c.ok ==> c.fields == fields)
    decreases fields, 2
  {
    PropertiesReport(fields, schema, path);
    RequiredPresent(fields, schema);
    MissingIffAbsent(RequiredKeys(schema), Properties(fields, schema, path).fields, path);
    if forall i :: 0 <= i < |fields| ==> Kept(fields[i], schema) {
      assert Properties(fields, schema, path).fields == fields;
    }
  }

  lemma {:induction false} KeptFieldsAreKept(fields: seq<Field>, schema: Json)
    ensures forall f :: f in KeptFields(fields, schema) <==> f in fields && Kept(f, schema)
  {
    if fields != [] {
      KeptFieldsAreKept(fields[1..], schema);
      assert forall f :: f in fields <==> f == fields[0] || f in fields[1..];
    }
  }

  // ---------------------------------------------------------------- every error points at its cause

  /** Following `way` through value and schema leads to a value that breaks `keyword`, of those the first. */
  predicate Caused(value: Json, schema: Json, way: Path, keyword: Keyword)
    decreases value, 1
  {
    if way == [] then FirstFailing(value, schema) == Some(keyword)
    else
      FirstFailing(value, schema).None? &&
      match way[0]
      case Index(i) =>
        value.Arr? && i < |value.items| &&
        (match Get(schema, "items")
         case Some(Obj(fs)) => Caused(value.items[i], Obj(fs), way[1..], keyword)
         case _ => false)
      case Key(_) =>
        value.Obj? && Get(schema, "type") == Some(Str("object")) && CausedIn(value.fields, schema, way, keyword)
  }

  /** A required key that did not survive, a key that is not allowed, or a property with a cause of its own. */
  predicate CausedIn(fields: seq<Field>, schema: Json, way: Path, keyword: Keyword)
    requires way != [] && way[0].Key?
    decreases fields, 0
  {
    var key := way[0].key;
    || (way == [Key(key)] && keyword == Required && key in RequiredKeys(schema)
        && !HasKey(KeptFields(fields, schema), key))
    || exists i :: 0 <= i < |fields| && fields[i].key == key && PropertyCaused(fields[i], schema, way[1..], keyword)
  }

  predicate PropertyCaused(f: Field, schema: Json, way: Path, keyword: Keyword)
    decreases f, 0
  {
    match Declared(schema, f.key)
    case Some(p) => Caused(f.value, p, way, keyword)
    case None => way == [] && keyword == Unknown && Get(schema, "additionalProperties") == Some(Bool(false))
  }

  ghost predicate Below(path: Path, e: Error) {
    |path| <= |e.path| && e.path[..|path|] == path
  }

  lemma {:induction false} NodeErrorsAreCaused(value: Json, schema: Json, path: Path, e: Error)
    requires e in Node(value, schema, path).errors
    ensures Below(path, e) && Caused(value, schema, e.path[|path|..], e.keyword)
    decreases value, 1
  {
    KeywordsInOrder(value, schema);
    if Violated(value, schema).None? {
      if value.Arr? {
        ItemErrorsAreCaused(value.items, ItemSchema(schema).value, path, 0, e);
      } else {
        ObjectErrorsAreCaused(value.fields, schema, path, e);
      }
    }
  }

  lemma {:induction false} ItemErrorsAreCaused(items: seq<Json>, schema: Json, path: Path, from: nat, e: Error)
    requires e in ItemErrors(items, schema, path, from)
    ensures Below(path, e) && |e.path| > |path| && e.path[|path|].Index?
    ensures var i := e.path[|path|].i;
            from <= i < from + |items| && Caused(items[i - from], schema, e.path[|path| + 1..], e.keyword)
    decreases items, 0
  {
    var here := path + [Index(from)];
    if e in Node(items[0], schema, here).errors {
      NodeErrorsAreCaused(items[0], schema, here, e);
      assert e.path[..|path|] == e.path[..|here|][..|path|] && e.path[|path|] == e.path[..|here|][|path|];
    } else {
      ItemErrorsAreCaused(items[1..], schema, path, from + 1, e);
    }
  }

  lemma {:induction false} ObjectErrorsAreCaused(fields: seq<Field>, schema: Json, path: Path, e: Error)
    requires e in Object(fields, schema, path).errors
    ensures Below(path, e) && |e.path| > |path| && e.path[|path|].Key?
    ensures CausedIn(fields, schema, e.path[|path|..], e.keyword)
    decreases fields, 1
  {
    PropertiesReport(fields, schema, path);
    if e in Properties(fields, schema, path).errors {
      PropertyErrorsAreCaused(fields, schema, path, e);
    } else {
      MissingNames(RequiredKeys(schema), KeptFields(fields, schema), path, e);
      assert e.path[|path|..] == [e.path[|path|]];
    }
  }

  lemma {:induction false} MissingNames(required: seq<string>, fields: seq<Field>, path: Path, e: Error)
    requires e in Missing(required, fields, path)
    ensures |e.path| == |path| + 1 && e.path[..|path|] == path && e.path[|path|].Key? && e.keyword == Required
    ensures e.path[|path|].key in required && !HasKey(fields, e.path[|path|].key)
  {
    if e != Error(path + [Key(required[0])], Required) || HasKey(fields, required[0]) {
      MissingNames(required[1..], fields, path, e);
    }
  }

  lemma {:induction false} PropertyErrorsAreCaused(fields: seq<Field>, schema: Json, path: Path, e: Error)
    requires e in Properties(fields, schema, path).errors
    ensures Below(path, e) && |e.path| > |path| && e.path[|path|].Key?
    ensures exists i :: 0 <= i < |fields| && fields[i].key == e.path[|path|].key &&
                        PropertyCaused(fields[i], schema, e.path[|path| + 1..], e.keyword)
    decreases fields, 0
  {
    var f := fields[0];
    var here := path + [Key(f.key)];
    if e in Property(f, schema, path).errors {
      if PropertySchema(schema, f.key).Some? {
        NodeErrorsAreCaused(f.value, PropertySchema(schema, f.key).value, here, e);
      }
      assert e.path[..|here|] == here && e.path[..|path|] == here[..|path|] && e.path[|path|] == here[|path|];
      assert PropertyCaused(fields[0], schema, e.path[|path| + 1..], e.keyword);
    } else {
      PropertyErrorsAreCaused(fields[1..], schema, path, e);
      var i :| 0 <= i < |fields| - 1 && fields[1..][i].key == e.path[|path|].key &&
               PropertyCaused(fields[1..][i], schema, e.path[|path| + 1..], e.keyword);
      assert fields[i + 1] == fields[1..][i];
    }
  }

  /** Every recorded error leads to a value, or to a missing key, that breaks exactly the keyword it names. */
  lemma ErrorsPointAtTheirCause(raw: Option<Json>, schema: seq<Field>, e: Error)
    requires e in Validated(raw, schema).errors
    ensures if raw.None? || raw.value.Null? || raw.value.Obj? then
              && e.path != [] && e.path[0].Key?
              && CausedIn(if raw.Some? && raw.value.Obj? then raw.value.fields else [], Materialised(schema), e.path,
                          e.keyword)
            else e == Error([], NotAnObject)
  {
    if raw.None? || raw.value.Null? || raw.value.Obj? {
      ObjectErrorsAreCaused(if raw.Some? && raw.value.Obj? then raw.value.fields else [], Materialised(schema), [], e);
      assert e.path[0..] == e.path;
    }
  }

  ghost predicate Reported(errors: seq<Error>, path: Path, key: string) {
    exists e :: e in errors && |e.path| > |path| && e.path[..|path|] == path && e.path[|path|] == Key(key)
  }

  lemma {:induction false} DroppedProperties(fields: seq<Field>, schema: Json, path: Path, i: nat)
    requires i < |fields| && !Kept(fields[i], schema)
    ensures Reported(Properties(fields, schema, path).errors, path, fields[i].key)
  {
    var first, rest := Property(fields[0], schema, path), Properties(fields[1..], schema, path);
    if i == 0 {
      PropertyReports(fields[0], schema, path);
      var e := first.errors[0];
      assert [fields[0]][0] == fields[0] && Properties([fields[0]], schema, path).errors == first.errors by {
        assert [fields[0]][1..] == [];
      }
      PropertyErrorsAreCaused([fields[0]], schema, path, e);
      assert e in Properties(fields, schema, path).errors;
    } else {
      DroppedProperties(fields[1..], schema, path, i - 1);
      var e :| e in rest.errors && |e.path| > |path| && e.path[..|path|] == path &&
               e.path[|path|] == Key(fields[i].key);
      assert e in Properties(fields, schema, path).errors;
    }
  }

  lemma {:induction false} MissingAreReported(required: seq<string>, fields: seq<Field>, path: Path, key: string)
    requires key in required && !HasKey(fields, key)
    ensures Error(path + [Key(key)], Required) in Missing(required, fields, path)
  {
    if key != required[0] {
      MissingAreReported(required[1..], fields, path, key);
    }
  }

  /** And nothing is dropped or missing without an error of its own. */
  lemma NothingIsDroppedSilently(fields: seq<Field>, schema: Json, path: Path)
    ensures forall i :: 0 <= i < |fields| && !Kept(fields[i], schema) ==>
                          Reported(Object(fields, schema, path).errors, path, fields[i].key)
    ensures forall key :: key in RequiredKeys(schema) && !HasKey(KeptFields(fields, schema), key) ==>
                            Error(path + [Key(key)], Required) in Object(fields, schema, path).errors
  {
    PropertiesReport(fields, schema, path);
    forall i | 0 <= i < |fields| && !Kept(fields[i], schema)
      ensures Reported(Object(fields, schema, path).errors, path, fields[i].key)
    {
      DroppedProperties(fields, schema, path, i);
      var e :| e in Properties(fields, schema, path).errors && |e.path| > |path| && e.path[..|path|] == path &&
               e.path[|path|] == Key(fields[i].key);
      assert e in Object(fields, schema, path).errors;
    }
    forall key | key in RequiredKeys(schema) && !HasKey(KeptFields(fields, schema), key)
      ensures Error(path + [Key(key)], Required) in Object(fields, schema, path).errors
    {
      MissingAreReported(RequiredKeys(schema), KeptFields(fields, schema), path, key);
    }
  }

  lemma AllSurvive(fields: seq<Field>, schema: Json)
    requires forall f :: f in KeptFields(fields, schema) <==> f in fields
    ensures KeptFields(fields, schema) == fields
  {
    KeptFieldsAreKept(fields, schema);
    forall i | 0 <= i < |fields| ensures Kept(fields[i], schema) {
      assert fields[i] in KeptFields(fields, schema);
    }
    AllKeptFacts(fields, schema);
  }

  /** Cleaning a cleaned object changes nothing, and can only repeat that required keys are missing. */
  lemma CleaningIsIdempotent(fields: seq<Field>, schema: Json, path: Path)
    ensures var first := Object(fields, schema, path);
            var second := Object(first.fields, schema, path);
            && second.fields == first.fields
            && second.errors == Missing(RequiredKeys(schema), first.fields, path)
            && second.errors == first.errors[|first.errors| - |second.errors|..]
  {
    ObjectReports(fields, schema, path);
    var kept := KeptFields(fields, schema);
    KeptFieldsAreKept(fields, schema);
    assert forall i :: 0 <= i < |kept| ==> kept[i] in kept;
    PropertiesReport(kept, schema, path);
  }

  // ---------------------------------------------------------------- the entry point and the shorthand

  const TYPE_KEYWORDS := ["string", "number", "integer", "boolean", "array"]

  function ShorthandField(shorthand: Json): Json {
    match shorthand
    case Str(s) => if s in TYPE_KEYWORDS then Obj([Field("type", Str(s))]) else Obj([Field("const", Str(s))])
    case Arr(items) =>
      if items == [Str("array")] then Obj([Field("type", Str("array"))])
      else Obj([Field("type", Str("string")), Field("enum", Arr(OnlyStrings(items)))])
    case Obj(fields) =>
      if HasKey(fields, "type") || HasKey(fields, "enum") || HasKey(fields, "const") then shorthand else Obj([])
    case _ => Obj([])
  }

  function OnlyStrings(items: seq<Json>): seq<Json> {
    if items == [] then [] else (if items[0].Str? then [items[0]] else []) + OnlyStrings(items[1..])
  }

  function ShorthandProperties(shorthand: seq<Field>): seq<Field> {
    if shorthand == [] then []
    else [Field(shorthand[0].key, ShorthandField(shorthand[0].value))] + ShorthandProperties(shorthand[1..])
  }

  const JSON_SCHEMA_2020_12 := "https://json-schema.org/draft/2020-12/schema"

  function ShorthandToJsonSchema(shorthand: seq<Field>): Json {
    Obj([Field("$schema", Str(JSON_SCHEMA_2020_12)), Field("type", Str("object")),
         Field("properties", Obj(ShorthandProperties(shorthand))), Field("additionalProperties", Bool(false))])
  }

  predicate IsJsonSchemaObject(schema: seq<Field>) {
    && Lookup(schema, "type") == Some(Str("object"))
    && (HasKey(schema, "properties") || HasKey(schema, "additionalProperties") || HasKey(schema, "$schema"))
  }

  function Materialised(schema: seq<Field>): Json {
    if IsJsonSchemaObject(schema) then Obj(schema) else ShorthandToJsonSchema(schema)
  }

  datatype Settings = Settings(valid: bool, value: seq<Field>, errors: seq<Error>)

  /** `None` is `undefined`; it and `null` count as no settings at all. */
  function Validated(raw: Option<Json>, schema: seq<Field>): Settings {
    if raw.Some? && !raw.value.Obj? && !raw.value.Null? then Settings(false, [], [Error([], NotAnObject)])
    else
      var c := Object(if raw.Some? && raw.value.Obj? then raw.value.fields else [], Materialised(schema), []);
      Settings(c.ok, c.fields, c.errors)
  }

  method ValidateSettings(raw: Option<Json>, schema: seq<Field>) returns (r: Settings)
    ensures r == Validated(raw, schema)
  {
    var list := new ErrorList();
    var input := if raw.Some? && raw.value.Obj? then raw.value.fields else [];
    if raw.Some? && !raw.value.Obj? && !raw.value.Null? {
      return Settings(false, [], [Error([], NotAnObject)]);
    }
    var ok, value := list.ValidateObject(input, Materialised(schema), []);
    r := Settings(ok, value, list.errors);
  }

  /** `valid` says exactly that no error was recorded, and a valid object comes back as it went in. */
  lemma ValidIffNoErrors(raw: Option<Json>, schema: seq<Field>)
    ensures var r := Validated(raw, schema);
            && (r.valid <==> r.errors == [])
            && (forall f :: f in r.value ==> raw.Some? && raw.value.Obj? && f in raw.value.fields)
            && (r.valid && raw.Some? && raw.value.Obj? ==> r.value == raw.value.fields)
  {
    var fields := if raw.Some? && raw.value.Obj? then raw.value.fields else [];
    ObjectReports(fields, Materialised(schema), []);
    KeptFieldsAreKept(fields, Materialised(schema));
  }

  lemma {:induction false} ShorthandLookup(shorthand: seq<Field>, key: string)
    ensures Lookup(ShorthandProperties(shorthand), key) ==
            (match Lookup(shorthand, key) case None => None case Some(v) => Some(ShorthandField(v)))
  {
    if shorthand != [] {
      ShorthandLookup(shorthand[1..], key);
      assert ShorthandProperties(shorthand)[1..] == ShorthandProperties(shorthand[1..]);
    }
  }

  /** Reading the four keys of a materialised shorthand back. */
  lemma SchemaLookup(fs: seq<Field>)
    requires |fs| == 4 && fs[0].key == "$schema" && fs[1].key == "type" && fs[2].key == "properties"
             && fs[3].key == "additionalProperties"
    ensures Lookup(fs, "properties") == Some(fs[2].value) && Lookup(fs, "additionalProperties") == Some(fs[3].value)
  {
    assert "$schema"[0] == '$' && "type"[0] == 't' && "properties"[0] == 'p' && "additionalProperties"[0] == 'a';
    var f1 := fs[1..];
    var f2 := f1[1..];
    var f3 := f2[1..];
    assert f1[0] == fs[1] && f2[0] == fs[2] && f3[0] == fs[3];
    assert Lookup(f2, "properties") == Some(fs[2].value) && Lookup(f3, "additionalProperties") == Some(fs[3].value);
    assert Lookup(f1, "properties") == Lookup(f2, "properties")
           && Lookup(f1, "additionalProperties") == Lookup(f2, "additionalProperties");
  }

  /**
   * Under a shorthand schema the cleaning is a white list: declared fields whose value fits, verbatim, and nothing
   * else.
   */
  lemma ShorthandIsAWhitelist(fields: seq<Field>, shorthand: seq<Field>, f: Field)
    requires !IsJsonSchemaObject(shorthand)
    ensures f in Validated(Some(Obj(fields)), shorthand).value <==>
            f in fields && HasKey(shorthand, f.key) && Accepts(f.value, ShorthandField(Lookup(shorthand, f.key).value))
  {
    var schema := ShorthandToJsonSchema(shorthand);
    ObjectReports(fields, schema, []);
    KeptFieldsAreKept(fields, schema);
    ShorthandLookup(shorthand, f.key);
    SchemaLookup(schema.fields);
    assert PropertySchema(schema, f.key) == Lookup(ShorthandProperties(shorthand), f.key);
    assert !AdditionalAllowed(schema);
  }

  /** What a shorthand descriptor lets through. */
  predicate ShorthandAllows(value: Json, shorthand: Json) {
    match shorthand
    case Str(name) =>
      if name == "string" then value.Str?
      else if name == "number" then value.Num?
      else if name == "integer" then value.Num? && value.n == value.n.Floor as real
      else if name == "boolean" then value.Bool?
      else if name == "array" then value.Arr?
      else value == Str(name)
    case Arr(items) => if items == [Str("array")] then value.Arr? else value.Str? && value in items
    case Obj(fields) => HasKey(fields, "type") || HasKey(fields, "enum") || HasKey(fields, "const") ==>
                          Accepts(value, shorthand)
    case _ => true
  }

  lemma {:induction false} OnlyStringsMeans(items: seq<Json>, e: Json)
    ensures e in OnlyStrings(items) <==> e in items && e.Str?
  {
    if items != [] {
      OnlyStringsMeans(items[1..], e);
      assert e in items <==> e == items[0] || e in items[1..];
    }
  }

  lemma LookupOne(f: Field, key: string)
    ensures Lookup([f], key) == if f.key == key then Some(f.value) else None
  {
    assert [f][1..] == [];
  }

  lemma LookupTwo(f: Field, g: Field, key: string)
    ensures Lookup([f, g], key) == if f.key == key then Some(f.value) else if g.key == key then Some(g.value) else None
  {
    assert [f, g][1..] == [g];
    LookupOne(g, key);
  }

  lemma ConstSchema(value: Json, c: Json)
    requires Scalar(c)
    ensures Accepts(value, Obj([Field("const", c)])) <==> value == c
  {
    var fs := [Field("const", c)];
    forall key: string ensures Lookup(fs, key) == if key == "const" then Some(c) else None {
      LookupOne(fs[0], key);
    }
  }

  lemma TypeSchema(value: Json, typ: string)
    ensures var schema := Obj([Field("type", Str(typ))]);
            && Get(schema, "type") == Some(Str(typ))
            && (Accepts(value, schema) <==> TypeHolds(value, schema))
  {
    var fs := [Field("type", Str(typ))];
    forall key: string ensures Lookup(fs, key) == if key == "type" then Some(Str(typ)) else None {
      LookupOne(fs[0], key);
    }
    var schema := Obj(fs);
    assert Get(schema, "properties").None? && Get(schema, "additionalProperties").None?;
    assert Get(schema, "required").None? && Get(schema, "items").None?;
    if value.Obj? {
      forall i | 0 <= i < |value.fields| ensures Kept(value.fields[i], schema) {
      }
    }
  }

  lemma EnumSchema(value: Json, items: seq<Json>)
    ensures Accepts(value, Obj([Field("type", Str("string")), Field("enum", Arr(OnlyStrings(items)))])) <==>
            value.Str? && value in items
  {
    var fs := [Field("type", Str("string")), Field("enum", Arr(OnlyStrings(items)))];
    forall key: string
      ensures Lookup(fs, key) == if key == "type" then Some(fs[0].value) else if key == "enum" then Some(fs[1].value)
                                 else None
    {
      LookupTwo(fs[0], fs[1], key);
    }
    if value.Str? {
      OnlyStringsMeans(items, value);
      forall e | e in OnlyStrings(items) ensures JsonEquals(value, e) <==> value == e {
        OnlyStringsMeans(items, e);
      }
    }
  }

  lemma EmptySchema(value: Json)
    ensures Accepts(value, Obj([]))
  {
  }

  lemma ShorthandMeans(value: Json, shorthand: Json)
    ensures Accepts(value, ShorthandField(shorthand)) <==> ShorthandAllows(value, shorthand)
  {
    EmptySchema(value);
    match shorthand
    case Str(name) =>
      if name in TYPE_KEYWORDS {
        TypeSchema(value, name);
      } else {
        ConstSchema(value, shorthand);
      }
    case Arr(items) =>
      TypeSchema(value, "array");
      EnumSchema(value, items);
    case _ =>
  }

  /** An object with `type: 'object'` and one of three keys is a schema already; everything else is shorthand. */
  predicate FullSchema(schema: seq<Field>) {
    Lookup(schema, "type") == Some(Str("object"))
    && exists i :: 0 <= i < |schema| && schema[i].key in {"properties", "additionalProperties", "$schema"}
  }

  /** Which settings survive, for every schema: the accepted ones, or those that the shorthand lets through. */
  lemma SettingsKeepExactly(fields: seq<Field>, schema: seq<Field>, f: Field)
    ensures f in Validated(Some(Obj(fields)), schema).value <==>
            f in fields &&
            if FullSchema(schema) then Kept(f, Obj(schema))
            else match Lookup(schema, f.key) case None => false case Some(s) => ShorthandAllows(f.value, s)
  {
    LookupFound(schema, "properties");
    LookupFound(schema, "additionalProperties");
    LookupFound(schema, "$schema");
    if FullSchema(schema) {
      ObjectReports(fields, Obj(schema), []);
      KeptFieldsAreKept(fields, Obj(schema));
    } else {
      ShorthandIsAWhitelist(fields, schema, f);
      if HasKey(schema, f.key) {
        ShorthandMeans(f.value, Lookup(schema, f.key).value);
      }
    }
  }
}
