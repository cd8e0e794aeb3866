/** The part of `org.json` the correction passes use: a tree of strings,
    arrays and objects, with the throwing accessors (`getString`,
    `getJSONArray`, casts to `JSONObject`) returning `Err`, and `put`
    replacing a present key in place or adding it at the end. */
module Json {
  import opened Wrappers
  import opened Seqs

  datatype Json = JStr(str: string) | JArr(items: seq<Json>) | JObj(fields: seq<Field>)
  datatype Field = Field(key: string, val: Json)

  // keys of the API description
  const J_ID := "id"
  const J_NAME := "name"
  const J_TYPE := "type"
  const J_MODIFIERS := "modifiers"
  const J_TYPE_PARAMETERS := "typeparameters"
  const J_BOUNDS := "bounds"
  const J_METHODS := "methods"
  const J_STATIC_METHODS := "staticMethods"
  const J_PARAMETERS := "parameters"
  const J_PROPERTIES := "properties"
  const J_CONSTRUCTORS := "constructors"
  const J_RETURNS := "returns"
  const J_EXTENDS := "extends"
  const J_IMPLEMENTS := "implements"
  const J_NAMESPACES := "namespaces"
  const J_TYPES := "types"
  const J_FUNCTION_SIGNATURES := "functionSignatures"

  // modifier and type names
  const CANBENULL := "canbenull"
  const OPTIONAL := "optional"
  const PUBLIC := "public"
  const FINAL := "final"
  const RO := "ro"
  const JS_STRING := "String"
  const JS_OBJECT := "Object"
  const ICOMPARABLE := "yfiles.lang.IComparable"
  const YCLASS := "yfiles.lang.YClass"

  /** The value of the first field named `k`. */
  function Lookup(fields: seq<Field>, k: string): (r: Option<Json>)
    ensures r.Some? <==> exists i :: 0 <= i < |fields| && fields[i].key == k
    ensures r.Some? ==> exists i :: 0 <= i < |fields| && fields[i].key == k && fields[i].val == r.value
  {
    if |fields| == 0 then None
    else if fields[0].key == k then Some(fields[0].val)
    else
      var r := Lookup(fields[1..], k);
      assert forall i :: 1 <= i < |fields| ==> fields[i] == fields[1..][i - 1];
      r
  }

  /** `opt(k)`: the value under `k` of an object, if any. */
  function Get(o: Json, k: string): Option<Json>
  {
    if o.JObj? then Lookup(o.fields, k) else None
  }

  /** `has(k)`. */
  predicate Has(o: Json, k: string)
  {
    Get(o, k).Some?
  }

  /** The first field named `k` takes value `v`; without one, the field is
      added at the end. */
  function Set(fields: seq<Field>, k: string, v: Json): (r: seq<Field>)
    ensures Lookup(r, k) == Some(v)
    ensures forall k' :: k' != k ==> Lookup(r, k') == Lookup(fields, k')
  {
    if |fields| == 0 then [Field(k, v)]
    else if fields[0].key == k then [Field(k, v)] + fields[1..]
    else
      var rest := Set(fields[1..], k, v);
      assert ([fields[0]] + rest)[1..] == rest;
      [fields[0]] + rest
  }

  /** `put(k, v)` on an object. */
  function Put(o: Json, k: string, v: Json): (r: Json)
    requires o.JObj?
    ensures r.JObj?
    ensures Get(r, k) == Some(v)
    ensures forall k' :: k' != k ==> Get(r, k') == Get(o, k')
  {
    JObj(Set(o.fields, k, v))
  }

  /** Putting back the value a key already has changes nothing. */
  lemma {:induction false} SetSame(fields: seq<Field>, k: string, v: Json)
    requires Lookup(fields, k) == Some(v)
    ensures Set(fields, k, v) == fields
  {
    if fields[0].key != k {
      SetSame(fields[1..], k, v);
    }
  }

  lemma PutSame(o: Json, k: string, v: Json)
    requires o.JObj? && Get(o, k) == Some(v)
    ensures Put(o, k, v) == o
  {
    SetSame(o.fields, k, v);
  }

  /** A second `put` to the same key overrides the first. */
  lemma {:induction false} SetSet(fields: seq<Field>, k: string, v: Json, w: Json)
    ensures Set(Set(fields, k, v), k, w) == Set(fields, k, w)
  {
    if |fields| > 0 && fields[0].key != k {
      SetSet(fields[1..], k, v, w);
    }
  }

  /** `put` to an absent key appends the field. */
  lemma {:induction false} SetAbsent(fields: seq<Field>, k: string, v: Json)
    requires Lookup(fields, k).None?
    ensures Set(fields, k, v) == fields + [Field(k, v)]
  {
    if |fields| > 0 {
      assert Lookup(fields[1..], k).None?;
      SetAbsent(fields[1..], k, v);
      assert Set(fields, k, v) == [fields[0]] + Set(fields[1..], k, v);
      AppendCons(fields[0], fields[1..], Field(k, v));
      assert fields == [fields[0]] + fields[1..];
    }
  }

  lemma AppendCons(x: Field, xs: seq<Field>, y: Field)
    ensures [x] + (xs + [y]) == [x] + xs + [y]
  {
  }

  /** `put` to a present key keeps the object's keys in place. */
  lemma {:induction false} SetKeys(fields: seq<Field>, k: string, v: Json)
    requires Lookup(fields, k).Some?
    ensures |Set(fields, k, v)| == |fields|
    ensures forall i :: 0 <= i < |fields| ==> Set(fields, k, v)[i].key == fields[i].key
  {
    if fields[0].key != k {
      SetKeys(fields[1..], k, v);
    }
  }

  /** `getString(k)`: fails unless the key holds a string. */
  function GetString(o: Json, k: string): (r: Result<string>)
    ensures r.Ok? <==> Get(o, k).Some? && Get(o, k).value.JStr?
    ensures r.Ok? ==> Get(o, k) == Some(JStr(r.value))
  {
    match Get(o, k)
    case Some(JStr(s)) => Ok(s)
    case _ => Err("JSONObject[\"" + k + "\"] not a string.")
  }

  /** `getJSONArray(k)`: fails unless the key holds an array. */
  function GetArray(o: Json, k: string): (r: Result<seq<Json>>)
    ensures r.Ok? <==> Get(o, k).Some? && Get(o, k).value.JArr?
    ensures r.Ok? ==> Get(o, k) == Some(JArr(r.value))
  {
    match Get(o, k)
    case Some(JArr(xs)) => Ok(xs)
    case _ => Err("JSONObject[\"" + k + "\"] is not a JSONArray.")
  }

  /** `getJSONObject(k)`. */
  function GetObject(o: Json, k: string): (r: Result<Json>)
    ensures r.Ok? <==> Get(o, k).Some? && Get(o, k).value.JObj?
    ensures r.Ok? ==> Get(o, k) == Some(r.value) && r.value.JObj?
  {
    match Get(o, k)
    case Some(JObj(fs)) => Ok(JObj(fs))
    case _ => Err("JSONObject[\"" + k + "\"] is not a JSONObject.")
  }

  predicate AllObjects(xs: seq<Json>)
  {
    forall i :: 0 <= i < |xs| ==> xs[i].JObj?
  }

  /** `jsequence(k)`: the array under `k`, each element cast to an object. */
  function Objects(o: Json, k: string): (r: Result<seq<Json>>)
    ensures r.Ok? <==> GetArray(o, k).Ok? && AllObjects(GetArray(o, k).value)
    ensures r.Ok? ==> r == GetArray(o, k) && AllObjects(r.value)
  {
    var xs :- GetArray(o, k);
    if AllObjects(xs) then Ok(xs) else Err("class java.lang.String cannot be cast to class org.json.JSONObject")
  }

  /** Two objects agreeing on `k` read the same array from it. */
  lemma SameField(a: Json, b: Json, k: string)
    requires Get(a, k) == Get(b, k)
    ensures Has(a, k) == Has(b, k) && GetArray(a, k) == GetArray(b, k) && Objects(a, k) == Objects(b, k)
  {
  }

  /** `optJsequence(k)` / `optionalArray(k)`: like `Objects`, but an absent
      key gives nothing. */
  function OptObjects(o: Json, k: string): (r: Result<seq<Json>>)
    ensures !Has(o, k) ==> r == Ok([])
    ensures Has(o, k) ==> r == Objects(o, k)
  {
    if Has(o, k) then Objects(o, k) else Ok([])
  }

  /** `indexOf(s)` on an array of strings. */
  function IndexOfString(xs: seq<Json>, s: string): (r: int)
    ensures -1 <= r < |xs|
    ensures r != -1 ==> xs[r] == JStr(s)
    ensures forall i :: 0 <= i < |xs| && (r == -1 || i < r) ==> xs[i] != JStr(s)
  {
    if |xs| == 0 then -1
    else if xs[0] == JStr(s) then 0
    else
      var r := IndexOfString(xs[1..], s);
      assert forall i :: 1 <= i < |xs| ==> xs[i] == xs[1..][i - 1];
      if r == -1 then -1 else r + 1
  }

  /** `remove(i)` on an array. */
  function RemoveAt(xs: seq<Json>, i: nat): (r: seq<Json>)
    requires i < |xs|
    ensures |r| == |xs| - 1
    ensures forall j :: 0 <= j < i ==> r[j] == xs[j]
    ensures forall j :: i <= j < |r| ==> r[j] == xs[j + 1]
  {
    xs[..i] + xs[i + 1..]
  }

  /** The elements `f` leaves as they are, each mapped back to itself, leave
      the whole sequence as it is. */
  lemma MapAllFixed(xs: seq<Json>, f: Json -> Result<Json>)
    requires forall i :: 0 <= i < |xs| ==> f(xs[i]) == Ok(xs[i])
    ensures MapAll(xs, f) == Ok(xs)
  {
    var r := MapAll(xs, f);
    assert r.Ok?;
    assert r.value == xs;
  }

  /** An array of objects under `k`, when present, rewritten element by
      element with `f`: the shape of every `forEach` over an
      `optFlatMap(k)` that changes its elements. */
  function UpdateObjects(o: Json, k: string, f: Json -> Result<Json>): (r: Result<Json>)
    requires o.JObj?
    ensures !Has(o, k) ==> r == Ok(o)
    ensures r.Ok? ==> r.value.JObj?
    ensures r.Ok? ==> forall k' :: k' != k ==> Get(r.value, k') == Get(o, k')
    ensures r.Ok? && Has(o, k) ==>
      Objects(o, k).Ok? && MapAll(Objects(o, k).value, f).Ok? &&
      r.value == Put(o, k, JArr(MapAll(Objects(o, k).value, f).value))
  {
    if !Has(o, k) then Ok(o)
    else
      var xs :- Objects(o, k);
      var ys :- MapAll(xs, f);
      Ok(Put(o, k, JArr(ys)))
  }

  /** `f` maps each of its results to itself. */
  ghost predicate Idempotent(f: Json -> Result<Json>)
  {
    forall x, y :: f(x) == Ok(y) ==> y.JObj? && f(y) == Ok(y)
  }

  /** The key `k` holds what an idempotent `f` would leave unchanged. */
  ghost predicate FixedAt(o: Json, k: string, f: Json -> Result<Json>)
  {
    match Get(o, k)
    case None => true
    case Some(v) => v.JArr? && AllObjects(v.items) && forall i :: 0 <= i < |v.items| ==> f(v.items[i]) == Ok(v.items[i])
  }

  lemma UpdateFixed(o: Json, k: string, f: Json -> Result<Json>)
    requires o.JObj? && FixedAt(o, k, f)
    ensures UpdateObjects(o, k, f) == Ok(o)
  {
    if Has(o, k) {
      var v := Get(o, k).value;
      MapAllFixed(v.items, f);
      PutSame(o, k, v);
    }
  }

  /** After an update with an idempotent `f`, the key is a fixed point. */
  lemma UpdateMakesFixed(o: Json, k: string, f: Json -> Result<Json>)
    requires o.JObj? && Idempotent(f)
    requires UpdateObjects(o, k, f).Ok?
    ensures FixedAt(UpdateObjects(o, k, f).value, k, f)
  {
    if Has(o, k) {
      var xs := Objects(o, k).value;
      var ys := MapAll(xs, f).value;
      var o' := Put(o, k, JArr(ys));
      assert UpdateObjects(o, k, f).value == o';
      MappedFixed(xs, ys, f);
      assert Get(o', k) == Some(JArr(ys));
    }
  }

  /** What an idempotent `f` produced, it leaves as it is. */
  lemma MappedFixed(xs: seq<Json>, ys: seq<Json>, f: Json -> Result<Json>)
    requires Idempotent(f) && |ys| == |xs|
    requires forall i :: 0 <= i < |xs| ==> f(xs[i]) == Ok(ys[i])
    ensures AllObjects(ys) && forall i :: 0 <= i < |ys| ==> f(ys[i]) == Ok(ys[i])
  {
    forall i | 0 <= i < |ys|
      ensures ys[i].JObj? && f(ys[i]) == Ok(ys[i])
    {
      assert f(xs[i]) == Ok(ys[i]);
    }
  }

  /** Updating the same key twice with an idempotent `f` is updating it
      once. */
  lemma UpdateIdempotent(o: Json, k: string, f: Json -> Result<Json>)
    requires o.JObj? && Idempotent(f)
    requires UpdateObjects(o, k, f).Ok?
    ensures UpdateObjects(UpdateObjects(o, k, f).value, k, f) == UpdateObjects(o, k, f)
  {
    UpdateMakesFixed(o, k, f);
    UpdateFixed(UpdateObjects(o, k, f).value, k, f);
  }

  /** The first object of `xs` whose `name` is `name` (`firstWithName`); an
      object without a name before it fails. */
  function FirstNamed(xs: seq<Json>, name: string): (r: Result<int>)
    ensures r.Ok? ==> 0 <= r.value < |xs| && GetString(xs[r.value], J_NAME) == Ok(name)
    ensures r.Ok? ==> forall i :: 0 <= i < r.value ==> GetString(xs[i], J_NAME).Ok? && GetString(xs[i], J_NAME) != Ok(name)
    ensures (forall i :: 0 <= i < |xs| ==> GetString(xs[i], J_NAME).Ok?) ==>
              (r.Ok? <==> exists i :: 0 <= i < |xs| && GetString(xs[i], J_NAME) == Ok(name))
  {
    FirstNamedFrom(xs, name, 0)
  }

  /** The search reads nothing but the names: sequences whose elements are
      named alike give the same answer. */
  lemma {:induction false} FirstNamedSameNames(xs: seq<Json>, ys: seq<Json>, name: string, from: nat)
    requires |xs| == |ys| && forall i :: 0 <= i < |xs| ==> GetString(xs[i], J_NAME) == GetString(ys[i], J_NAME)
    ensures FirstNamedFrom(xs, name, from) == FirstNamedFrom(ys, name, from)
    decreases |xs| - from
  {
    if from < |xs| {
      var n := GetString(xs[from], J_NAME);
      assert n == GetString(ys[from], J_NAME);
      if n.Ok? && n.value != name {
        FirstNamedSameNames(xs, ys, name, from + 1);
      }
    }
  }

  /** The search of `FirstNamed` from position `from` on. */
  function FirstNamedFrom(xs: seq<Json>, name: string, from: nat): (r: Result<int>)
    ensures r.Ok? ==> from <= r.value < |xs| && GetString(xs[r.value], J_NAME) == Ok(name)
    ensures r.Ok? ==> forall i :: from <= i < r.value ==> GetString(xs[i], J_NAME).Ok? && GetString(xs[i], J_NAME) != Ok(name)
    ensures (forall i :: from <= i < |xs| ==> GetString(xs[i], J_NAME).Ok?) ==>
              (r.Ok? <==> exists i :: from <= i < |xs| && GetString(xs[i], J_NAME) == Ok(name))
    decreases |xs| - from
  {
    if from >= |xs| then Err("Sequence contains no element matching the predicate.")
    else
      var n := GetString(xs[from], J_NAME);
      if n.Err? then Err(n.msg)
      else if n.value == name then Ok(from)
      else FirstNamedFrom(xs, name, from + 1)
  }

  /** `flatMap` with a call that can throw: the results one after the other,
      or the first failure. */
  function FlatMap(xs: seq<Json>, f: Json -> Result<seq<Json>>): Result<seq<Json>>
  {
    if |xs| == 0 then Ok([])
    else
      var head :- f(xs[0]);
      var rest :- FlatMap(xs[1..], f);
      Ok(head + rest)
  }

  lemma {:induction false} FlatMapAppend(a: seq<Json>, b: seq<Json>, f: Json -> Result<seq<Json>>)
    ensures FlatMap(a + b, f).Ok? <==> FlatMap(a, f).Ok? && FlatMap(b, f).Ok?
    ensures FlatMap(a + b, f).Ok? ==> FlatMap(a + b, f).value == FlatMap(a, f).value + FlatMap(b, f).value
    decreases |a|
  {
    if |a| == 0 {
      assert a + b == b;
    } else {
      assert (a + b)[0] == a[0] && (a + b)[1..] == a[1..] + b;
      FlatMapAppend(a[1..], b, f);
      var h := f(a[0]);
      var x := FlatMap(a[1..], f);
      var y := FlatMap(b, f);
      if h.Ok? && x.Ok? && y.Ok? {
        assert h.value + (x.value + y.value) == (h.value + x.value) + y.value;
      }
    }
  }
}
