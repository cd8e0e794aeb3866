/** `ElementIdHacks.kt`: in the `yfiles.graphml` types, every `String`
    that carries an element id (a property or parameter named `id` or
    `…Id`, or the result of a method named `…Id`) is retyped to
    `yfiles.graphml.ElementId`. */
module ElementIdHacks {
  import opened Wrappers
  import opened Text
  import opened Json
  import opened Seqs

  const ELEMENT_ID := "yfiles.graphml.ElementId"
  const GRAPHML := "yfiles.graphml"

  /** A name that marks an id: `id` itself or anything ending in `Id`. */
  predicate IsIdName(name: string)
  {
    name == "id" || EndsWith(name, "Id")
  }

  /** One property or parameter: named like an id and typed `String`, it
      becomes an `ElementId`; its name is always read, its type only for an
      id name. */
  function RetypeId(p: Json): (r: Result<Json>)
    ensures r.Ok? <==> GetString(p, J_NAME).Ok? && (IsIdName(GetString(p, J_NAME).value) ==> GetString(p, J_TYPE).Ok?)
    ensures r.Ok? ==> r.value.JObj? && forall k :: k != J_TYPE ==> Get(r.value, k) == Get(p, k)
    ensures r.Ok? ==>
      if IsIdName(GetString(p, J_NAME).value) && GetString(p, J_TYPE) == Ok(JS_STRING)
      then GetString(r.value, J_TYPE) == Ok(ELEMENT_ID)
      else r.value == p
  {
    var name :- GetString(p, J_NAME);
    if !IsIdName(name) then Ok(p)
    else
      var t :- GetString(p, J_TYPE);
      if t == JS_STRING then Ok(Put(p, J_TYPE, JStr(ELEMENT_ID))) else Ok(p)
  }

  /** A method named `…Id` whose result is typed `String`. */
  predicate ReturnsIdString(m: Json)
  {
    && GetString(m, J_NAME).Ok? && EndsWith(GetString(m, J_NAME).value, "Id")
    && GetObject(m, J_RETURNS).Ok? && GetString(GetObject(m, J_RETURNS).value, J_TYPE) == Ok(JS_STRING)
  }

  /** One method's result: a method named `…Id` (not `id`) returning
      `String` returns an `ElementId` instead; methods without `returns`
      are not asked their name. */
  function RetypeReturn(m: Json): (r: Result<Json>)
    ensures !Has(m, J_RETURNS) && m.JObj? ==> r == Ok(m)
    ensures r.Ok? ==> r.value.JObj? && forall k :: k != J_RETURNS ==> Get(r.value, k) == Get(m, k)
    ensures r.Ok? && r.value != m ==>
      GetString(m, J_NAME).Ok? && EndsWith(GetString(m, J_NAME).value, "Id") &&
      GetObject(m, J_RETURNS).Ok? && GetString(GetObject(m, J_RETURNS).value, J_TYPE) == Ok(JS_STRING) &&
      GetObject(r.value, J_RETURNS) == Ok(Put(GetObject(m, J_RETURNS).value, J_TYPE, JStr(ELEMENT_ID)))
    ensures r.Ok? && Has(m, J_RETURNS) && GetString(m, J_NAME).Ok? && EndsWith(GetString(m, J_NAME).value, "Id") ==>
      GetObject(m, J_RETURNS).Ok? && GetString(GetObject(m, J_RETURNS).value, J_TYPE).Ok?
    ensures r.Ok? && ReturnsIdString(m) ==>
      GetObject(r.value, J_RETURNS) == Ok(Put(GetObject(m, J_RETURNS).value, J_TYPE, JStr(ELEMENT_ID)))
  {
    if !m.JObj? then Err("not an object")
    else if !Has(m, J_RETURNS) then Ok(m)
    else
      var name :- GetString(m, J_NAME);
      if !EndsWith(name, "Id") then Ok(m)
      else
        var result :- GetObject(m, J_RETURNS);
        var t :- GetString(result, J_TYPE);
        if t == JS_STRING then Ok(Put(m, J_RETURNS, Put(result, J_TYPE, JStr(ELEMENT_ID)))) else Ok(m)
  }

  /** The parameters of one method or constructor. */
  function RetypeParameters(m: Json): (r: Result<Json>)
    ensures r.Ok? ==> m.JObj? && r.value.JObj?
    ensures r.Ok? ==> forall k :: k != J_PARAMETERS ==> Get(r.value, k) == Get(m, k)
    ensures m.JObj? ==> r == UpdateObjects(m, J_PARAMETERS, RetypeId)
  {
    if !m.JObj? then Err("not an object") else UpdateObjects(m, J_PARAMETERS, RetypeId)
  }

  /** A method: its result, then its parameters. */
  function RetypeMethod(m: Json): (r: Result<Json>)
    ensures r.Ok? ==> r.value.JObj?
    ensures r.Ok? ==> forall k :: k != J_RETURNS && k != J_PARAMETERS ==> Get(r.value, k) == Get(m, k)
    ensures r.Ok? ==> RetypeReturn(m).Ok? && r == RetypeParameters(RetypeReturn(m).value)
  {
    var m1 :- RetypeReturn(m);
    RetypeParameters(m1)
  }

  /** The method and constructor passes over one `yfiles.graphml` type. */
  function RetypeMembers(t: Json): (r: Result<Json>)
    requires t.JObj?
    ensures r.Ok? ==> r.value.JObj?
    ensures r.Ok? ==> forall k :: k != J_METHODS && k != J_CONSTRUCTORS ==> Get(r.value, k) == Get(t, k)
    ensures r.Ok? && Has(t, J_METHODS) ==>
      Objects(t, J_METHODS).Ok? && MapAll(Objects(t, J_METHODS).value, RetypeMethod).Ok? &&
      GetArray(r.value, J_METHODS) == MapAll(Objects(t, J_METHODS).value, RetypeMethod)
    ensures r.Ok? && Has(t, J_CONSTRUCTORS) ==>
      Objects(t, J_CONSTRUCTORS).Ok? && MapAll(Objects(t, J_CONSTRUCTORS).value, RetypeParameters).Ok? &&
      GetArray(r.value, J_CONSTRUCTORS) == MapAll(Objects(t, J_CONSTRUCTORS).value, RetypeParameters)
  {
    var t1 :- UpdateObjects(t, J_METHODS, RetypeMethod);
    SameField(t1, t, J_CONSTRUCTORS);
    UpdateObjects(t1, J_CONSTRUCTORS, RetypeParameters)
  }

  /** The three passes over one `yfiles.graphml` type: its properties, its
      methods and its constructors, each array mapped element by element. */
  function RetypeParts(t: Json): (r: Result<Json>)
    requires t.JObj?
    ensures r.Ok? ==> r.value.JObj?
    ensures r.Ok? ==> forall k :: k != J_PROPERTIES && k != J_METHODS && k != J_CONSTRUCTORS ==> Get(r.value, k) == Get(t, k)
    ensures r.Ok? && Has(t, J_PROPERTIES) ==>
      Objects(t, J_PROPERTIES).Ok? && MapAll(Objects(t, J_PROPERTIES).value, RetypeId).Ok? &&
      GetArray(r.value, J_PROPERTIES) == MapAll(Objects(t, J_PROPERTIES).value, RetypeId)
    ensures r.Ok? && Has(t, J_METHODS) ==>
      Objects(t, J_METHODS).Ok? && MapAll(Objects(t, J_METHODS).value, RetypeMethod).Ok? &&
      GetArray(r.value, J_METHODS) == MapAll(Objects(t, J_METHODS).value, RetypeMethod)
    ensures r.Ok? && Has(t, J_CONSTRUCTORS) ==>
      Objects(t, J_CONSTRUCTORS).Ok? && MapAll(Objects(t, J_CONSTRUCTORS).value, RetypeParameters).Ok? &&
      GetArray(r.value, J_CONSTRUCTORS) == MapAll(Objects(t, J_CONSTRUCTORS).value, RetypeParameters)
  {
    var t1 :- UpdateObjects(t, J_PROPERTIES, RetypeId);
    SameField(t1, t, J_METHODS);
    SameField(t1, t, J_CONSTRUCTORS);
    RetypeMembers(t1)
  }

  /** One type: only those whose id starts with `yfiles.graphml` are
      touched; their properties, methods and constructors are retyped. */
  function RetypeType(t: Json): (r: Result<Json>)
    ensures r.Ok? ==> GetString(t, J_ID).Ok? && t.JObj? && r.value.JObj?
    ensures r.Ok? && !StartsWith(GetString(t, J_ID).value, GRAPHML) ==> r.value == t
    ensures r.Ok? ==> forall k :: k != J_PROPERTIES && k != J_METHODS && k != J_CONSTRUCTORS ==> Get(r.value, k) == Get(t, k)
    ensures r.Ok? && StartsWith(GetString(t, J_ID).value, GRAPHML) && Has(t, J_PROPERTIES) ==>
      Objects(t, J_PROPERTIES).Ok? && MapAll(Objects(t, J_PROPERTIES).value, RetypeId).Ok? &&
      GetArray(r.value, J_PROPERTIES) == MapAll(Objects(t, J_PROPERTIES).value, RetypeId)
    ensures r.Ok? && StartsWith(GetString(t, J_ID).value, GRAPHML) && Has(t, J_METHODS) ==>
      Objects(t, J_METHODS).Ok? && MapAll(Objects(t, J_METHODS).value, RetypeMethod).Ok? &&
      GetArray(r.value, J_METHODS) == MapAll(Objects(t, J_METHODS).value, RetypeMethod)
    ensures r.Ok? && StartsWith(GetString(t, J_ID).value, GRAPHML) && Has(t, J_CONSTRUCTORS) ==>
      Objects(t, J_CONSTRUCTORS).Ok? && MapAll(Objects(t, J_CONSTRUCTORS).value, RetypeParameters).Ok? &&
      GetArray(r.value, J_CONSTRUCTORS) == MapAll(Objects(t, J_CONSTRUCTORS).value, RetypeParameters)
  {
    var id :- GetString(t, J_ID);
    if !StartsWith(id, GRAPHML) then Ok(t) else RetypeParts(t)
  }

  /** `applyElementIdHacks`: every type of the root's `types`. */
  function ApplyElementIdHacks(root: Json): (r: Result<Json>)
    requires root.JObj?
    ensures r.Ok? <==> Objects(root, J_TYPES).Ok? && MapAll(Objects(root, J_TYPES).value, RetypeType).Ok?
    ensures r.Ok? ==> r.value.JObj? && forall k :: k != J_TYPES ==> Get(r.value, k) == Get(root, k)
    ensures r.Ok? ==> GetArray(r.value, J_TYPES) == MapAll(Objects(root, J_TYPES).value, RetypeType)
  {
    var types :- Objects(root, J_TYPES);
    var ys :- MapAll(types, RetypeType);
    Ok(Put(root, J_TYPES, JArr(ys)))
  }

  // ---------------------------------------------------------------------
  // what the hack promises, entry by entry

  /** A property or parameter named like an id and typed `String`. */
  predicate IsIdString(p: Json)
  {
    GetString(p, J_NAME).Ok? && IsIdName(GetString(p, J_NAME).value) && GetString(p, J_TYPE) == Ok(JS_STRING)
  }

  /** In a `yfiles.graphml` type, the j-th property, if it is an id string,
      is an `ElementId` afterwards. */
  lemma IdPropertyRetyped(t: Json, j: int)
    requires RetypeType(t).Ok? && StartsWith(GetString(t, J_ID).value, GRAPHML)
    requires Objects(t, J_PROPERTIES).Ok? && 0 <= j < |Objects(t, J_PROPERTIES).value|
    requires IsIdString(Objects(t, J_PROPERTIES).value[j])
    ensures GetArray(RetypeType(t).value, J_PROPERTIES).Ok?
    ensures |GetArray(RetypeType(t).value, J_PROPERTIES).value| == |Objects(t, J_PROPERTIES).value|
    ensures GetString(GetArray(RetypeType(t).value, J_PROPERTIES).value[j], J_TYPE) == Ok(ELEMENT_ID)
  {
    var ps := Objects(t, J_PROPERTIES).value;
    assert RetypeId(ps[j]) == Ok(GetArray(RetypeType(t).value, J_PROPERTIES).value[j]);
  }

  /** In a `yfiles.graphml` type, the j-th method, if it is named `…Id` and
      returns `String`, returns an `ElementId` afterwards. */
  lemma IdReturnRetyped(t: Json, j: int)
    requires RetypeType(t).Ok? && StartsWith(GetString(t, J_ID).value, GRAPHML)
    requires Objects(t, J_METHODS).Ok? && 0 <= j < |Objects(t, J_METHODS).value|
    requires ReturnsIdString(Objects(t, J_METHODS).value[j])
    ensures GetArray(RetypeType(t).value, J_METHODS).Ok?
    ensures |GetArray(RetypeType(t).value, J_METHODS).value| == |Objects(t, J_METHODS).value|
    ensures var m := GetArray(RetypeType(t).value, J_METHODS).value[j];
      GetObject(m, J_RETURNS).Ok? && GetString(GetObject(m, J_RETURNS).value, J_TYPE) == Ok(ELEMENT_ID)
  {
    var m := Objects(t, J_METHODS).value[j];
    var m' := GetArray(RetypeType(t).value, J_METHODS).value[j];
    assert RetypeMethod(m) == Ok(m');
    assert Get(m', J_RETURNS) == Get(RetypeReturn(m).value, J_RETURNS);
  }

  /** A method's or constructor's l-th parameter, if it is an id string,
      is an `ElementId` afterwards. */
  lemma IdParameterRetyped(m: Json, l: int)
    requires RetypeParameters(m).Ok?
    requires Objects(m, J_PARAMETERS).Ok? && 0 <= l < |Objects(m, J_PARAMETERS).value|
    requires IsIdString(Objects(m, J_PARAMETERS).value[l])
    ensures GetArray(RetypeParameters(m).value, J_PARAMETERS).Ok?
    ensures |GetArray(RetypeParameters(m).value, J_PARAMETERS).value| == |Objects(m, J_PARAMETERS).value|
    ensures GetString(GetArray(RetypeParameters(m).value, J_PARAMETERS).value[l], J_TYPE) == Ok(ELEMENT_ID)
  {
    var ps := Objects(m, J_PARAMETERS).value;
    var ys := MapAll(ps, RetypeId).value;
    assert GetArray(RetypeParameters(m).value, J_PARAMETERS) == Ok(ys);
    assert RetypeId(ps[l]) == Ok(ys[l]);
  }

  /** In a `yfiles.graphml` type, the l-th parameter of the j-th method, if
      it is an id string, is an `ElementId` afterwards. */
  lemma IdMethodParameterRetyped(t: Json, j: int, l: int)
    requires RetypeType(t).Ok? && StartsWith(GetString(t, J_ID).value, GRAPHML)
    requires Objects(t, J_METHODS).Ok? && 0 <= j < |Objects(t, J_METHODS).value|
    requires Objects(Objects(t, J_METHODS).value[j], J_PARAMETERS).Ok?
    requires 0 <= l < |Objects(Objects(t, J_METHODS).value[j], J_PARAMETERS).value|
    requires IsIdString(Objects(Objects(t, J_METHODS).value[j], J_PARAMETERS).value[l])
    ensures GetArray(RetypeType(t).value, J_METHODS).Ok?
    ensures |GetArray(RetypeType(t).value, J_METHODS).value| == |Objects(t, J_METHODS).value|
    ensures var m := GetArray(RetypeType(t).value, J_METHODS).value[j];
      GetArray(m, J_PARAMETERS).Ok? && l < |GetArray(m, J_PARAMETERS).value| &&
      GetString(GetArray(m, J_PARAMETERS).value[l], J_TYPE) == Ok(ELEMENT_ID)
  {
    var m := Objects(t, J_METHODS).value[j];
    var m1 := RetypeReturn(m).value;
    assert RetypeMethod(m) == Ok(GetArray(RetypeType(t).value, J_METHODS).value[j]);
    assert Get(m1, J_PARAMETERS) == Get(m, J_PARAMETERS);
    assert Objects(m1, J_PARAMETERS) == Objects(m, J_PARAMETERS);
    IdParameterRetyped(m1, l);
  }

  /** In a `yfiles.graphml` type, the l-th parameter of the j-th
      constructor, if it is an id string, is an `ElementId` afterwards. */
  lemma IdConstructorParameterRetyped(t: Json, j: int, l: int)
    requires RetypeType(t).Ok? && StartsWith(GetString(t, J_ID).value, GRAPHML)
    requires Objects(t, J_CONSTRUCTORS).Ok? && 0 <= j < |Objects(t, J_CONSTRUCTORS).value|
    requires Objects(Objects(t, J_CONSTRUCTORS).value[j], J_PARAMETERS).Ok?
    requires 0 <= l < |Objects(Objects(t, J_CONSTRUCTORS).value[j], J_PARAMETERS).value|
    requires IsIdString(Objects(Objects(t, J_CONSTRUCTORS).value[j], J_PARAMETERS).value[l])
    ensures GetArray(RetypeType(t).value, J_CONSTRUCTORS).Ok?
    ensures |GetArray(RetypeType(t).value, J_CONSTRUCTORS).value| == |Objects(t, J_CONSTRUCTORS).value|
    ensures var c := GetArray(RetypeType(t).value, J_CONSTRUCTORS).value[j];
      GetArray(c, J_PARAMETERS).Ok? && l < |GetArray(c, J_PARAMETERS).value| &&
      GetString(GetArray(c, J_PARAMETERS).value[l], J_TYPE) == Ok(ELEMENT_ID)
  {
    var cs := Objects(t, J_CONSTRUCTORS).value;
    var ys := MapAll(cs, RetypeParameters).value;
    assert GetArray(RetypeType(t).value, J_CONSTRUCTORS) == Ok(ys);
    assert RetypeParameters(cs[j]) == Ok(ys[j]);
    IdParameterRetyped(cs[j], l);
  }

  /** Through the whole pass: the i-th type of the result is the i-th type
      retyped, so the four lemmas above hold of every `yfiles.graphml` type
      of the root. */
  lemma ApplyElementIdHacksTypes(root: Json, i: int)
    requires root.JObj? && ApplyElementIdHacks(root).Ok?
    requires Objects(root, J_TYPES).Ok? && 0 <= i < |Objects(root, J_TYPES).value|
    ensures RetypeType(Objects(root, J_TYPES).value[i]).Ok?
    ensures GetArray(ApplyElementIdHacks(root).value, J_TYPES).Ok?
    ensures |GetArray(ApplyElementIdHacks(root).value, J_TYPES).value| == |Objects(root, J_TYPES).value|
    ensures GetArray(ApplyElementIdHacks(root).value, J_TYPES).value[i] == RetypeType(Objects(root, J_TYPES).value[i]).value
  {
  }

  // ---------------------------------------------------------------------
  // running the hack again changes nothing

  lemma RetypeIdIdempotent()
    ensures Idempotent(RetypeId)
  {
  }

  lemma RetypeReturnFixed(m: Json)
    requires RetypeReturn(m).Ok?
    ensures RetypeReturn(RetypeReturn(m).value) == RetypeReturn(m)
  {
  }

  /** `RetypeReturn` leaves an object alone depending only on its name and
      its result. */
  lemma RetypeReturnFrame(a: Json, b: Json)
    requires RetypeReturn(a) == Ok(a) && b.JObj?
    requires Get(a, J_NAME) == Get(b, J_NAME) && Get(a, J_RETURNS) == Get(b, J_RETURNS)
    ensures RetypeReturn(b) == Ok(b)
  {
  }

  lemma RetypeParametersIdempotent()
    ensures Idempotent(RetypeParameters)
  {
    forall x, y | RetypeParameters(x) == Ok(y)
      ensures y.JObj? && RetypeParameters(y) == Ok(y)
    {
      RetypeIdIdempotent();
      UpdateIdempotent(x, J_PARAMETERS, RetypeId);
    }
  }

  lemma RetypeMethodIdempotent()
    ensures Idempotent(RetypeMethod)
  {
    forall x, y | RetypeMethod(x) == Ok(y)
      ensures y.JObj? && RetypeMethod(y) == Ok(y)
    {
      var z := RetypeReturn(x).value;
      RetypeReturnFixed(x);
      RetypeReturnFrame(z, y);
      RetypeIdIdempotent();
      UpdateMakesFixed(z, J_PARAMETERS, RetypeId);
      UpdateFixed(y, J_PARAMETERS, RetypeId);
    }
  }

  lemma FixedAtFrame(a: Json, b: Json, k: string, f: Json -> Result<Json>)
    requires FixedAt(a, k, f) && Get(a, k) == Get(b, k)
    ensures FixedAt(b, k, f)
  {
  }

  lemma RetypeTypeFixed(t: Json)
    requires RetypeType(t).Ok?
    ensures RetypeType(RetypeType(t).value) == RetypeType(t)
  {
    var y := RetypeType(t).value;
    var id := GetString(t, J_ID).value;
    if StartsWith(id, GRAPHML) {
      RetypeIdIdempotent();
      RetypeMethodIdempotent();
      RetypeParametersIdempotent();
      var t1 := UpdateObjects(t, J_PROPERTIES, RetypeId).value;
      var t2 := UpdateObjects(t1, J_METHODS, RetypeMethod).value;
      UpdateMakesFixed(t, J_PROPERTIES, RetypeId);
      UpdateMakesFixed(t1, J_METHODS, RetypeMethod);
      UpdateMakesFixed(t2, J_CONSTRUCTORS, RetypeParameters);
      FixedAtFrame(t1, y, J_PROPERTIES, RetypeId);
      FixedAtFrame(t2, y, J_METHODS, RetypeMethod);
      UpdateFixed(y, J_PROPERTIES, RetypeId);
      UpdateFixed(y, J_METHODS, RetypeMethod);
      UpdateFixed(y, J_CONSTRUCTORS, RetypeParameters);
    }
  }

  /** Applying the hack twice is applying it once. */
  lemma ApplyElementIdHacksIdempotent(root: Json)
    requires root.JObj? && ApplyElementIdHacks(root).Ok?
    ensures ApplyElementIdHacks(ApplyElementIdHacks(root).value) == ApplyElementIdHacks(root)
  {
    var once := ApplyElementIdHacks(root).value;
    var types := Objects(root, J_TYPES).value;
    var ys := MapAll(types, RetypeType).value;
    forall i | 0 <= i < |ys|
      ensures RetypeType(ys[i]) == Ok(ys[i])
    {
      RetypeTypeFixed(types[i]);
    }
    MapAllFixed(ys, RetypeType);
    PutSame(once, J_TYPES, JArr(ys));
  }
}
