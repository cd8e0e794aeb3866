/** The editing helpers of the correction passes (`YJson.kt`): modifier
    toggles, type parameters, generic suffixes, and the lookups of methods,
    parameters and object arrays. Each returns the edited object. */
module YJson {
  import opened Wrappers
  import opened Text
  import opened Json

  // ---------------------------------------------------------------------
  // modifiers

  predicate HasModifier(o: Json, m: string)
  {
    GetArray(o, J_MODIFIERS).Ok? && JStr(m) in GetArray(o, J_MODIFIERS).value
  }

  /** `changeModifier(m, value)`: requires `m` to be absent exactly when it
      is to be set; setting appends it, clearing removes its first
      occurrence. */
  function ChangeModifier(o: Json, m: string, value: bool): (r: Result<Json>)
    requires o.JObj?
    ensures r.Ok? <==> GetArray(o, J_MODIFIERS).Ok? && (JStr(m) !in GetArray(o, J_MODIFIERS).value <==> value)
    ensures r.Ok? ==> r.value.JObj? && forall k :: k != J_MODIFIERS ==> Get(r.value, k) == Get(o, k)
    ensures r.Ok? && value ==> GetArray(r.value, J_MODIFIERS) == Ok(GetArray(o, J_MODIFIERS).value + [JStr(m)])
    ensures r.Ok? && !value ==>
      var ms := GetArray(o, J_MODIFIERS).value;
      var i := IndexOfString(ms, m);
      0 <= i && GetArray(r.value, J_MODIFIERS) == Ok(ms[..i] + ms[i + 1..])
  {
    var modifiers :- GetArray(o, J_MODIFIERS);
    var index := IndexOfString(modifiers, m);
    assert index == -1 <==> JStr(m) !in modifiers;
    if (index == -1) != value then Err("Failed requirement.")
    else if value then Ok(Put(o, J_MODIFIERS, JArr(modifiers + [JStr(m)])))
    else Ok(Put(o, J_MODIFIERS, JArr(RemoveAt(modifiers, index))))
  }

  function ChangeNullability(o: Json, nullable: bool): (r: Result<Json>)
    requires o.JObj?
    ensures r.Ok? ==> r.value.JObj? && forall k :: k != J_MODIFIERS ==> Get(r.value, k) == Get(o, k)
    ensures r.Ok? <==> GetArray(o, J_MODIFIERS).Ok? && (HasModifier(o, CANBENULL) <==> !nullable)
  {
    ChangeModifier(o, CANBENULL, nullable)
  }

  function ChangeOptionality(o: Json, optional: bool): (r: Result<Json>)
    requires o.JObj?
    ensures r.Ok? ==> r.value.JObj? && forall k :: k != J_MODIFIERS ==> Get(r.value, k) == Get(o, k)
    ensures r.Ok? <==> GetArray(o, J_MODIFIERS).Ok? && (HasModifier(o, OPTIONAL) <==> !optional)
  {
    ChangeModifier(o, OPTIONAL, optional)
  }

  predicate OccursOnce(xs: seq<Json>, x: Json)
  {
    forall i, j :: 0 <= i < |xs| && 0 <= j < |xs| && xs[i] == x && xs[j] == x ==> i == j
  }

  /** Afterwards the modifier is present exactly when it was set (for a
      modifier listed at most once), and every other modifier is kept. */
  lemma ChangeModifierResult(o: Json, m: string, value: bool, other: string)
    requires o.JObj? && ChangeModifier(o, m, value).Ok?
    requires OccursOnce(GetArray(o, J_MODIFIERS).value, JStr(m))
    requires other != m
    ensures HasModifier(ChangeModifier(o, m, value).value, m) <==> value
    ensures HasModifier(ChangeModifier(o, m, value).value, other) <==> HasModifier(o, other)
  {
    var ms := GetArray(o, J_MODIFIERS).value;
    var r := ChangeModifier(o, m, value).value;
    if !value {
      var i := IndexOfString(ms, m);
      assert GetArray(r, J_MODIFIERS).value == ms[..i] + ms[i + 1..];
      RemoveOnce(ms, i, JStr(m));
      RemoveOnce(ms, i, JStr(other));
    } else {
      assert GetArray(r, J_MODIFIERS).value == ms + [JStr(m)];
    }
  }

  /** Removing the only occurrence of an element keeps exactly the other
      elements. */
  lemma RemoveOnce(ms: seq<Json>, i: nat, x: Json)
    requires i < |ms| && OccursOnce(ms, ms[i])
    ensures x in ms[..i] + ms[i + 1..] <==> x in ms && x != ms[i]
  {
    var rest := ms[..i] + ms[i + 1..];
    if x in rest {
      var k :| 0 <= k < |rest| && rest[k] == x;
      if k < i { assert ms[k] == x; } else { assert ms[k + 1] == x; }
    }
    if x in ms && x != ms[i] {
      var j :| 0 <= j < |ms| && ms[j] == x;
      if j < i { assert rest[j] == x; } else { assert rest[j - 1] == x; }
    }
  }

  /** Setting a modifier twice fails the second time; so does clearing it
      twice, when it was listed once. */
  lemma ChangeModifierTwiceFails(o: Json, m: string, value: bool)
    requires o.JObj? && ChangeModifier(o, m, value).Ok?
    requires OccursOnce(GetArray(o, J_MODIFIERS).value, JStr(m))
    ensures ChangeModifier(ChangeModifier(o, m, value).value, m, value).Err?
  {
    var r := ChangeModifier(o, m, value).value;
    ChangeModifierResult(o, m, value, if m == "" then "x" else "");
    assert (JStr(m) in GetArray(r, J_MODIFIERS).value) <==> value;
  }

  // ---------------------------------------------------------------------
  // type parameters

  /** `typeParameter(name, bound)`: `{name}` with `bounds: [bound]` only when
      a bound is given. */
  function TypeParameter(name: string, bound: Option<string>): (r: Json)
    ensures GetString(r, J_NAME) == Ok(name)
    ensures Has(r, J_BOUNDS) <==> bound.Some?
    ensures bound.Some? ==> Get(r, J_BOUNDS) == Some(JArr([JStr(bound.value)]))
  {
    var o := JObj([Field(J_NAME, JStr(name))]);
    assert Get(o, J_BOUNDS) == None;
    match bound
    case None => o
    case Some(b) => Put(o, J_BOUNDS, JArr([JStr(b)]))
  }

  /** `setSingleTypeParameter(name, bound)`: exactly one type parameter. */
  function SetSingleTypeParameter(o: Json, name: string, bound: Option<string>): (r: Json)
    requires o.JObj?
    ensures GetArray(r, J_TYPE_PARAMETERS) == Ok([TypeParameter(name, bound)])
    ensures forall k :: k != J_TYPE_PARAMETERS ==> Get(r, k) == Get(o, k)
  {
    Put(o, J_TYPE_PARAMETERS, JArr([TypeParameter(name, bound)]))
  }

  /** `addFirstTypeParameter(name, bound)`: the new parameter, then the old
      ones unchanged. */
  function AddFirstTypeParameter(o: Json, name: string, bound: Option<string>): (r: Result<Json>)
    requires o.JObj?
    ensures r.Ok? <==> GetArray(o, J_TYPE_PARAMETERS).Ok?
    ensures r.Ok? ==>
      var before := GetArray(o, J_TYPE_PARAMETERS).value;
      GetArray(r.value, J_TYPE_PARAMETERS).Ok? &&
      |GetArray(r.value, J_TYPE_PARAMETERS).value| == |before| + 1 &&
      GetArray(r.value, J_TYPE_PARAMETERS).value[0] == TypeParameter(name, bound) &&
      GetArray(r.value, J_TYPE_PARAMETERS).value[1..] == before
    ensures r.Ok? ==> forall k :: k != J_TYPE_PARAMETERS ==> Get(r.value, k) == Get(o, k)
  {
    var parameters :- GetArray(o, J_TYPE_PARAMETERS);
    var ps := [TypeParameter(name, bound)] + parameters;
    assert ps[1..] == parameters;
    Ok(Put(o, J_TYPE_PARAMETERS, JArr(ps)))
  }

  /** `setTypeParameters(name1, name2)`: exactly two, without bounds. */
  function SetTypeParameters(o: Json, name1: string, name2: string): (r: Json)
    requires o.JObj?
    ensures GetArray(r, J_TYPE_PARAMETERS).Ok?
    ensures var ps := GetArray(r, J_TYPE_PARAMETERS).value;
      |ps| == 2 && GetString(ps[0], J_NAME) == Ok(name1) && GetString(ps[1], J_NAME) == Ok(name2) &&
      !Has(ps[0], J_BOUNDS) && !Has(ps[1], J_BOUNDS)
    ensures forall k :: k != J_TYPE_PARAMETERS ==> Get(r, k) == Get(o, k)
  {
    Put(o, J_TYPE_PARAMETERS, JArr([TypeParameter(name1, None), TypeParameter(name2, None)]))
  }

  // ---------------------------------------------------------------------
  // generic suffixes

  /** `addGeneric(g)`: `type` becomes `type<g>`. */
  function AddGeneric(o: Json, generic: string): (r: Result<Json>)
    requires o.JObj?
    ensures r.Ok? <==> GetString(o, J_TYPE).Ok?
    ensures r.Ok? ==> GetString(r.value, J_TYPE) == Ok(GetString(o, J_TYPE).value + "<" + generic + ">")
    ensures r.Ok? ==> forall k :: k != J_TYPE ==> Get(r.value, k) == Get(o, k)
  {
    var t :- GetString(o, J_TYPE);
    Ok(Put(o, J_TYPE, JStr(t + "<" + generic + ">")))
  }

  /** `addExtendsGeneric(g)`: the same on `extends`. */
  function AddExtendsGeneric(o: Json, generic: string): (r: Result<Json>)
    requires o.JObj?
    ensures r.Ok? <==> GetString(o, J_EXTENDS).Ok?
    ensures r.Ok? ==> GetString(r.value, J_EXTENDS) == Ok(GetString(o, J_EXTENDS).value + "<" + generic + ">")
    ensures r.Ok? ==> forall k :: k != J_EXTENDS ==> Get(r.value, k) == Get(o, k)
  {
    var t :- GetString(o, J_EXTENDS);
    Ok(Put(o, J_EXTENDS, JStr(t + "<" + generic + ">")))
  }

  /** The suffix can be taken off again: the old type is what precedes the
      last `<`, when the generic holds none. */
  lemma AddGenericRoundTrip(t: string, generic: string)
    requires !Contains(generic, "<")
    ensures LastIndexOf(t + "<" + generic + ">", "<") == |t|
  {
    var s := t + "<" + generic + ">";
    assert OccursAt(s, "<", |t|);
    ContainsIff(generic, "<");
    forall j | |t| < j
      ensures !OccursAt(s, "<", j)
    {
      if j < |s| - 1 {
        assert s[j..j + 1] == generic[j - |t| - 1..j - |t|];
        assert !OccursAt(generic, "<", j - |t| - 1);
      } else if j == |s| - 1 {
        assert s[j..j + 1] == ">";
      }
    }
  }

  // ---------------------------------------------------------------------
  // lookups

  /** `optJsequence(k)` on each object in turn (`optionalArray` on a
      sequence): objects without `k` contribute nothing. */
  function FlatOptObjects(xs: seq<Json>, k: string): (r: Result<seq<Json>>)
    ensures (forall i :: 0 <= i < |xs| ==> !Has(xs[i], k)) ==> r == Ok([])
    ensures r.Ok? ==> AllObjects(r.value)
    ensures r.Ok? <==> forall i :: 0 <= i < |xs| ==> OptObjects(xs[i], k).Ok?
  {
    if |xs| == 0 then Ok([])
    else
      var head :- OptObjects(xs[0], k);
      var rest :- FlatOptObjects(xs[1..], k);
      assert forall i :: 1 <= i < |xs| ==> xs[i] == xs[1..][i - 1];
      Ok(head + rest)
  }

  /** `flatMap` keeps order: the arrays of a concatenation are the arrays
      of each part, one after the other. */
  lemma FlatOptObjectsAppend(a: seq<Json>, b: seq<Json>, k: string)
    ensures FlatOptObjects(a + b, k).Ok? <==> FlatOptObjects(a, k).Ok? && FlatOptObjects(b, k).Ok?
    ensures FlatOptObjects(a + b, k).Ok? ==>
      FlatOptObjects(a + b, k).value == FlatOptObjects(a, k).value + FlatOptObjects(b, k).value
  {
    var f := (x: Json) => OptObjects(x, k);
    FlatOptObjectsFlat(a + b, k, f);
    FlatOptObjectsFlat(a, k, f);
    FlatOptObjectsFlat(b, k, f);
    FlatMapAppend(a, b, f);
  }

  lemma {:induction false} FlatOptObjectsFlat(xs: seq<Json>, k: string, f: Json -> Result<seq<Json>>)
    requires forall x :: f(x) == OptObjects(x, k)
    ensures FlatOptObjects(xs, k) == FlatMap(xs, f)
    decreases |xs|
  {
    if |xs| > 0 {
      FlatOptObjectsFlat(xs[1..], k, f);
    }
  }

  /** One object contributes its own array. */
  lemma FlatOptObjectsOne(x: Json, k: string)
    ensures FlatOptObjects([x], k) == OptObjects(x, k)
  {
    assert [x][1..] == [];
    if OptObjects(x, k).Ok? {
      assert OptObjects(x, k).value + [] == OptObjects(x, k).value;
    }
  }

  /** `allMethodParameters()`: the parameters of every instance and static
      method. */
  function AllMethodParameters(o: Json): (r: Result<seq<Json>>)
    ensures !Has(o, J_METHODS) && !Has(o, J_STATIC_METHODS) ==> r == Ok([])
    ensures r.Ok? ==> AllObjects(r.value)
    ensures OptObjects(o, J_METHODS).Err? || OptObjects(o, J_STATIC_METHODS).Err? ==> r.Err?
    ensures OptObjects(o, J_METHODS).Ok? && OptObjects(o, J_STATIC_METHODS).Ok? ==>
      var ms := FlatOptObjects(OptObjects(o, J_METHODS).value, J_PARAMETERS);
      var ss := FlatOptObjects(OptObjects(o, J_STATIC_METHODS).value, J_PARAMETERS);
      (r.Ok? <==> ms.Ok? && ss.Ok?) && (r.Ok? ==> r.value == ms.value + ss.value)
  {
    var methods :- OptObjects(o, J_METHODS);
    var statics :- OptObjects(o, J_STATIC_METHODS);
    FlatOptObjectsAppend(methods, statics, J_PARAMETERS);
    FlatOptObjects(methods + statics, J_PARAMETERS)
  }

  /** The parameters named `parameterName` of one method that pass the
      filter. */
  function MatchingParameters(m: Json, parameterName: string, keep: Json -> bool): (r: Result<seq<Json>>)
    ensures r.Ok? ==> forall p :: p in r.value ==> GetString(p, J_NAME) == Ok(parameterName) && keep(p) && p.JObj?
    ensures r.Ok? ==> Objects(m, J_PARAMETERS).Ok? && forall p :: p in r.value ==> p in Objects(m, J_PARAMETERS).value
    ensures r.Ok? <==> Objects(m, J_PARAMETERS).Ok? && NamedObjects(Objects(m, J_PARAMETERS).value, parameterName).Ok?
    ensures r.Ok? ==> forall p :: p in Objects(m, J_PARAMETERS).value && GetString(p, J_NAME) == Ok(parameterName) && keep(p) ==>
      p in r.value
    ensures r.Ok? ==> r.value == FilterJson(NamedObjects(Objects(m, J_PARAMETERS).value, parameterName).value, keep)
  {
    var ps :- Objects(m, J_PARAMETERS);
    var named :- NamedObjects(ps, parameterName);
    Ok(FilterJson(named, keep))
  }

  /** `objects { it.getString(J_NAME) == name }`: every object is asked its
      name, so a nameless one fails. */
  function NamedObjects(xs: seq<Json>, name: string): (r: Result<seq<Json>>)
    ensures r.Ok? <==> forall i :: 0 <= i < |xs| ==> GetString(xs[i], J_NAME).Ok?
    ensures r.Ok? ==> forall x :: x in r.value <==> x in xs && GetString(x, J_NAME) == Ok(name)
  {
    if |xs| == 0 then Ok([])
    else
      var n := GetString(xs[0], J_NAME);
      var rest := NamedObjects(xs[1..], name);
      assert forall i :: 1 <= i < |xs| ==> xs[i] == xs[1..][i - 1];
      assert forall x :: x in xs <==> x == xs[0] || x in xs[1..];
      if n.Err? then Err(n.msg)
      else if rest.Err? then Err(rest.msg)
      else if n.value == name then Ok([xs[0]] + rest.value)
      else Ok(rest.value)
  }

  /** Selecting by name keeps order: the named objects of a concatenation
      are those of each part, one after the other. */
  lemma {:induction false} NamedObjectsAppend(a: seq<Json>, b: seq<Json>, name: string)
    ensures NamedObjects(a + b, name).Ok? <==> NamedObjects(a, name).Ok? && NamedObjects(b, name).Ok?
    ensures NamedObjects(a + b, name).Ok? ==>
      NamedObjects(a + b, name).value == NamedObjects(a, name).value + NamedObjects(b, name).value
    decreases |a|
  {
    if |a| == 0 {
      assert a + b == b;
    } else {
      assert (a + b)[0] == a[0] && (a + b)[1..] == a[1..] + b;
      NamedObjectsAppend(a[1..], b, name);
      if GetString(a[0], J_NAME).Ok? && NamedObjects(a + b, name).Ok? {
        var rest := NamedObjects(a[1..], name).value;
        if GetString(a[0], J_NAME).value == name {
          assert NamedObjects(a, name).value == [a[0]] + rest;
          assert [a[0]] + (rest + NamedObjects(b, name).value) == [a[0]] + rest + NamedObjects(b, name).value;
        }
      }
    }
  }

  function FilterJson(xs: seq<Json>, keep: Json -> bool): (r: seq<Json>)
    ensures forall x :: x in r <==> x in xs && keep(x)
  {
    if |xs| == 0 then []
    else
      var rest := FilterJson(xs[1..], keep);
      assert forall x :: x in xs <==> x == xs[0] || x in xs[1..];
      if keep(xs[0]) then [xs[0]] + rest else rest
  }

  /** `filter` keeps order. */
  lemma {:induction false} FilterJsonAppend(a: seq<Json>, b: seq<Json>, keep: Json -> bool)
    ensures FilterJson(a + b, keep) == FilterJson(a, keep) + FilterJson(b, keep)
    decreases |a|
  {
    if |a| == 0 {
      assert a + b == b;
    } else {
      assert (a + b)[0] == a[0] && (a + b)[1..] == a[1..] + b;
      FilterJsonAppend(a[1..], b, keep);
    }
  }

  /** The matching parameters of every method named `methodName`, in order. */
  function ParametersOf(methods: seq<Json>, parameterName: string, keep: Json -> bool): (r: Result<seq<Json>>)
    ensures r.Ok? ==> forall p :: p in r.value ==>
      GetString(p, J_NAME) == Ok(parameterName) && keep(p) &&
      exists i :: 0 <= i < |methods| && Objects(methods[i], J_PARAMETERS).Ok? && p in Objects(methods[i], J_PARAMETERS).value
    ensures r.Ok? <==> forall i :: 0 <= i < |methods| ==> MatchingParameters(methods[i], parameterName, keep).Ok?
    ensures r.Ok? ==> forall i, p :: 0 <= i < |methods| && p in MatchingParameters(methods[i], parameterName, keep).value ==>
      p in r.value
  {
    if |methods| == 0 then Ok([])
    else
      var head :- MatchingParameters(methods[0], parameterName, keep);
      var rest :- ParametersOf(methods[1..], parameterName, keep);
      assert forall i :: 1 <= i < |methods| ==> methods[i] == methods[1..][i - 1];
      Ok(head + rest)
  }

  /** The parameters of several methods are listed method by method. */
  lemma ParametersOfAppend(a: seq<Json>, b: seq<Json>, parameterName: string, keep: Json -> bool)
    ensures ParametersOf(a + b, parameterName, keep).Ok? <==>
      ParametersOf(a, parameterName, keep).Ok? && ParametersOf(b, parameterName, keep).Ok?
    ensures ParametersOf(a + b, parameterName, keep).Ok? ==>
      ParametersOf(a + b, parameterName, keep).value ==
        ParametersOf(a, parameterName, keep).value + ParametersOf(b, parameterName, keep).value
  {
    var f := (m: Json) => MatchingParameters(m, parameterName, keep);
    ParametersOfFlat(a + b, parameterName, keep, f);
    ParametersOfFlat(a, parameterName, keep, f);
    ParametersOfFlat(b, parameterName, keep, f);
    FlatMapAppend(a, b, f);
  }

  lemma {:induction false} ParametersOfFlat(ms: seq<Json>, parameterName: string, keep: Json -> bool,
                                            f: Json -> Result<seq<Json>>)
    requires forall m :: f(m) == MatchingParameters(m, parameterName, keep)
    ensures ParametersOf(ms, parameterName, keep) == FlatMap(ms, f)
    decreases |ms|
  {
    if |ms| > 0 {
      ParametersOfFlat(ms[1..], parameterName, keep, f);
      ParametersOfCons(ms, parameterName, keep);
    }
  }

  lemma ParametersOfCons(ms: seq<Json>, parameterName: string, keep: Json -> bool)
    requires |ms| > 0
    ensures ParametersOf(ms, parameterName, keep).Ok? <==>
      MatchingParameters(ms[0], parameterName, keep).Ok? && ParametersOf(ms[1..], parameterName, keep).Ok?
    ensures ParametersOf(ms, parameterName, keep).Ok? ==>
      ParametersOf(ms, parameterName, keep).value ==
        MatchingParameters(ms[0], parameterName, keep).value + ParametersOf(ms[1..], parameterName, keep).value
  {
  }

  /** `methodParameters(methodName, parameterName, filter)`: the parameters
      named `parameterName` of the methods named `methodName` that pass the
      filter; finding none fails. */
  function MethodParameters(o: Json, methodName: string, parameterName: string, keep: Json -> bool): (r: Result<seq<Json>>)
    ensures r.Ok? ==> |r.value| > 0
    ensures r.Ok? ==> Objects(o, J_METHODS).Ok?
    ensures r.Ok? ==> forall p :: p in r.value ==>
      GetString(p, J_NAME) == Ok(parameterName) && keep(p) &&
      exists m :: m in Objects(o, J_METHODS).value && GetString(m, J_NAME) == Ok(methodName) &&
        Objects(m, J_PARAMETERS).Ok? && p in Objects(m, J_PARAMETERS).value
    ensures r.Ok? ==> NamedObjects(Objects(o, J_METHODS).value, methodName).Ok?
    ensures r.Ok? ==> ParametersOf(NamedObjects(Objects(o, J_METHODS).value, methodName).value, parameterName, keep) == r
    ensures r.Ok? ==> HoldsEveryMatch(o, methodName, parameterName, keep, r.value)
  {
    var all :- Objects(o, J_METHODS);
    var methods :- NamedObjects(all, methodName);
    var result :- ParametersOf(methods, parameterName, keep);
    CollectsEveryMatch(o, all, methods, result, methodName, parameterName, keep);
    if |result| == 0 then
      Err("No method parameters found for object, method: " + methodName + ", parameter: " + parameterName)
    else Ok(result)
  }

  /** `p` is a parameter named `parameterName` of the method `m` named
      `methodName`, and passes the filter. */
  predicate IsMatch(m: Json, p: Json, methodName: string, parameterName: string, keep: Json -> bool)
  {
    GetString(m, J_NAME) == Ok(methodName) && Objects(m, J_PARAMETERS).Ok? &&
    p in Objects(m, J_PARAMETERS).value && GetString(p, J_NAME) == Ok(parameterName) && keep(p)
  }

  /** Every matching parameter of every method of `o` is in `ps`. */
  ghost predicate HoldsEveryMatch(o: Json, methodName: string, parameterName: string, keep: Json -> bool, ps: seq<Json>)
  {
    Objects(o, J_METHODS).Ok? &&
    forall m, p :: m in Objects(o, J_METHODS).value && IsMatch(m, p, methodName, parameterName, keep) ==> p in ps
  }

  lemma CollectsEveryMatch(o: Json, all: seq<Json>, methods: seq<Json>, result: seq<Json>,
                           methodName: string, parameterName: string, keep: Json -> bool)
    requires Objects(o, J_METHODS) == Ok(all)
    requires NamedObjects(all, methodName) == Ok(methods)
    requires ParametersOf(methods, parameterName, keep) == Ok(result)
    ensures HoldsEveryMatch(o, methodName, parameterName, keep, result)
  {
    forall m, p | m in all && IsMatch(m, p, methodName, parameterName, keep)
      ensures p in result
    {
      assert m in methods;
      var i :| 0 <= i < |methods| && methods[i] == m;
      assert MatchingParameters(methods[i], parameterName, keep).Ok?;
    }
  }

  /** The position of the first object whose name is one of `names`; an
      element before it that is not an object or has no name fails, as the
      lazy cast and `getString` do. */
  function FirstNameIn(xs: seq<Json>, names: set<string>): (r: Result<int>)
    ensures r.Ok? ==> 0 <= r.value < |xs| && GetString(xs[r.value], J_NAME).Ok?
    ensures r.Ok? ==> GetString(xs[r.value], J_NAME).value in names
    ensures r.Ok? ==> forall i :: 0 <= i < r.value ==>
      GetString(xs[i], J_NAME).Ok? && GetString(xs[i], J_NAME).value !in names
    ensures (forall i :: 0 <= i < |xs| ==> GetString(xs[i], J_NAME).Ok?) ==>
              (r.Ok? <==> exists i :: 0 <= i < |xs| && GetString(xs[i], J_NAME).value in names)
  {
    if |xs| == 0 then Err("Sequence contains no element matching the predicate.")
    else
      var n := GetString(xs[0], J_NAME);
      if n.Err? then Err(n.msg)
      else if n.value in names then Ok(0)
      else
        var r := FirstNameIn(xs[1..], names);
        assert forall i :: 1 <= i < |xs| ==> xs[i] == xs[1..][i - 1];
        if r.Err? then Err(r.msg) else Ok(r.value + 1)
  }

  const TYPE_PARAMETER_NAMES: set<string> := {"type", "tType", "itemType"}

  /** `typeParameter`: the first parameter named `type`, `tType` or
      `itemType`. */
  function TypeParameterOf(o: Json): (r: Result<Json>)
    ensures r.Ok? ==> GetArray(o, J_PARAMETERS).Ok? && r.value in GetArray(o, J_PARAMETERS).value
    ensures r.Ok? ==> GetString(r.value, J_NAME).Ok? && GetString(r.value, J_NAME).value in TYPE_PARAMETER_NAMES
    ensures r.Ok? <==> GetArray(o, J_PARAMETERS).Ok? && FirstNameIn(GetArray(o, J_PARAMETERS).value, TYPE_PARAMETER_NAMES).Ok?
    ensures r.Ok? ==>
      var ps := GetArray(o, J_PARAMETERS).value;
      r.value == ps[FirstNameIn(ps, TYPE_PARAMETER_NAMES).value]
  {
    var ps :- GetArray(o, J_PARAMETERS);
    var i :- FirstNameIn(ps, TYPE_PARAMETER_NAMES);
    Ok(ps[i])
  }

  /** `parameter(name)`: the first parameter with that name. */
  function ParameterNamed(o: Json, name: string): (r: Result<Json>)
    ensures r.Ok? ==> GetArray(o, J_PARAMETERS).Ok? && r.value in GetArray(o, J_PARAMETERS).value
    ensures r.Ok? ==> GetString(r.value, J_NAME) == Ok(name)
    ensures r.Ok? <==> GetArray(o, J_PARAMETERS).Ok? && FirstNameIn(GetArray(o, J_PARAMETERS).value, {name}).Ok?
    ensures r.Ok? ==>
      var ps := GetArray(o, J_PARAMETERS).value;
      r.value == ps[FirstNameIn(ps, {name}).value]
  {
    var ps :- GetArray(o, J_PARAMETERS);
    var i :- FirstNameIn(ps, {name});
    Ok(ps[i])
  }

  /** `firstParameter` / `secondParameter`: the parameter at a position,
      which must exist and be an object. */
  function ParameterAt(o: Json, i: nat): (r: Result<Json>)
    ensures r.Ok? <==> GetArray(o, J_PARAMETERS).Ok? && i < |GetArray(o, J_PARAMETERS).value| &&
                       GetArray(o, J_PARAMETERS).value[i].JObj?
    ensures r.Ok? ==> r.value == GetArray(o, J_PARAMETERS).value[i]
  {
    var ps :- GetArray(o, J_PARAMETERS);
    if i < |ps| && ps[i].JObj? then Ok(ps[i]) else Err("Invalid parameter index")
  }

  /** `method(name)`, `staticMethod(name)`, `property(name)`: the first
      member of the array under `k` with that name. */
  function MemberNamed(o: Json, k: string, name: string): (r: Result<Json>)
    ensures r.Ok? ==> GetArray(o, k).Ok? && r.value in GetArray(o, k).value
    ensures r.Ok? ==> GetString(r.value, J_NAME) == Ok(name)
    ensures GetArray(o, k).Ok? && (forall x :: x in GetArray(o, k).value ==> GetString(x, J_NAME).Ok?) ==>
              (r.Ok? <==> exists x :: x in GetArray(o, k).value && GetString(x, J_NAME) == Ok(name))
    ensures r.Ok? <==> GetArray(o, k).Ok? && FirstNamed(GetArray(o, k).value, name).Ok?
    ensures r.Ok? ==> r.value == GetArray(o, k).value[FirstNamed(GetArray(o, k).value, name).value]
  {
    var xs :- GetArray(o, k);
    var i :- FirstNamed(xs, name);
    Ok(xs[i])
  }

  predicate IsReadOnlyProperty(p: Json, name: string, t: string)
  {
    GetString(p, J_NAME) == Ok(name) && GetString(p, J_TYPE) == Ok(t) &&
    GetArray(p, J_MODIFIERS) == Ok([JStr(PUBLIC), JStr(FINAL), JStr(RO)])
  }

  /** `addProperty(name, type)`: a public final read-only property goes at
      the end of `properties`. */
  function AddProperty(o: Json, name: string, t: string): (r: Result<Json>)
    requires o.JObj?
    ensures r.Ok? <==> GetArray(o, J_PROPERTIES).Ok?
    ensures r.Ok? ==>
      var ps := GetArray(r.value, J_PROPERTIES);
      ps.Ok? && |ps.value| == |GetArray(o, J_PROPERTIES).value| + 1 &&
      ps.value[..|ps.value| - 1] == GetArray(o, J_PROPERTIES).value &&
      IsReadOnlyProperty(ps.value[|ps.value| - 1], name, t)
    ensures r.Ok? ==> forall k :: k != J_PROPERTIES ==> Get(r.value, k) == Get(o, k)
  {
    var ps :- GetArray(o, J_PROPERTIES);
    var p0 := Put(JObj([]), J_NAME, JStr(name));
    var p1 := Put(p0, J_MODIFIERS, JArr([JStr(PUBLIC), JStr(FINAL), JStr(RO)]));
    var p := Put(p1, J_TYPE, JStr(t));
    assert IsReadOnlyProperty(p, name, t);
    var ps' := ps + [p];
    assert ps'[..|ps'| - 1] == ps;
    Ok(Put(o, J_PROPERTIES, JArr(ps')))
  }
}
