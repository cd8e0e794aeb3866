/** `ComparableHacks.kt`: `IComparable` gets a type parameter `T`, and the
    value types that implement it are made to implement
    `IComparable<Self>`; in each, the single `compareTo` method takes a
    non-null `other` of that type. */
module ComparableHacks {
  import opened Wrappers
  import opened Json
  import opened YJson
  import opened Seqs

  const COMPARE_TO := "compareTo"
  const OTHER := "other"
  const ICOMPARABLE_NAME := "IComparable"

  /** The value types patched, in the order they are patched. */
  const COMPARABLE_TYPES: seq<string> :=
    ["ColumnDescriptor", "PartitionCellIdEntry", "RowDescriptor", "SnapResult",
     "SwimlaneDescriptor", "TimeSpan", "YDimension", "YPoint"]

  predicate NamedAt(xs: seq<Json>, name: string, j: int)
  {
    0 <= j < |xs| && GetString(xs[j], J_NAME) == Ok(name)
  }

  /** `filter { name == … }.singleOrNull()` from position `i` on, `found`
      being the match seen so far: a second match ends the walk with no
      result; a nameless element before that fails. */
  function SingleFrom(xs: seq<Json>, name: string, i: nat, found: Option<nat>): (r: Result<Option<nat>>)
    requires i <= |xs|
    requires found.Some? ==> found.value < i && NamedAt(xs, name, found.value)
    requires forall j :: 0 <= j < i && (found.None? || j != found.value) ==> !NamedAt(xs, name, j)
    ensures r.Ok? && r.value.Some? ==>
      NamedAt(xs, name, r.value.value) && forall j :: 0 <= j < |xs| && j != r.value.value ==> !NamedAt(xs, name, j)
    ensures r == Ok(None) ==>
      (forall j :: 0 <= j < |xs| ==> !NamedAt(xs, name, j)) ||
      exists j1, j2 :: j1 < j2 && NamedAt(xs, name, j1) && NamedAt(xs, name, j2)
    ensures (forall j :: 0 <= j < |xs| ==> GetString(xs[j], J_NAME).Ok?) ==> r.Ok?
    decreases |xs| - i
  {
    if i == |xs| then Ok(found)
    else
      var n := GetString(xs[i], J_NAME);
      if n.Err? then Err(n.msg)
      else if n.value == name then
        if found.Some? then
          assert NamedAt(xs, name, found.value) && NamedAt(xs, name, i);
          Ok(None)
        else SingleFrom(xs, name, i + 1, Some(i))
      else SingleFrom(xs, name, i + 1, found)
  }

  /** The position of the only element with that name, if exactly one has
      it. */
  function SingleNamed(xs: seq<Json>, name: string): (r: Result<Option<nat>>)
    ensures r.Ok? && r.value.Some? ==>
      NamedAt(xs, name, r.value.value) && forall j :: 0 <= j < |xs| && j != r.value.value ==> !NamedAt(xs, name, j)
    ensures r == Ok(None) ==>
      (forall j :: 0 <= j < |xs| ==> !NamedAt(xs, name, j)) ||
      exists j1, j2 :: j1 < j2 && NamedAt(xs, name, j1) && NamedAt(xs, name, j2)
    ensures (forall j :: 0 <= j < |xs| ==> GetString(xs[j], J_NAME).Ok?) ==> r.Ok?
  {
    SingleFrom(xs, name, 0, None)
  }

  /** The first parameter of `m'` is that of `m` renamed `other`, retyped
      to `t` and made non-null; everything else about the method stays. */
  ghost predicate CompareToConfigured(m: Json, m': Json, t: string)
  {
    ParameterAt(m, 0).Ok? && ParameterAt(m', 0).Ok? &&
    HasModifier(ParameterAt(m, 0).value, CANBENULL) &&
    OtherParameter(ParameterAt(m, 0).value, t) == Ok(ParameterAt(m', 0).value) &&
    GetString(ParameterAt(m', 0).value, J_NAME) == Ok(OTHER) &&
    GetString(ParameterAt(m', 0).value, J_TYPE) == Ok(t) &&
    GetArray(m', J_PARAMETERS).value == GetArray(m, J_PARAMETERS).value[0 := ParameterAt(m', 0).value] &&
    forall k :: k != J_PARAMETERS ==> Get(m', k) == Get(m, k)
  }

  /** A parameter renamed `other` and retyped to `t`. */
  function Renamed(p: Json, t: string): (r: Json)
    requires p.JObj?
    ensures r.JObj? && GetString(r, J_NAME) == Ok(OTHER) && GetString(r, J_TYPE) == Ok(t)
    ensures Get(r, J_MODIFIERS) == Get(p, J_MODIFIERS)
  {
    Put(Put(p, J_NAME, JStr(OTHER)), J_TYPE, JStr(t))
  }

  /** One parameter renamed `other`, retyped to `t` and made non-null,
      which requires it to have been nullable. */
  function OtherParameter(p: Json, t: string): (r: Result<Json>)
    requires p.JObj?
    ensures r.Ok? ==> r.value.JObj? && HasModifier(p, CANBENULL)
    ensures r.Ok? ==> GetString(r.value, J_NAME) == Ok(OTHER) && GetString(r.value, J_TYPE) == Ok(t)
  {
    ChangeNullability(Renamed(p, t), false)
  }

  /** The method with its first parameter replaced by `p'`. */
  function WithFirstParameter(m: Json, p': Json): (r: Json)
    requires ParameterAt(m, 0).Ok? && p'.JObj?
    ensures r.JObj? && ParameterAt(r, 0) == Ok(p')
    ensures GetArray(r, J_PARAMETERS).value == GetArray(m, J_PARAMETERS).value[0 := p']
    ensures forall k :: k != J_PARAMETERS ==> Get(r, k) == Get(m, k)
  {
    var ps := GetArray(m, J_PARAMETERS).value;
    Put(m, J_PARAMETERS, JArr(ps[0 := p']))
  }

  /** The first parameter of one method, renamed, retyped and made
      non-null. */
  function ConfigureParameter(m: Json, t: string): (r: Result<Json>)
    ensures r.Ok? ==> r.value.JObj? && CompareToConfigured(m, r.value, t)
  {
    var p := ParameterAt(m, 0);
    if p.Err? then Err(p.msg)
    else
      var p' := OtherParameter(p.value, t);
      if p'.Err? then Err(p'.msg)
      else Ok(WithFirstParameter(m, p'.value))
  }

  /** The configured parameter is no longer nullable (when it was marked
      nullable once), and its other modifiers are kept. */
  lemma ConfigureParameterNonNull(m: Json, t: string, other: string)
    requires ConfigureParameter(m, t).Ok?
    requires OccursOnce(GetArray(ParameterAt(m, 0).value, J_MODIFIERS).value, JStr(CANBENULL))
    requires other != CANBENULL
    ensures var p' := ParameterAt(ConfigureParameter(m, t).value, 0).value;
      !HasModifier(p', CANBENULL) &&
      (HasModifier(p', other) <==> HasModifier(ParameterAt(m, 0).value, other))
  {
    CompareToConfiguredNonNull(m, ConfigureParameter(m, t).value, t, other);
  }

  /** Wherever a method is configured, its first parameter is no longer
      nullable (when it was marked nullable once), and its other modifiers
      are kept. */
  lemma CompareToConfiguredNonNull(m: Json, m': Json, t: string, other: string)
    requires CompareToConfigured(m, m', t)
    requires OccursOnce(GetArray(ParameterAt(m, 0).value, J_MODIFIERS).value, JStr(CANBENULL))
    requires other != CANBENULL
    ensures var p' := ParameterAt(m', 0).value;
      !HasModifier(p', CANBENULL) &&
      (HasModifier(p', other) <==> HasModifier(ParameterAt(m, 0).value, other))
  {
    var p := ParameterAt(m, 0).value;
    assert Get(Renamed(p, t), J_MODIFIERS) == Get(p, J_MODIFIERS);
    ChangeModifierResult(Renamed(p, t), CANBENULL, false, other);
  }

  /** The method at `i` of the object's methods, configured in place. */
  function ConfigureMethodAt(o: Json, ms: seq<Json>, i: nat, t: string): (r: Result<Json>)
    requires o.JObj? && i < |ms|
    ensures r.Ok? ==> r.value.JObj? && forall k :: k != J_METHODS ==> Get(r.value, k) == Get(o, k)
    ensures r.Ok? ==>
      var ms' := GetArray(r.value, J_METHODS);
      ms'.Ok? && |ms'.value| == |ms| && ms'.value == ms[i := ms'.value[i]] &&
      CompareToConfigured(ms[i], ms'.value[i], t)
  {
    var m' :- ConfigureParameter(ms[i], t);
    Ok(Put(o, J_METHODS, JArr(ms[i := m'])))
  }

  /** `configureCompareTo(type)`: only when exactly one method is named
      `compareTo` is it changed. */
  function ConfigureCompareTo(o: Json, t: string): (r: Result<Json>)
    requires o.JObj?
    ensures r.Ok? ==> r.value.JObj? && forall k :: k != J_METHODS ==> Get(r.value, k) == Get(o, k)
    ensures r.Ok? ==> Objects(o, J_METHODS).Ok? && SingleNamed(Objects(o, J_METHODS).value, COMPARE_TO).Ok?
    ensures r.Ok? && SingleNamed(Objects(o, J_METHODS).value, COMPARE_TO).value.None? ==> r.value == o
    ensures r.Ok? && SingleNamed(Objects(o, J_METHODS).value, COMPARE_TO).value.Some? ==>
      var ms := Objects(o, J_METHODS).value;
      r == ConfigureMethodAt(o, ms, SingleNamed(ms, COMPARE_TO).value.value, t)
  {
    var methods :- Objects(o, J_METHODS);
    var single :- SingleNamed(methods, COMPARE_TO);
    match single
    case None => Ok(o)
    case Some(i) => ConfigureMethodAt(o, methods, i, t)
  }

  /** What `configureCompareTo(t)` made of `o` in `o'`, read off `o`'s
      methods: nothing changed when `compareTo` is not the name of exactly
      one method, otherwise that method alone is configured for `t`. */
  ghost predicate CompareToDone(o: Json, o': Json, t: string)
  {
    Objects(o, J_METHODS).Ok? && SingleNamed(Objects(o, J_METHODS).value, COMPARE_TO).Ok? &&
    var ms := Objects(o, J_METHODS).value;
    match SingleNamed(ms, COMPARE_TO).value
    case None => Get(o', J_METHODS) == Get(o, J_METHODS)
    case Some(i) =>
      var ms' := GetArray(o', J_METHODS);
      ms'.Ok? && |ms'.value| == |ms| && ms'.value == ms[i := ms'.value[i]] &&
      CompareToConfigured(ms[i], ms'.value[i], t)
  }

  lemma ConfigureCompareToDone(o: Json, t: string)
    requires o.JObj? && ConfigureCompareTo(o, t).Ok?
    ensures CompareToDone(o, ConfigureCompareTo(o, t).value, t)
  {
  }

  /** Only the methods of the object before the edit matter. */
  lemma CompareToDoneFrame(o: Json, o1: Json, o': Json, t: string)
    requires Get(o1, J_METHODS) == Get(o, J_METHODS) && CompareToDone(o1, o', t)
    ensures CompareToDone(o, o', t)
  {
    assert GetArray(o1, J_METHODS) == GetArray(o, J_METHODS);
  }

  /** `source.type(name)`: the position of the first type with that name. */
  function TypeIndex(root: Json, name: string): (r: Result<nat>)
    ensures r.Ok? ==> GetArray(root, J_TYPES).Ok? && NamedAt(GetArray(root, J_TYPES).value, name, r.value)
    ensures r.Ok? ==> forall i :: 0 <= i < r.value ==>
      GetString(GetArray(root, J_TYPES).value[i], J_NAME).Ok? && GetString(GetArray(root, J_TYPES).value[i], J_NAME) != Ok(name)
    ensures r.Ok? <==> GetArray(root, J_TYPES).Ok? && FirstNamed(GetArray(root, J_TYPES).value, name).Ok?
  {
    var types :- GetArray(root, J_TYPES);
    var i :- FirstNamed(types, name);
    Ok(i)
  }

  /** `IComparable` gets the single type parameter `T`, and its
      `compareTo` takes a non-null `other: T`. */
  function ConfigureIComparable(root: Json): (r: Result<Json>)
    requires root.JObj?
    ensures r.Ok? ==> r.value.JObj? && forall k :: k != J_TYPES ==> Get(r.value, k) == Get(root, k)
    ensures r.Ok? ==> TypeIndex(root, ICOMPARABLE_NAME).Ok?
    ensures r.Ok? ==>
      var types := GetArray(root, J_TYPES).value;
      var i := TypeIndex(root, ICOMPARABLE_NAME).value;
      var types' := GetArray(r.value, J_TYPES);
      types'.Ok? && |types'.value| == |types| && types'.value == types[i := types'.value[i]] &&
      GetArray(types'.value[i], J_TYPE_PARAMETERS) == Ok([TypeParameter("T", None)]) &&
      types[i].JObj? && ConfigureIComparableType(types[i]) == Ok(types'.value[i])
  {
    var i :- TypeIndex(root, ICOMPARABLE_NAME);
    var t :- ConfigureIComparableType(GetArray(root, J_TYPES).value[i]);
    Ok(ReplaceType(root, i, t))
  }

  /** The `IComparable` type itself. */
  function ConfigureIComparableType(t: Json): (r: Result<Json>)
    requires t.JObj?
    ensures r.Ok? ==> r.value.JObj? && GetArray(r.value, J_TYPE_PARAMETERS) == Ok([TypeParameter("T", None)])
    ensures r.Ok? ==> forall k :: k != J_TYPE_PARAMETERS && k != J_METHODS ==> Get(r.value, k) == Get(t, k)
  {
    var t1 := SetSingleTypeParameter(t, "T", None);
    assert t1.JObj?;
    var r := ConfigureCompareTo(t1, "T");
    assert J_TYPE_PARAMETERS != J_METHODS;
    assert r.Ok? ==> Get(r.value, J_TYPE_PARAMETERS) == Get(t1, J_TYPE_PARAMETERS);
    r
  }

  /** Besides its type parameter, `IComparable` has its `compareTo`
      configured for `T`. */
  lemma IComparableCompareTo(t: Json)
    requires t.JObj? && ConfigureIComparableType(t).Ok?
    ensures CompareToDone(t, ConfigureIComparableType(t).value, "T")
  {
    var t1 := SetSingleTypeParameter(t, "T", None);
    assert J_TYPE_PARAMETERS != J_METHODS;
    ConfigureCompareToDone(t1, "T");
    CompareToDoneFrame(t, t1, ConfigureIComparableType(t).value, "T");
  }

  /** The root with the type at `i` replaced. */
  function ReplaceType(root: Json, i: nat, t: Json): (r: Json)
    requires root.JObj? && GetArray(root, J_TYPES).Ok? && i < |GetArray(root, J_TYPES).value|
    ensures r.JObj? && forall k :: k != J_TYPES ==> Get(r, k) == Get(root, k)
    ensures GetArray(r, J_TYPES) == Ok(GetArray(root, J_TYPES).value[i := t])
  {
    Put(root, J_TYPES, JArr(GetArray(root, J_TYPES).value[i := t]))
  }

  /** The generic form of `IComparable` for a type id. */
  function ComparableOf(id: string): string
  {
    ICOMPARABLE + "<" + id + ">"
  }

  /** One value type: the plain `IComparable` it implements (which must be
      there) becomes `IComparable<id>`, in place; then its `compareTo` is
      configured for its own id. */
  function ConfigureComparableType(t: Json): (r: Result<Json>)
    ensures r.Ok? ==> t.JObj? && GetString(t, J_ID).Ok? && GetArray(t, J_IMPLEMENTS).Ok?
    ensures r.Ok? ==>
      var impl := GetArray(t, J_IMPLEMENTS).value;
      var k := IndexOfString(impl, ICOMPARABLE);
      var impl' := GetArray(r.value, J_IMPLEMENTS);
      0 <= k && impl'.Ok? && impl'.value == impl[k := JStr(ComparableOf(GetString(t, J_ID).value))]
    ensures r.Ok? ==> r.value.JObj? && forall k :: k != J_IMPLEMENTS && k != J_METHODS ==> Get(r.value, k) == Get(t, k)
  {
    var id := GetString(t, J_ID);
    var impl := GetArray(t, J_IMPLEMENTS);
    if id.Err? then Err(id.msg)
    else if impl.Err? then Err(impl.msg)
    else
      var k := IndexOfString(impl.value, ICOMPARABLE);
      if k == -1 then Err("JSONArray[-1] not found.")
      else
        var t1 := WithImplementsAt(t, impl.value, k, ComparableOf(id.value));
        var r := ConfigureCompareTo(t1, id.value);
        assert J_IMPLEMENTS != J_METHODS;
        assert r.Ok? ==> Get(r.value, J_IMPLEMENTS) == Get(t1, J_IMPLEMENTS);
        r
  }

  /** The type with the implemented type at `k` replaced by `name`. */
  function WithImplementsAt(t: Json, impl: seq<Json>, k: nat, name: string): (r: Json)
    requires t.JObj? && GetArray(t, J_IMPLEMENTS) == Ok(impl) && k < |impl|
    ensures r.JObj? && GetArray(r, J_IMPLEMENTS) == Ok(impl[k := JStr(name)])
    ensures forall k' :: k' != J_IMPLEMENTS ==> Get(r, k') == Get(t, k')
  {
    Put(t, J_IMPLEMENTS, JArr(impl[k := JStr(name)]))
  }

  /** Besides its `implements` entry, a value type has its `compareTo`
      configured for its own id. */
  lemma ComparableTypeCompareTo(t: Json)
    requires ConfigureComparableType(t).Ok?
    ensures CompareToDone(t, ConfigureComparableType(t).value, GetString(t, J_ID).value)
  {
    var id := GetString(t, J_ID).value;
    var impl := GetArray(t, J_IMPLEMENTS).value;
    var k := IndexOfString(impl, ICOMPARABLE);
    var t1 := WithImplementsAt(t, impl, k, ComparableOf(id));
    assert J_IMPLEMENTS != J_METHODS;
    ConfigureCompareToDone(t1, id);
    CompareToDoneFrame(t, t1, ConfigureComparableType(t).value, id);
  }

  /** The generic form is not the plain name, so a type whose `IComparable`
      was listed once cannot be patched a second time. */
  lemma ConfigureComparableTypeOnce(t: Json)
    requires ConfigureComparableType(t).Ok?
    requires var impl := GetArray(t, J_IMPLEMENTS).value;
      forall i, j :: 0 <= i < j < |impl| ==> !(impl[i] == JStr(ICOMPARABLE) && impl[j] == JStr(ICOMPARABLE))
    ensures ConfigureComparableType(ConfigureComparableType(t).value).Err?
  {
    var impl := GetArray(t, J_IMPLEMENTS).value;
    var k := IndexOfString(impl, ICOMPARABLE);
    var t' := ConfigureComparableType(t).value;
    var impl' := GetArray(t', J_IMPLEMENTS).value;
    var id := GetString(t, J_ID).value;
    assert JStr(ComparableOf(id)) != JStr(ICOMPARABLE) by {
      assert |ComparableOf(id)| > |ICOMPARABLE|;
    }
    forall j | 0 <= j < |impl'|
      ensures impl'[j] != JStr(ICOMPARABLE)
    {
      if j != k {
        assert impl[j] != JStr(ICOMPARABLE) by {
          if j > k {
            assert impl[k] == JStr(ICOMPARABLE);
          }
        }
      }
    }
    assert IndexOfString(impl', ICOMPARABLE) == -1;
  }

  /** The named value type, patched in place among the root's types. */
  function ConfigureNamedType(root: Json, name: string): (r: Result<Json>)
    requires root.JObj?
    ensures r.Ok? ==> r.value.JObj? && forall k :: k != J_TYPES ==> Get(r.value, k) == Get(root, k)
    ensures r.Ok? ==> TypeIndex(root, name).Ok?
    ensures r.Ok? ==>
      var types := GetArray(root, J_TYPES).value;
      var i := TypeIndex(root, name).value;
      var types' := GetArray(r.value, J_TYPES);
      types'.Ok? && |types'.value| == |types| && types'.value == types[i := types'.value[i]] &&
      ConfigureComparableType(types[i]) == Ok(types'.value[i])
  {
    var i :- TypeIndex(root, name);
    var t :- ConfigureComparableType(GetArray(root, J_TYPES).value[i]);
    Ok(ReplaceType(root, i, t))
  }

  /** A type none of whose names is in `names`. */
  predicate NotNamed(t: Json, names: seq<string>)
  {
    forall n :: n in names ==> GetString(t, J_NAME) != Ok(n)
  }

  /** `root'` has as many types as `root`, and those not named in `names`
      are the same. */
  ghost predicate TypesFrame(root: Json, root': Json, names: seq<string>)
  {
    var types := GetArray(root, J_TYPES);
    var types' := GetArray(root', J_TYPES);
    types.Ok? && types'.Ok? && |types'.value| == |types.value| &&
    forall j :: 0 <= j < |types.value| && NotNamed(types.value[j], names) ==> types'.value[j] == types.value[j]
  }

  /** Replacing the type at a position named `names[0]` keeps every type
      not named in `names`. */
  lemma FrameAt(root: Json, root': Json, i: nat, names: seq<string>)
    requires |names| > 0 && GetArray(root, J_TYPES).Ok? && GetArray(root', J_TYPES).Ok?
    requires |GetArray(root', J_TYPES).value| == |GetArray(root, J_TYPES).value|
    requires var types := GetArray(root, J_TYPES).value;
      NamedAt(types, names[0], i) && GetArray(root', J_TYPES).value == types[i := GetArray(root', J_TYPES).value[i]]
    ensures TypesFrame(root, root', names)
  {
    var types := GetArray(root, J_TYPES).value;
    forall j | 0 <= j < |types| && NotNamed(types[j], names)
      ensures j != i
    {
      assert names[0] in names;
    }
  }

  lemma FrameStep(root: Json, names: seq<string>)
    requires root.JObj? && |names| > 0 && ConfigureNamedType(root, names[0]).Ok?
    ensures TypesFrame(root, ConfigureNamedType(root, names[0]).value, names)
  {
    FrameAt(root, ConfigureNamedType(root, names[0]).value, TypeIndex(root, names[0]).value, names);
  }

  lemma FrameTrans(a: Json, b: Json, c: Json, names: seq<string>)
    requires |names| > 0 && TypesFrame(a, b, names) && TypesFrame(b, c, names[1..])
    ensures TypesFrame(a, c, names)
  {
    var ta := GetArray(a, J_TYPES).value;
    var tb := GetArray(b, J_TYPES).value;
    forall j | 0 <= j < |ta| && NotNamed(ta[j], names)
      ensures NotNamed(tb[j], names[1..])
    {
      assert forall n :: n in names[1..] ==> n in names;
    }
  }

  /** Every named value type in turn; the first failure fails all. Types
      not named are left alone. */
  function ConfigureNamedTypes(root: Json, names: seq<string>): (r: Result<Json>)
    requires root.JObj?
    ensures r.Ok? ==> r.value.JObj? && forall k :: k != J_TYPES ==> Get(r.value, k) == Get(root, k)
    ensures names == [] ==> r == Ok(root)
    ensures r.Ok? && |names| > 0 ==> TypesFrame(root, r.value, names)
    decreases |names|
  {
    if |names| == 0 then Ok(root)
    else
      var step := ConfigureNamedType(root, names[0]);
      if step.Err? then Err(step.msg)
      else
        var root1 := step.value;
        var r := ConfigureNamedTypes(root1, names[1..]);
        if r.Err? then r
        else
          FrameStep(root, names);
          if |names| == 1 then r
          else
            FrameTrans(root, root1, r.value, names);
            r
  }

  /** The type `root` finds under `name` sits, at the same position of
      `root'`, configured as a value type. */
  ghost predicate ConfiguredAt(root: Json, root': Json, name: string)
  {
    TypeIndex(root, name).Ok? && GetArray(root', J_TYPES).Ok? &&
    var i := TypeIndex(root, name).value;
    i < |GetArray(root', J_TYPES).value| &&
    ConfigureComparableType(GetArray(root, J_TYPES).value[i]) == Ok(GetArray(root', J_TYPES).value[i])
  }

  /** Replacing one type by one of the same name leaves every lookup by
      name where it was. */
  lemma TypeIndexSameNames(root: Json, root': Json, name: string)
    requires GetArray(root, J_TYPES).Ok? && GetArray(root', J_TYPES).Ok?
    requires var ts := GetArray(root, J_TYPES).value; var ts' := GetArray(root', J_TYPES).value;
      |ts| == |ts'| && forall i :: 0 <= i < |ts| ==> GetString(ts[i], J_NAME) == GetString(ts'[i], J_NAME)
    ensures TypeIndex(root', name) == TypeIndex(root, name)
  {
    FirstNamedSameNames(GetArray(root, J_TYPES).value, GetArray(root', J_TYPES).value, name, 0);
  }

  /** One step of the loop keeps every type's name. */
  lemma NamedTypeKeepsNames(root: Json, name: string)
    requires root.JObj? && ConfigureNamedType(root, name).Ok?
    ensures var ts := GetArray(root, J_TYPES).value; var ts' := GetArray(ConfigureNamedType(root, name).value, J_TYPES).value;
      |ts| == |ts'| && forall i :: 0 <= i < |ts| ==> GetString(ts[i], J_NAME) == GetString(ts'[i], J_NAME)
  {
    var ts := GetArray(root, J_TYPES).value;
    var ts' := GetArray(ConfigureNamedType(root, name).value, J_TYPES).value;
    var i := TypeIndex(root, name).value;
    assert Get(ts'[i], J_NAME) == Get(ts[i], J_NAME);
  }

  lemma DistinctTail(names: seq<string>)
    requires |names| > 0 && Distinct(names)
    ensures Distinct(names[1..])
  {
    forall a, b | 0 <= a < b < |names[1..]|
      ensures names[1..][a] != names[1..][b]
    {
      assert names[1..][a] == names[a + 1] && names[1..][b] == names[b + 1];
    }
  }

  /** The first name is not listed again. */
  lemma DistinctHead(names: seq<string>)
    requires |names| > 0 && Distinct(names)
    ensures names[0] !in names[1..]
  {
    forall b | 0 <= b < |names[1..]|
      ensures names[1..][b] != names[0]
    {
      assert names[1..][b] == names[b + 1];
    }
  }

  /** The loop's first step, then the rest of the names. */
  lemma ConfigureNamedTypesStep(root: Json, names: seq<string>)
    requires root.JObj? && ConfigureNamedTypes(root, names).Ok? && |names| > 0
    ensures ConfigureNamedType(root, names[0]).Ok?
    ensures ConfigureNamedTypes(ConfigureNamedType(root, names[0]).value, names[1..]) == ConfigureNamedTypes(root, names)
  {
  }

  /** A type configured in one step and not named again stays so. */
  lemma ConfiguredKept(root: Json, root1: Json, r: Json, name: string, rest: seq<string>)
    requires ConfiguredAt(root, root1, name) && TypeIndex(root, name).Ok?
    requires GetArray(root1, J_TYPES).Ok?
    requires GetString(GetArray(root1, J_TYPES).value[TypeIndex(root, name).value], J_NAME) == Ok(name)
    requires name !in rest
    requires rest == [] ==> r == root1
    requires rest != [] ==> TypesFrame(root1, r, rest)
    ensures ConfiguredAt(root, r, name)
  {
    if rest != [] {
      NotNamedKept(root1, r, TypeIndex(root, name).value, name, rest);
    }
  }

  /** A position holding a type whose name is not listed is kept by the
      frame. */
  lemma NotNamedKept(root1: Json, r: Json, i: nat, name: string, rest: seq<string>)
    requires TypesFrame(root1, r, rest) && i < |GetArray(root1, J_TYPES).value|
    requires GetString(GetArray(root1, J_TYPES).value[i], J_NAME) == Ok(name) && name !in rest
    ensures GetArray(r, J_TYPES).value[i] == GetArray(root1, J_TYPES).value[i]
  {
    assert NotNamed(GetArray(root1, J_TYPES).value[i], rest);
  }

  /** A type configured by a later step was already where the original
      root has it: the step before touched another position and kept every
      name. */
  lemma ConfiguredEarlier(root: Json, root1: Json, r: Json, i0: nat, name: string)
    requires GetArray(root, J_TYPES).Ok? && GetArray(root1, J_TYPES).Ok?
    requires var ts := GetArray(root, J_TYPES).value; var ts1 := GetArray(root1, J_TYPES).value;
      |ts| == |ts1| && i0 < |ts| && ts1 == ts[i0 := ts1[i0]] &&
      (forall i :: 0 <= i < |ts| ==> GetString(ts[i], J_NAME) == GetString(ts1[i], J_NAME)) &&
      GetString(ts[i0], J_NAME) != Ok(name)
    requires ConfiguredAt(root1, r, name)
    ensures ConfiguredAt(root, r, name)
  {
    TypeIndexSameNames(root, root1, name);
  }

  lemma ConfiguredAtSame(root: Json, a: Json, b: Json, x: string, y: string)
    requires a == b && x == y && ConfiguredAt(root, a, x)
    ensures ConfiguredAt(root, b, y)
  {
  }

  /** The first step of the loop configures the type under the first name. */
  lemma ConfiguredStep(root: Json, name: string)
    requires root.JObj? && ConfigureNamedType(root, name).Ok?
    ensures ConfiguredAt(root, ConfigureNamedType(root, name).value, name)
    ensures var i := TypeIndex(root, name).value;
      GetString(GetArray(ConfigureNamedType(root, name).value, J_TYPES).value[i], J_NAME) == Ok(name)
  {
    var ts := GetArray(root, J_TYPES).value;
    var ts' := GetArray(ConfigureNamedType(root, name).value, J_TYPES).value;
    var i := TypeIndex(root, name).value;
    assert Get(ts'[i], J_NAME) == Get(ts[i], J_NAME);
  }

  /** The loop, name by name: when no name is listed twice, every listed
      type ends up configured as a value type, at the position where the
      original root has it. */
  lemma {:induction false} ConfigureNamedTypesEach(root: Json, names: seq<string>, q: int)
    requires root.JObj? && ConfigureNamedTypes(root, names).Ok? && Distinct(names)
    requires 0 <= q < |names|
    ensures ConfiguredAt(root, ConfigureNamedTypes(root, names).value, names[q])
    decreases |names|, 1
  {
    if q == 0 {
      ConfiguredFirst(root, names);
    } else {
      ConfiguredRest(root, names, q);
    }
  }

  /** The first listed type is configured by the first step and left alone
      by the rest of the loop. */
  lemma ConfiguredFirst(root: Json, names: seq<string>)
    requires root.JObj? && ConfigureNamedTypes(root, names).Ok? && |names| > 0 && Distinct(names)
    ensures ConfiguredAt(root, ConfigureNamedTypes(root, names).value, names[0])
  {
    ConfigureNamedTypesStep(root, names);
    DistinctHead(names);
    var root1 := ConfigureNamedType(root, names[0]).value;
    ConfiguredStep(root, names[0]);
    ConfiguredKept(root, root1, ConfigureNamedTypes(root, names).value, names[0], names[1..]);
  }

  /** A type other than the first is configured by the rest of the loop,
      where the original root has it. */
  lemma {:induction false} ConfiguredRest(root: Json, names: seq<string>, q: int)
    requires root.JObj? && ConfigureNamedTypes(root, names).Ok? && Distinct(names)
    requires 0 < q < |names|
    ensures ConfiguredAt(root, ConfigureNamedTypes(root, names).value, names[q])
    decreases |names|, 0
  {
    ConfigureNamedTypesStep(root, names);
    DistinctTail(names);
    ConfigureNamedTypesEach(ConfigureNamedType(root, names[0]).value, names[1..], q - 1);
    ConfiguredRestTail(root, names, q);
  }

  /** What the rest of the loop configured under a later name, the whole
      loop configured where the original root has it. */
  lemma ConfiguredRestTail(root: Json, names: seq<string>, q: int)
    requires root.JObj? && 0 < q < |names| && Distinct(names)
    requires ConfigureNamedType(root, names[0]).Ok?
    requires var root1 := ConfigureNamedType(root, names[0]).value;
      ConfigureNamedTypes(root1, names[1..]).Ok? &&
      ConfiguredAt(root1, ConfigureNamedTypes(root1, names[1..]).value, names[1..][q - 1])
    ensures ConfigureNamedTypes(root, names).Ok?
    ensures ConfiguredAt(root, ConfigureNamedTypes(root, names).value, names[q])
  {
    var root1 := ConfigureNamedType(root, names[0]).value;
    var r := ConfigureNamedTypes(root1, names[1..]).value;
    assert ConfigureNamedTypes(root, names) == Ok(r);
    assert names[1..][q - 1] == names[q] && names[q] != names[0];
    ConfiguredAtSame(root1, r, r, names[1..][q - 1], names[q]);
    ConfiguredLater(root, r, names[0], names[q]);
  }

  /** A type configured after the first step, under another name, is
      configured where the original root has it. */
  lemma ConfiguredLater(root: Json, r: Json, first: string, n: string)
    requires root.JObj? && ConfigureNamedType(root, first).Ok?
    requires n != first && ConfiguredAt(ConfigureNamedType(root, first).value, r, n)
    ensures ConfiguredAt(root, r, n)
  {
    var root1 := ConfigureNamedType(root, first).value;
    NamedTypeKeepsNames(root, first);
    var i0 := TypeIndex(root, first).value;
    var ts := GetArray(root, J_TYPES).value;
    var ts1 := GetArray(root1, J_TYPES).value;
    assert ts1 == ts[i0 := ts1[i0]];
    assert GetString(ts[i0], J_NAME) == Ok(first);
    ConfiguredEarlier(root, root1, r, i0, n);
  }

  lemma ComparableTypesDistinct()
    ensures Distinct(COMPARABLE_TYPES)
    ensures ICOMPARABLE_NAME !in COMPARABLE_TYPES
  {
  }

  /** `applyComparableHacks`: `IComparable` first, then each value type;
      all other types are left alone. */
  function ApplyComparableHacks(root: Json): (r: Result<Json>)
    requires root.JObj?
    ensures r.Ok? ==> r.value.JObj? && forall k :: k != J_TYPES ==> Get(r.value, k) == Get(root, k)
    ensures r.Ok? ==> TypesFrame(root, r.value, [ICOMPARABLE_NAME] + COMPARABLE_TYPES)
    ensures r.Ok? ==> ConfigureIComparable(root).Ok?
    ensures r.Ok? ==> ConfigureNamedTypes(ConfigureIComparable(root).value, COMPARABLE_TYPES) == r
  {
    var root1 :- ConfigureIComparable(root);
    var r := ConfigureNamedTypes(root1, COMPARABLE_TYPES);
    if r.Err? then r
    else
      var names := [ICOMPARABLE_NAME] + COMPARABLE_TYPES;
      assert names[1..] == COMPARABLE_TYPES;
      FrameAt(root, root1, TypeIndex(root, ICOMPARABLE_NAME).value, names);
      FrameTrans(root, root1, r.value, names);
      r
  }

  /** Configuring `IComparable` keeps every type's name. */
  lemma IComparableKeepsNames(root: Json)
    requires root.JObj? && ConfigureIComparable(root).Ok?
    ensures var ts := GetArray(root, J_TYPES).value; var ts' := GetArray(ConfigureIComparable(root).value, J_TYPES).value;
      |ts| == |ts'| && forall i :: 0 <= i < |ts| ==> GetString(ts[i], J_NAME) == GetString(ts'[i], J_NAME)
    ensures GetString(GetArray(root, J_TYPES).value[TypeIndex(root, ICOMPARABLE_NAME).value], J_NAME) == Ok(ICOMPARABLE_NAME)
  {
    var ts := GetArray(root, J_TYPES).value;
    var ts' := GetArray(ConfigureIComparable(root).value, J_TYPES).value;
    var i := TypeIndex(root, ICOMPARABLE_NAME).value;
    assert Get(ts'[i], J_NAME) == Get(ts[i], J_NAME);
  }

  /** After the whole pass, `IComparable`, in its original position, has
      the type parameter `T` and its `compareTo` takes a non-null
      `other: T`. */
  lemma ApplyComparableHacksIComparable(root: Json)
    requires root.JObj? && ApplyComparableHacks(root).Ok?
    ensures TypeIndex(root, ICOMPARABLE_NAME).Ok?
    ensures var i := TypeIndex(root, ICOMPARABLE_NAME).value;
      var ts' := GetArray(ApplyComparableHacks(root).value, J_TYPES);
      ts'.Ok? && i < |ts'.value| && GetArray(ts'.value[i], J_TYPE_PARAMETERS) == Ok([TypeParameter("T", None)]) &&
      CompareToDone(GetArray(root, J_TYPES).value[i], ts'.value[i], "T")
  {
    var root1 := ConfigureIComparable(root).value;
    var r := ApplyComparableHacks(root).value;
    var i := TypeIndex(root, ICOMPARABLE_NAME).value;
    var ts1 := GetArray(root1, J_TYPES).value;
    IComparableKeepsNames(root);
    ComparableTypesDistinct();
    assert NotNamed(ts1[i], COMPARABLE_TYPES);
    IComparableCompareTo(GetArray(root, J_TYPES).value[i]);
  }

  /** After the whole pass, each listed value type is configured: it
      implements `IComparable<id>` and its `compareTo` takes its own id. */
  lemma ApplyComparableHacksValueTypes(root: Json, n: string)
    requires root.JObj? && ApplyComparableHacks(root).Ok?
    requires n in COMPARABLE_TYPES
    ensures ConfiguredAt(root, ApplyComparableHacks(root).value, n)
  {
    var root1 := ConfigureIComparable(root).value;
    var r := ApplyComparableHacks(root).value;
    var iC := TypeIndex(root, ICOMPARABLE_NAME).value;
    IComparableKeepsNames(root);
    ComparableTypesDistinct();
    var q :| 0 <= q < |COMPARABLE_TYPES| && COMPARABLE_TYPES[q] == n;
    ConfigureNamedTypesEach(root1, COMPARABLE_TYPES, q);
    ConfiguredEarlier(root, root1, r, iC, n);
  }
}
