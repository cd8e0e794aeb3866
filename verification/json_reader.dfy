/** `JsonReader.kt`: reading the API description. The text is cut to its
    first `{` and patched by plain text replacements (the `Insets`,
    `yfiles.system` and `Class` renames); the parsed object has its
    namespaces flattened into one `types` array and its function signature
    map turned into an array of objects carrying their key as `id`. */
module JsonReader {
  import opened Wrappers
  import opened Text
  import opened Json

  // ---------------------------------------------------------------------
  // text

  /** `substring(indexOf("{"))`: the text from its first `{`; with none,
      `substring(-1)` throws. */
  function JsonStart(text: string): (r: Result<string>)
    ensures r.Ok? <==> Contains(text, "{")
    ensures r.Ok? ==> StartsWith(r.value, "{") && |r.value| <= |text|
    ensures r.Ok? ==> text == text[..|text| - |r.value|] + r.value
    ensures r.Ok? ==> !Contains(text[..|text| - |r.value|], "{")
  {
    var i := IndexOf(text, "{");
    if i == -1 then Err("String index out of range: -1")
    else
      PrefixBefore(text, "{", i);
      assert text == text[..i] + text[i..];
      Ok(text[i..])
  }

  /** The JSON structure characters are not touched by a rewrite. */
  predicate SameStructure(s: string, t: string)
  {
    Count(s, '{') == Count(t, '{') && Count(s, '}') == Count(t, '}') &&
    Count(s, '[') == Count(t, '[') && Count(s, ']') == Count(t, ']')
  }

  predicate NoStructure(s: string)
  {
    forall i :: 0 <= i < |s| ==> s[i] != '{' && s[i] != '}' && s[i] != '[' && s[i] != ']'
  }

  lemma {:induction false} NoStructureCount(s: string, c: char)
    requires NoStructure(s)
    requires c == '{' || c == '}' || c == '[' || c == ']'
    ensures Count(s, c) == 0
    decreases |s|
  {
    if |s| > 0 {
      NoStructureCount(s[1..], c);
    }
  }

  /** Joining the same pieces with two separators holding as many `c`s
      gives texts with as many `c`s. */
  lemma {:induction false} JoinSwapCount(ps: seq<string>, a: string, b: string, c: char)
    requires Count(a, c) == Count(b, c)
    ensures Count(Join(ps, a), c) == Count(Join(ps, b), c)
    decreases |ps|
  {
    if |ps| > 1 {
      JoinSwapCount(ps[1..], a, b, c);
      CountConcat(ps[0] + a, Join(ps[1..], a), c);
      CountConcat(ps[0], a, c);
      CountConcat(ps[0] + b, Join(ps[1..], b), c);
      CountConcat(ps[0], b, c);
    }
  }

  lemma ReplaceCount(s: string, a: string, b: string, c: char)
    requires |a| > 0 && Count(a, c) == Count(b, c)
    ensures Count(Replace(s, a, b), c) == Count(s, c)
  {
    JoinSwapCount(Split(s, a), a, b, c);
  }

  /** Replacing text free of structure characters with such text keeps the
      structure. */
  lemma ReplaceStructure(s: string, a: string, b: string)
    requires |a| > 0 && NoStructure(a) && NoStructure(b)
    ensures SameStructure(s, Replace(s, a, b))
  {
    forall c | c == '{' || c == '}' || c == '[' || c == ']'
      ensures Count(Replace(s, a, b), c) == Count(s, c)
    {
      NoStructureCount(a, c);
      NoStructureCount(b, c);
      ReplaceCount(s, a, b, c);
    }
  }

  /** `replace(a, b)` for a pattern and replacement without structure
      characters. */
  function ReplacePlain(s: string, a: string, b: string): (r: string)
    requires |a| > 0 && NoStructure(a) && NoStructure(b)
    ensures SameStructure(s, r)
  {
    ReplaceStructure(s, a, b);
    Replace(s, a, b)
  }

  lemma NoStructureConcat(a: string, b: string)
    requires NoStructure(a) && NoStructure(b)
    ensures NoStructure(a + b)
  {
  }

  const ALGORITHMS := "yfiles." + "algorithms."
  const INSETS := ALGORITHMS + "Insets"
  const Y_INSETS := ALGORITHMS + "YInsets"
  const INSETS_KEY := ".YInsets\","
  const INSETS_NAME := INSETS_KEY + "name:\"Insets\""
  const Y_INSETS_NAME := INSETS_KEY + "name:\"YInsets\""

  lemma InsetsPlain()
    ensures NoStructure(INSETS) && NoStructure(Y_INSETS)
    ensures NoStructure(INSETS_NAME) && NoStructure(Y_INSETS_NAME)
  {
    NoStructureConcat("yfiles.", "algorithms.");
    NoStructureConcat(ALGORITHMS, "Insets");
    NoStructureConcat(ALGORITHMS, "YInsets");
    NoStructureConcat(INSETS_KEY, "name:\"Insets\"");
    NoStructureConcat(INSETS_KEY, "name:\"YInsets\"");
  }

  /** `fixInsetsDeclaration`: `Insets` becomes `YInsets`, in the type id
      and then in the declared name. */
  function FixInsetsDeclaration(s: string): (r: string)
    ensures SameStructure(s, r)
  {
    InsetsPlain();
    ReplacePlain(ReplacePlain(s, INSETS, Y_INSETS), INSETS_NAME, Y_INSETS_NAME)
  }

  /** Text without `Insets` in either form passes through unchanged. */
  lemma FixInsetsDeclarationAbsent(s: string)
    requires !Contains(s, INSETS) && !Contains(s, INSETS_NAME)
    ensures FixInsetsDeclaration(s) == s
  {
    ReplaceAbsent(s, INSETS, Y_INSETS);
    ReplaceAbsent(s, INSETS_NAME, Y_INSETS_NAME);
  }

  /** `readJson` up to the parse: the text from its first `{`, patched. */
  function ReadJsonText(text: string): (r: Result<string>)
    ensures r.Ok? <==> Contains(text, "{")
    ensures r.Ok? ==> Count(r.value, '{') > 0
    ensures r.Ok? ==> SameStructure(text[IndexOf(text, "{")..], r.value)
  {
    var start :- JsonStart(text);
    assert start == text[IndexOf(text, "{")..];
    assert start == "{" + start[1..];
    CountConcat("{", start[1..], '{');
    Ok(FixInsetsDeclaration(start))
  }

  const SYSTEM_PACKAGE := "\"yfiles.system."
  const SYSTEM := "\"system."
  const LANG_PACKAGE := "\"yfiles.lang."

  /** `fixSystemPackage`: names in `yfiles.system` or `system` move to
      `yfiles.lang`. */
  function FixSystemPackage(s: string): (r: string)
    ensures SameStructure(s, r)
  {
    assert NoStructure(SYSTEM_PACKAGE) && NoStructure(SYSTEM) && NoStructure(LANG_PACKAGE);
    var s1 := Replace(s, SYSTEM_PACKAGE, LANG_PACKAGE);
    ReplaceStructure(s, SYSTEM_PACKAGE, LANG_PACKAGE);
    ReplaceStructure(s1, SYSTEM, LANG_PACKAGE);
    Replace(s1, SYSTEM, LANG_PACKAGE)
  }

  /** Text without either old package prefix passes through unchanged. */
  lemma FixSystemPackageAbsent(s: string)
    requires !Contains(s, SYSTEM_PACKAGE) && !Contains(s, SYSTEM)
    ensures FixSystemPackage(s) == s
  {
    ReplaceAbsent(s, SYSTEM_PACKAGE, LANG_PACKAGE);
    ReplaceAbsent(s, SYSTEM, LANG_PACKAGE);
  }

  const LANG_CLASS := "yfiles.lang.Class"
  const ID_KEY := "\"id\":"
  const ES6_NAME := "\",\"es6name\""
  const CLASS_VALUE := ":\"Class\""
  const ARRAY_START := "\"Array<"
  const MAP_START := "\"yfiles." + "collections.Map<"
  const GENERIC_END := ">\""

  const CLASS_ID := ID_KEY + "\"" + LANG_CLASS + "\""
  const YCLASS_ID := ID_KEY + "\"" + YCLASS + ES6_NAME + CLASS_VALUE
  const CLASS_NAME := "\"name\":\"Class\""
  const YCLASS_NAME := "\"name\":\"YClass\""
  const CLASS_REF := "\"" + LANG_CLASS + "\""
  const YCLASS_REF := "\"" + YCLASS + "\""
  const CLASS_ARRAY := ARRAY_START + LANG_CLASS + GENERIC_END
  const YCLASS_ARRAY := ARRAY_START + YCLASS + GENERIC_END
  const CLASS_MAP := MAP_START + LANG_CLASS + "," + JS_OBJECT + GENERIC_END
  const YCLASS_MAP := MAP_START + YCLASS + "," + JS_OBJECT + GENERIC_END

  lemma NamesPlain()
    ensures NoStructure(LANG_CLASS) && NoStructure(YCLASS) && NoStructure(JS_OBJECT) && NoStructure("\"")
  {
  }

  lemma KeysPlain()
    ensures NoStructure(ID_KEY) && NoStructure(ES6_NAME) && NoStructure(CLASS_VALUE) && NoStructure(",")
  {
  }

  lemma BracketsPlain()
    ensures NoStructure(ARRAY_START) && NoStructure(GENERIC_END)
  {
  }

  lemma MapStartPlain()
    ensures NoStructure(MAP_START)
  {
    NoStructureConcat("\"yfiles.", "collections.Map<");
  }

  lemma ClassIdPlain()
    ensures NoStructure(CLASS_ID) && NoStructure(YCLASS_ID)
  {
    NamesPlain();
    KeysPlain();
    NoStructureConcat(ID_KEY, "\"");
    NoStructureConcat(ID_KEY + "\"", LANG_CLASS);
    NoStructureConcat(ID_KEY + "\"" + LANG_CLASS, "\"");
    NoStructureConcat(ID_KEY + "\"", YCLASS);
    NoStructureConcat(ID_KEY + "\"" + YCLASS, ES6_NAME);
    NoStructureConcat(ID_KEY + "\"" + YCLASS + ES6_NAME, CLASS_VALUE);
  }

  lemma ClassNamePlain()
    ensures NoStructure(CLASS_NAME) && NoStructure(YCLASS_NAME)
  {
  }

  lemma ClassRefPlain()
    ensures NoStructure(CLASS_REF) && NoStructure(YCLASS_REF)
  {
    NamesPlain();
    NoStructureConcat("\"", LANG_CLASS);
    NoStructureConcat("\"" + LANG_CLASS, "\"");
    NoStructureConcat("\"", YCLASS);
    NoStructureConcat("\"" + YCLASS, "\"");
  }

  lemma ClassArrayPlain()
    ensures NoStructure(CLASS_ARRAY) && NoStructure(YCLASS_ARRAY)
  {
    NamesPlain();
    BracketsPlain();
    NoStructureConcat(ARRAY_START, LANG_CLASS);
    NoStructureConcat(ARRAY_START + LANG_CLASS, GENERIC_END);
    NoStructureConcat(ARRAY_START, YCLASS);
    NoStructureConcat(ARRAY_START + YCLASS, GENERIC_END);
  }

  lemma ClassMapPlain()
    ensures NoStructure(CLASS_MAP) && NoStructure(YCLASS_MAP)
  {
    NamesPlain();
    KeysPlain();
    BracketsPlain();
    MapStartPlain();
    NoStructureConcat(MAP_START, LANG_CLASS);
    NoStructureConcat(MAP_START + LANG_CLASS, ",");
    NoStructureConcat(MAP_START + LANG_CLASS + ",", JS_OBJECT);
    NoStructureConcat(MAP_START + LANG_CLASS + "," + JS_OBJECT, GENERIC_END);
    NoStructureConcat(MAP_START, YCLASS);
    NoStructureConcat(MAP_START + YCLASS, ",");
    NoStructureConcat(MAP_START + YCLASS + ",", JS_OBJECT);
    NoStructureConcat(MAP_START + YCLASS + "," + JS_OBJECT, GENERIC_END);
  }

  /** `fixClassDeclaration`: the type `yfiles.lang.Class` is renamed
      `YClass` (keeping `Class` as its ES6 name), and so is every reference
      to it. */
  function FixClassDeclaration(s: string): (r: string)
    ensures SameStructure(s, r)
  {
    ClassIdPlain();
    ClassNamePlain();
    ClassRefPlain();
    ClassArrayPlain();
    ClassMapPlain();
    var s1 := ReplacePlain(s, CLASS_ID, YCLASS_ID);
    var s2 := ReplacePlain(s1, CLASS_NAME, YCLASS_NAME);
    var s3 := ReplacePlain(s2, CLASS_REF, YCLASS_REF);
    var s4 := ReplacePlain(s3, CLASS_ARRAY, YCLASS_ARRAY);
    ReplacePlain(s4, CLASS_MAP, YCLASS_MAP)
  }

  /** The text patches `readApiJson` applies between the two parses. */
  function FixApiText(s: string): (r: string)
    ensures SameStructure(s, r)
  {
    FixClassDeclaration(FixSystemPackage(s))
  }

  /** Text that mentions `Class` in none of the patched forms is unchanged. */
  lemma FixClassDeclarationAbsent(s: string)
    requires !Contains(s, CLASS_ID) && !Contains(s, CLASS_NAME) && !Contains(s, CLASS_REF)
    requires !Contains(s, CLASS_ARRAY) && !Contains(s, CLASS_MAP)
    ensures FixClassDeclaration(s) == s
  {
    ReplaceAbsent(s, CLASS_ID, YCLASS_ID);
    ReplaceAbsent(s, CLASS_NAME, YCLASS_NAME);
    ReplaceAbsent(s, CLASS_REF, YCLASS_REF);
    ReplaceAbsent(s, CLASS_ARRAY, YCLASS_ARRAY);
    ReplaceAbsent(s, CLASS_MAP, YCLASS_MAP);
  }

  /** Text that none of the patches applies to passes through unchanged. */
  lemma FixApiTextAbsent(s: string)
    requires !Contains(s, SYSTEM_PACKAGE) && !Contains(s, SYSTEM)
    requires !Contains(s, CLASS_ID) && !Contains(s, CLASS_NAME) && !Contains(s, CLASS_REF)
    requires !Contains(s, CLASS_ARRAY) && !Contains(s, CLASS_MAP)
    ensures FixApiText(s) == s
  {
    FixSystemPackageAbsent(s);
    FixClassDeclarationAbsent(s);
  }

  /** Without `Insets` to rename, the text read is the text from its first
      `{` as it stands. */
  lemma ReadJsonTextAbsent(text: string)
    requires Contains(text, "{")
    requires !Contains(text[IndexOf(text, "{")..], INSETS)
    requires !Contains(text[IndexOf(text, "{")..], INSETS_NAME)
    ensures ReadJsonText(text) == Ok(text[IndexOf(text, "{")..])
  {
    FixInsetsDeclarationAbsent(text[IndexOf(text, "{")..]);
  }

  // ---------------------------------------------------------------------
  // the parsed object

  /** `flatMap(k)` over objects: the objects of the (required) array `k` of
      each, in order. */
  function FlatObjects(xs: seq<Json>, k: string): (r: Result<seq<Json>>)
    ensures r.Ok? <==> forall i :: 0 <= i < |xs| ==> Objects(xs[i], k).Ok?
    ensures r.Ok? ==> forall y :: y in r.value <==>
      exists i :: 0 <= i < |xs| && y in Objects(xs[i], k).value
  {
    if |xs| == 0 then Ok([])
    else
      var head := Objects(xs[0], k);
      var rest := FlatObjects(xs[1..], k);
      assert forall i :: 1 <= i < |xs| ==> xs[i] == xs[1..][i - 1];
      if head.Err? then Err(head.msg)
      else if rest.Err? then Err(rest.msg)
      else
        Ok(head.value + rest.value)
  }

  /** Flattening a concatenation: the first part's objects, then the
      second's. */
  lemma {:induction false} FlatObjectsAppend(a: seq<Json>, b: seq<Json>, k: string)
    ensures FlatObjects(a + b, k).Ok? <==> FlatObjects(a, k).Ok? && FlatObjects(b, k).Ok?
    ensures FlatObjects(a + b, k).Ok? ==>
      FlatObjects(a + b, k).value == FlatObjects(a, k).value + FlatObjects(b, k).value
    decreases |a|
  {
    if |a| == 0 {
      assert a + b == b;
    } else {
      assert (a + b)[0] == a[0] && (a + b)[1..] == a[1..] + b;
      FlatObjectsAppend(a[1..], b, k);
    }
  }

  /** One element contributes its own array. */
  lemma FlatObjectsOne(x: Json, k: string)
    ensures FlatObjects([x], k) == Objects(x, k)
  {
    assert [x][1..] == [];
    if Objects(x, k).Ok? {
      assert Objects(x, k).value + [] == Objects(x, k).value;
    }
  }

  /** The types one top-level namespace contributes: those of its nested
      namespaces (each must have `types`), then its own (if any). */
  function NamespaceTypes(ns: Json): (r: Result<seq<Json>>)
    ensures r.Ok? ==> OptObjects(ns, J_NAMESPACES).Ok? && OptObjects(ns, J_TYPES).Ok?
    ensures r.Ok? ==> FlatObjects(OptObjects(ns, J_NAMESPACES).value, J_TYPES).Ok?
    ensures r.Ok? ==> r.value == FlatObjects(OptObjects(ns, J_NAMESPACES).value, J_TYPES).value + OptObjects(ns, J_TYPES).value
  {
    var nested :- OptObjects(ns, J_NAMESPACES);
    var nestedTypes :- FlatObjects(nested, J_TYPES);
    var own :- OptObjects(ns, J_TYPES);
    Ok(nestedTypes + own)
  }

  /** The types of every namespace, namespace by namespace. */
  function AllNamespaceTypes(nss: seq<Json>): (r: Result<seq<Json>>)
    ensures r.Ok? <==> forall i :: 0 <= i < |nss| ==> NamespaceTypes(nss[i]).Ok?
    ensures r.Ok? ==> forall t :: t in r.value <==>
      exists i :: 0 <= i < |nss| && t in NamespaceTypes(nss[i]).value
  {
    if |nss| == 0 then Ok([])
    else
      var head := NamespaceTypes(nss[0]);
      var rest := AllNamespaceTypes(nss[1..]);
      assert forall i :: 1 <= i < |nss| ==> nss[i] == nss[1..][i - 1];
      if head.Err? then Err(head.msg)
      else if rest.Err? then Err(rest.msg)
      else
        Ok(head.value + rest.value)
  }

  /** The types of a concatenation of namespaces: the first part's, then
      the second's. */
  lemma AllNamespaceTypesAppend(a: seq<Json>, b: seq<Json>)
    ensures AllNamespaceTypes(a + b).Ok? <==> AllNamespaceTypes(a).Ok? && AllNamespaceTypes(b).Ok?
    ensures AllNamespaceTypes(a + b).Ok? ==>
      AllNamespaceTypes(a + b).value == AllNamespaceTypes(a).value + AllNamespaceTypes(b).value
  {
    var f := (ns: Json) => NamespaceTypes(ns);
    AllNamespaceTypesFlat(a + b, f);
    AllNamespaceTypesFlat(a, f);
    AllNamespaceTypesFlat(b, f);
    FlatMapAppend(a, b, f);
  }

  lemma {:induction false} AllNamespaceTypesFlat(nss: seq<Json>, f: Json -> Result<seq<Json>>)
    requires forall ns :: f(ns) == NamespaceTypes(ns)
    ensures AllNamespaceTypes(nss) == FlatMap(nss, f)
    decreases |nss|
  {
    if |nss| > 0 {
      AllNamespaceTypesFlat(nss[1..], f);
      AllNamespaceTypesCons(nss);
    }
  }

  lemma AllNamespaceTypesCons(nss: seq<Json>)
    requires |nss| > 0
    ensures AllNamespaceTypes(nss).Ok? <==> NamespaceTypes(nss[0]).Ok? && AllNamespaceTypes(nss[1..]).Ok?
    ensures AllNamespaceTypes(nss).Ok? ==>
      AllNamespaceTypes(nss).value == NamespaceTypes(nss[0]).value + AllNamespaceTypes(nss[1..]).value
  {
  }

  /** One namespace contributes its own types. */
  lemma AllNamespaceTypesOne(ns: Json)
    ensures AllNamespaceTypes([ns]) == NamespaceTypes(ns)
  {
    assert [ns][1..] == [];
    if NamespaceTypes(ns).Ok? {
      assert NamespaceTypes(ns).value + [] == NamespaceTypes(ns).value;
    }
  }

  /** `removeNamespaces`: every type of every namespace, one and two levels
      down, is collected into the root's `types`; the namespaces stay. */
  function RemoveNamespaces(root: Json): (r: Result<Json>)
    requires root.JObj?
    ensures r.Ok? <==> Objects(root, J_NAMESPACES).Ok? && AllNamespaceTypes(Objects(root, J_NAMESPACES).value).Ok?
    ensures r.Ok? ==> r.value.JObj? && forall k :: k != J_TYPES ==> Get(r.value, k) == Get(root, k)
    ensures r.Ok? ==> GetArray(r.value, J_TYPES) == AllNamespaceTypes(Objects(root, J_NAMESPACES).value)
  {
    var nss :- Objects(root, J_NAMESPACES);
    var types :- AllNamespaceTypes(nss);
    Ok(Put(root, J_TYPES, JArr(types)))
  }

  /** The namespaces are left in place, so doing it again changes nothing. */
  lemma RemoveNamespacesIdempotent(root: Json)
    requires root.JObj? && RemoveNamespaces(root).Ok?
    ensures RemoveNamespaces(RemoveNamespaces(root).value) == RemoveNamespaces(root)
  {
    var once := RemoveNamespaces(root).value;
    var types := AllNamespaceTypes(Objects(root, J_NAMESPACES).value).value;
    assert Get(once, J_NAMESPACES) == Get(root, J_NAMESPACES);
    assert Objects(once, J_NAMESPACES) == Objects(root, J_NAMESPACES);
    assert once == Put(root, J_TYPES, JArr(types));
    SetSet(root.fields, J_TYPES, JArr(types), JArr(types));
  }

  /** Each entry of the signature map, in order, as an object with its key
      put under `id`; an entry that is not an object fails. */
  function SignatureEntries(entries: seq<Field>): (r: Result<seq<Json>>)
    ensures r.Ok? <==> forall i :: 0 <= i < |entries| ==> entries[i].val.JObj?
    ensures r.Ok? ==> |r.value| == |entries|
    ensures r.Ok? ==> forall i :: 0 <= i < |entries| ==>
      entries[i].val.JObj? && r.value[i] == Put(entries[i].val, J_ID, JStr(entries[i].key))
  {
    if |entries| == 0 then Ok([])
    else
      var e := entries[0];
      var rest := SignatureEntries(entries[1..]);
      assert forall i :: 1 <= i < |entries| ==> entries[i] == entries[1..][i - 1];
      if !e.val.JObj? then Err("JSONObject[\"" + e.key + "\"] is not a JSONObject.")
      else if rest.Err? then Err(rest.msg)
      else Ok([Put(e.val, J_ID, JStr(e.key))] + rest.value)
  }

  /** `fixFunctionSignatures`: the map under `functionSignatures` becomes
      an array of its entries, each carrying its key as `id`. */
  function FixFunctionSignatures(root: Json): (r: Result<Json>)
    requires root.JObj?
    ensures r.Ok? <==> GetObject(root, J_FUNCTION_SIGNATURES).Ok? &&
                       SignatureEntries(GetObject(root, J_FUNCTION_SIGNATURES).value.fields).Ok?
    ensures r.Ok? ==> r.value.JObj? && forall k :: k != J_FUNCTION_SIGNATURES ==> Get(r.value, k) == Get(root, k)
    ensures r.Ok? ==>
      var entries := GetObject(root, J_FUNCTION_SIGNATURES).value.fields;
      GetArray(r.value, J_FUNCTION_SIGNATURES).Ok? &&
      |GetArray(r.value, J_FUNCTION_SIGNATURES).value| == |entries| &&
      forall i :: 0 <= i < |entries| ==> GetString(GetArray(r.value, J_FUNCTION_SIGNATURES).value[i], J_ID) == Ok(entries[i].key)
  {
    var signatureMap :- GetObject(root, J_FUNCTION_SIGNATURES);
    var signatures :- SignatureEntries(signatureMap.fields);
    Ok(Put(root, J_FUNCTION_SIGNATURES, JArr(signatures)))
  }

  /** The map back from the array: each element's `id` is the key, and its
      last field (the added `id`) is dropped. */
  function SignatureMap(xs: seq<Json>): (r: Json)
    requires forall i :: 0 <= i < |xs| ==> xs[i].JObj? && |xs[i].fields| > 0 && GetString(xs[i], J_ID).Ok?
    ensures r.JObj? && |r.fields| == |xs|
  {
    JObj(seq(|xs|, i requires 0 <= i < |xs| =>
      Field(GetString(xs[i], J_ID).value, JObj(xs[i].fields[..|xs[i].fields| - 1]))))
  }

  /** When no entry had an `id` of its own, nothing is lost: the map can be
      rebuilt from the array and put back, giving the original object. */
  lemma FixFunctionSignaturesRoundTrip(root: Json)
    requires root.JObj? && FixFunctionSignatures(root).Ok?
    requires var entries := GetObject(root, J_FUNCTION_SIGNATURES).value.fields;
      forall i :: 0 <= i < |entries| ==> !Has(entries[i].val, J_ID)
    ensures var xs := GetArray(FixFunctionSignatures(root).value, J_FUNCTION_SIGNATURES).value;
      (forall i :: 0 <= i < |xs| ==> xs[i].JObj? && |xs[i].fields| > 0 && GetString(xs[i], J_ID).Ok?) &&
      Put(FixFunctionSignatures(root).value, J_FUNCTION_SIGNATURES, SignatureMap(xs)) == root
  {
    var m := GetObject(root, J_FUNCTION_SIGNATURES).value;
    var entries := m.fields;
    var xs := SignatureEntries(entries).value;
    forall i | 0 <= i < |entries|
      ensures xs[i] == JObj(entries[i].val.fields + [Field(J_ID, JStr(entries[i].key))])
    {
      SetAbsent(entries[i].val.fields, J_ID, JStr(entries[i].key));
    }
    var back := SignatureMap(xs);
    assert back.fields == entries by {
      forall i | 0 <= i < |entries|
        ensures back.fields[i] == entries[i]
      {
        var fs := entries[i].val.fields + [Field(J_ID, JStr(entries[i].key))];
        assert fs[..|fs| - 1] == entries[i].val.fields;
      }
    }
    assert back == m;
    SetSet(root.fields, J_FUNCTION_SIGNATURES, JArr(xs), m);
    PutSame(root, J_FUNCTION_SIGNATURES, m);
  }
}
