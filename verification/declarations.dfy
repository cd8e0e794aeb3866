/** Turning one comment block into a declaration: the signature line is
    split (`Data.parse`), the tag lines pick one of nine kinds
    (`Declaration.parse`), the full name is cut into owning type and member
    name (`Declaration.init`), and each kind computes what its constructor
    computes. */
module Declarations {
  import opened Wrappers
  import opened Text
  import opened StringUtil
  import opened TypeParser
  import opened Ir
  import opened Hacks
  import opened Params
  import Fqn

  // ---------------------------------------------------------------------
  // Data.parse

  /** `Data.parse(source)`: without `=` the name is the source without its
      last character (the `;`) and the value is `null;`; with one `=` the
      two sides; with more, an error. */
  function ParseData(source: string): (r: Result<Data>)
    ensures r.Ok? <==> (Count(source, '=') == 0 && |source| > 0) || Count(source, '=') == 1
    ensures r.Ok? ==> r.value.source == source
    ensures r.Ok? && Count(source, '=') == 0 ==>
      r.value.name + [source[|source| - 1]] == source && r.value.NullValue()
    ensures r.Ok? && Count(source, '=') == 1 ==>
      r.value.name + "=" + r.value.value == source &&
      !Contains(r.value.name, "=") && !Contains(r.value.value, "=")
  {
    var items := Split(source, "=");
    SplitCount(source, '=');
    if |items| == 1 then
      if |source| == 0 then Err("begin 0, end -1, length 0")
      else
        assert source == source[..|source| - 1] + [source[|source| - 1]];
        Ok(Data(source, source[..|source| - 1], NULL_VALUE))
    else if |items| == 2 then
      SplitPieces(source, "=");
      assert items[0] in items && items[1] in items;
      assert Join(items, "=") == items[0] + "=" + items[1];
      Ok(Data(source, items[0], items[1]))
    else Err("Invalid declaration: '" + source + "'")
  }

  /** A `name=value` line is split back into its two sides. */
  lemma ParseDataRoundTrip(name: string, value: string)
    requires NoChar(name, '=') && NoChar(value, '=')
    ensures ParseData(name + "=" + value) == Ok(Data(name + "=" + value, name, value))
  {
    NoCharLacks(name, '=');
    NoCharLacks(value, '=');
    assert Join([name, value], "=") == name + "=" + value;
    SplitJoin([name, value], "=");
  }

  /** `name;` without `=` is a declaration with the null value. */
  lemma ParseDataNull(name: string)
    requires NoChar(name, '=')
    ensures ParseData(name + ";") == Ok(Data(name + ";", name, NULL_VALUE))
  {
    var s := name + ";";
    assert NoChar(s, '=');
    NoCharLacks(s, '=');
    SplitFirstPiece(s, "=");
    assert s[..|s| - 1] == name;
  }

  // ---------------------------------------------------------------------
  // Declaration.parse: the nine kinds

  datatype Kind =
    | NamespaceKind | ClassKind | InterfaceKind | EnumKind | ConstructorKind
    | ConstKind | EnumValueKind | PropertyKind | FunctionKind

  predicate HasClassLine(lines: seq<string>)
  {
    FirstTagLine(lines, CLASS).Some?
  }

  /** The `when` of `Declaration.parse`. `lines.contains` is whole-line
      equality; only the class test is a prefix test. */
  function Classify(source: string, lines: seq<string>, data: Data): Kind
  {
    if NAMESPACE in lines then NamespaceKind
    else if HasClassLine(lines) && CONSTRUCTOR !in lines then ClassKind
    else if INTERFACE in lines then InterfaceKind
    else if EXTENDS_ENUM in lines then EnumKind
    else if CONSTRUCTOR in lines then ConstructorKind
    else if CONST in lines then ConstKind
    else if !Contains(source, "=") then EnumValueKind
    else if data.NullValue() then PropertyKind
    else FunctionKind
  }

  /** Reference definition: the condition under which each kind applies on
      its own, and the order in which they are tried. */
  predicate Applies(k: Kind, source: string, lines: seq<string>, data: Data)
  {
    match k
    case NamespaceKind => NAMESPACE in lines
    case ClassKind => HasClassLine(lines) && CONSTRUCTOR !in lines
    case InterfaceKind => INTERFACE in lines
    case EnumKind => EXTENDS_ENUM in lines
    case ConstructorKind => CONSTRUCTOR in lines
    case ConstKind => CONST in lines
    case EnumValueKind => !Contains(source, "=")
    case PropertyKind => data.NullValue()
    case FunctionKind => true
  }

  function Rank(k: Kind): nat
  {
    match k
    case NamespaceKind => 0
    case ClassKind => 1
    case InterfaceKind => 2
    case EnumKind => 3
    case ConstructorKind => 4
    case ConstKind => 5
    case EnumValueKind => 6
    case PropertyKind => 7
    case FunctionKind => 8
  }

  /** Classification is first match: the chosen kind applies, and no kind
      tried before it does; and conversely. */
  lemma ClassifyFirstMatch(source: string, lines: seq<string>, data: Data, k: Kind)
    ensures Classify(source, lines, data) == k <==>
      Applies(k, source, lines, data) &&
      forall k' :: Rank(k') < Rank(k) ==> !Applies(k', source, lines, data)
  {
    var c := Classify(source, lines, data);
    assert Applies(c, source, lines, data);
    if c != k {
      if Rank(k) < Rank(c) {
        assert !Applies(k, source, lines, data) by {
          match k
          case NamespaceKind =>
          case ClassKind =>
          case InterfaceKind =>
          case EnumKind =>
          case ConstructorKind =>
          case ConstKind =>
          case EnumValueKind =>
          case PropertyKind =>
          case FunctionKind =>
        }
      } else {
        assert Rank(c) != Rank(k) by {
          match c
          case NamespaceKind =>
          case ClassKind =>
          case InterfaceKind =>
          case EnumKind =>
          case ConstructorKind =>
          case ConstKind =>
          case EnumValueKind =>
          case PropertyKind =>
          case FunctionKind =>
        }
      }
    } else {
      forall k' | Rank(k') < Rank(k)
        ensures !Applies(k', source, lines, data)
      {
        match k'
        case NamespaceKind =>
        case ClassKind =>
        case InterfaceKind =>
        case EnumKind =>
        case ConstructorKind =>
        case ConstKind =>
        case EnumValueKind =>
        case PropertyKind =>
        case FunctionKind =>
      }
    }
  }

  /** A block with both a class line and an `@constructor` line is never a class. */
  lemma ConstructorBlockIsNotClass(source: string, lines: seq<string>, data: Data)
    requires CONSTRUCTOR in lines
    ensures Classify(source, lines, data) != ClassKind
    ensures NAMESPACE !in lines && INTERFACE !in lines && EXTENDS_ENUM !in lines ==>
      Classify(source, lines, data) == ConstructorKind
  {
  }

  /** `@namespace` wins over every other tag. */
  lemma NamespaceWins(source: string, lines: seq<string>, data: Data)
    requires NAMESPACE in lines
    ensures Classify(source, lines, data) == NamespaceKind
  {
    ClassifyFirstMatch(source, lines, data, NamespaceKind);
  }

  /** The kinds whose declarations are named by their whole name. */
  predicate InstanceMode(k: Kind)
  {
    k == NamespaceKind || k == ClassKind || k == InterfaceKind || k == EnumKind || k == ConstructorKind
  }

  // ---------------------------------------------------------------------
  // Declaration.init: owning type and member name

  const PROTOTYPE := "prototype"

  /** A member's owner: every segment before the last, without one trailing
      `prototype` segment. */
  function Owner(names: seq<string>): string
    requires |names| >= 2
  {
    var n := |names|;
    if names[n - 2] == PROTOTYPE then Join(names[..n - 2], ".") else Join(names[..n - 1], ".")
  }

  /** `className` and `name` of a declaration. An instance declaration is
      its own owner; a member name without any dot has no owner segment and
      fails. */
  function DecomposeName(fullName: string, instance: bool): (r: Result<(string, string)>)
    ensures r.Ok? <==> instance || Contains(fullName, ".")
    ensures r.Ok? ==> r.value.1 == Fqn.Name(fullName)
    ensures r.Ok? && instance ==> r.value.0 == fullName
  {
    var names := Fqn.Segments(fullName);
    SplitOnce(fullName);
    if instance then Ok((fullName, names[|names| - 1]))
    else if |names| < 2 then Err("Index -1 out of bounds for length 1")
    else Ok((Owner(names), names[|names| - 1]))
  }

  lemma SplitOnce(fullName: string)
    ensures |Fqn.Segments(fullName)| == 1 <==> !Contains(fullName, ".")
  {
    SplitPieces(fullName, ".");
  }

  /** A member's full name is its owner, a dot, possibly one `prototype`
      segment, and its name. */
  lemma DecomposeNameShape(fullName: string)
    requires Contains(fullName, ".")
    ensures var r := DecomposeName(fullName, false).value;
      fullName == r.0 + "." + r.1 ||
      fullName == r.0 + "." + PROTOTYPE + "." + r.1 ||
      (r.0 == "" && fullName == PROTOTYPE + "." + r.1)
  {
    var names := Fqn.Segments(fullName);
    SplitOnce(fullName);
    SplitPieces(fullName, ".");
    var n := |names|;
    var m := names[n - 1];
    if names[n - 2] == PROTOTYPE {
      if n >= 3 {
        OwnerWithPrototype(names);
      } else {
        BarePrototype(names);
      }
    } else {
      JoinLast(names, ".");
    }
  }

  lemma OwnerWithPrototype(names: seq<string>)
    requires |names| >= 3 && names[|names| - 2] == PROTOTYPE
    ensures Join(names, ".") == Owner(names) + "." + PROTOTYPE + "." + names[|names| - 1]
  {
    JoinLastTwo(names, ".");
  }

  lemma BarePrototype(names: seq<string>)
    requires |names| == 2 && names[0] == PROTOTYPE
    ensures Owner(names) == "" && Join(names, ".") == PROTOTYPE + "." + names[1]
  {
    assert names[..0] == [];
  }

  /** A list of at least three segments joins as its head, then its last
      two segments. */
  lemma JoinLastTwo(names: seq<string>, d: string)
    requires |names| >= 3
    ensures Join(names, d) == Join(names[..|names| - 2], d) + d + names[|names| - 2] + d + names[|names| - 1]
  {
    var n := |names|;
    var init := names[..n - 2];
    assert names == (init + [names[n - 2]]) + [names[n - 1]];
    JoinSnoc(init + [names[n - 2]], names[n - 1], d);
    JoinSnoc(init, names[n - 2], d);
  }

  /** A prototype member of `c` is owned by `c`. */
  lemma PrototypeMemberName(c: string, m: string)
    requires !Contains(m, ".")
    ensures DecomposeName(c + ".prototype." + m, false) == Ok((c, m))
  {
    var s := c + ".prototype." + m;
    PrototypeSegments(c, m);
    var names := Split(s, ".");
    assert names[..|names| - 2] == Split(c, ".");
    ContainsMiddle(c + ".prototype", ".", m);
  }

  lemma PrototypeSegments(c: string, m: string)
    requires !Contains(m, ".")
    ensures Split(c + ".prototype." + m, ".") == Split(c, ".") + ["prototype", m]
  {
    assert c + ".prototype." + m == (c + "." + "prototype") + "." + m;
    SplitSnoc(c + "." + "prototype", ".", m);
    assert !Contains("prototype", ".") by { NoCharLacks("prototype", '.'); }
    SplitSnoc(c, ".", "prototype");
  }

  /** A static member of `c` is owned by `c`, unless `c` itself ends with a
      `prototype` segment (which the code drops). */
  lemma StaticMemberName(c: string, m: string)
    requires !Contains(m, ".")
    requires Fqn.Name(c) != PROTOTYPE
    ensures DecomposeName(c + "." + m, false) == Ok((c, m))
  {
    SplitSnoc(c, ".", m);
    var cs := Split(c, ".");
    var names := Split(c + "." + m, ".");
    assert names == cs + [m];
    assert names[|names| - 2] == cs[|cs| - 1];
    assert names[..|names| - 1] == cs;
    assert Owner(names) == Join(cs, ".");
    ContainsMiddle(c, ".", m);
  }

  // ---------------------------------------------------------------------
  // what each kind computes

  /** `getGenericString(lines)`: `<A, B> ` from an `@template A,B` line, or
      nothing. */
  function GenericString(lines: seq<string>): (r: string)
    ensures FirstTagLine(lines, TEMPLATE).None? <==> r == ""
  {
    match FirstTagLine(lines, TEMPLATE)
    case None => ""
    case Some(line) =>
      assert OccursAt(line, TEMPLATE, 0);
      "<" + Join(Split(From(line, TEMPLATE).value, ","), ", ") + "> "
  }

  /** `@template A,B` gives `<A, B> `. */
  lemma GenericStringOf(lines: seq<string>, ns: seq<string>)
    requires |ns| >= 1 && forall i :: 0 <= i < |ns| ==> NoChar(ns[i], ',') && NoChar(ns[i], '@')
    requires FirstTagLine(lines, TEMPLATE) == Some(TEMPLATE + Join(ns, ","))
    ensures GenericString(lines) == "<" + Join(ns, ", ") + "> "
  {
    var j := Join(ns, ",");
    JoinNoChar(ns, ",", '@');
    TemplateNames(j);
    forall i | 0 <= i < |ns|
      ensures !Contains(ns[i], ",")
    {
      NoCharLacks(ns[i], ',');
    }
    SplitJoin(ns, ",");
  }

  /** The text after `@template ` is the whole name list when it holds no `@`. */
  lemma TemplateNames(j: string)
    requires NoChar(j, '@')
    ensures From(TEMPLATE + j, TEMPLATE) == Ok(j)
  {
    var t := TEMPLATE + j;
    forall k | 0 < k < |t|
      ensures t[k] != '@'
    {
      if k < |TEMPLATE| { assert t[k] == TEMPLATE[k]; }
      else { assert t[k] == j[k - |TEMPLATE|]; }
    }
    assert t[..|TEMPLATE|] == TEMPLATE;
    var r := LastIndexOf(t, TEMPLATE);
    assert OccursAt(t, TEMPLATE, 0);
    assert r >= 0;
    assert t[r] == t[r..r + |TEMPLATE|][0];
    assert t[|TEMPLATE|..] == j;
  }

  /** `getReturnType`: `Unit` without a `@returns` line; otherwise the hack
      table's type for an untyped line, or the parsed `{…}` type. */
  function ReturnType(h: HackTables, lines: seq<string>, className: string, name: string): (r: Result<string>)
    ensures FirstTagLine(lines, RETURNS).None? ==> r == Ok(UNIT)
    ensures FirstTagLine(lines, RETURNS).Some? && !StartsWith(FirstTagLine(lines, RETURNS).value, "@returns {") ==>
      (r.Ok? <==> h.returnType(className, name).Some?) &&
      (r.Ok? ==> r.value == h.returnType(className, name).value)
    ensures FirstTagLine(lines, RETURNS).Some? && StartsWith(FirstTagLine(lines, RETURNS).value, "@returns {") ==>
      r == ParseTypeLine(FirstTagLine(lines, RETURNS).value)
  {
    match FirstTagLine(lines, RETURNS)
    case None => Ok(UNIT)
    case Some(line) =>
      var hackType :- HackedReturnType(h, line, className, name);
      if hackType.Some? then Ok(hackType.value) else ParseTypeLine(line)
  }

  /** A typed `@returns {T} …` line gives the parsed `T`, whatever the hack
      table says. */
  lemma ReturnTypeOfTag(h: HackTables, lines: seq<string>, className: string, name: string, t: string, post: string)
    requires NoChar(t, '}') && !StartsWith(t, FUNCTION_START)
    requires FirstTagLine(lines, RETURNS) == Some(RETURNS + "{" + t + "}" + post)
    ensures ReturnType(h, lines, className, name) == ParseType(t)
  {
    var line := RETURNS + "{" + t + "}" + post;
    assert line[..10] == "@returns {";
    TypeLineRead(RETURNS, t, post);
  }

  function ClassBodyOf(lines: seq<string>): Body
  {
    ClassBody(lines, STATIC in lines, FINAL !in lines, ABSTRACT in lines)
  }

  /** `Const`: the type of its first `@type` line, with `<T>` widened. */
  function ConstBodyOf(lines: seq<string>): (r: Result<Body>)
    ensures FirstTagLine(lines, TYPE).None? ==> r.Err?
    ensures r.Ok? ==> r.value.ConstBody? && KindOf(r.value) == ConstKind
    ensures r.Ok? ==> r.value.constStatic == (STATIC in lines) && r.value.constProtected == (PROTECTED in lines)
  {
    match FirstTagLine(lines, TYPE)
    case None => Err("Collection contains no element matching the predicate.")
    case Some(line) => ConstBodyFrom(lines, line)
  }

  /** The constant a `@type` line describes. */
  function ConstBodyFrom(lines: seq<string>, line: string): (r: Result<Body>)
    ensures r.Ok? <==> ParseTypeLine(line).Ok?
    ensures r.Ok? ==> r.value.ConstBody? && KindOf(r.value) == ConstKind
    ensures r.Ok? ==> r.value.constStatic == (STATIC in lines) && r.value.constProtected == (PROTECTED in lines)
  {
    var t :- ParseTypeLine(line);
    Ok(ConstBody(STATIC in lines, PROTECTED in lines, ValidateStaticConstType(t)))
  }

  /** A constant's type is its first `@type` line's type, parsed, with `<T>`
      widened; the constant fails exactly when that type does. */
  lemma ConstBodyType(lines: seq<string>)
    requires FirstTagLine(lines, TYPE).Some?
    ensures var typed := ParseTypeLine(FirstTagLine(lines, TYPE).value);
      (ConstBodyOf(lines).Ok? <==> typed.Ok?) &&
      (typed.Ok? ==> ConstBodyOf(lines).value.constType == ValidateStaticConstType(typed.value))
  {
  }

  /** `@type {T}` with a kept name `T` gives a constant of type `T`. */
  lemma ConstTypeOf(lines: seq<string>, t: string, post: string)
    requires KeptName(t) && NoChar(t, '}') && !StartsWith(t, FUNCTION_START)
    requires FirstTagLine(lines, TYPE) == Some(TYPE + "{" + t + "}" + post)
    ensures ConstBodyOf(lines) == Ok(ConstBody(STATIC in lines, PROTECTED in lines, t))
  {
    ConstTypeLine(t, post);
  }

  /** A `@type {t}` line whose type is a kept name gives `t` as the
      constant's type. */
  lemma ConstTypeLine(t: string, post: string)
    requires KeptName(t) && NoChar(t, '}') && !StartsWith(t, FUNCTION_START)
    ensures ParseTypeLine(TYPE + "{" + t + "}" + post) == Ok(t) && ValidateStaticConstType(t) == t
  {
    TagsLackBraces();
    TypeLineRead(TYPE, t, post);
    KeptNameParses(t);
    ConstTypeKept(t);
  }

  /** The state of a `Function` or `Constructor` built from tag lines. */
  function FunctionInfoOf(h: HackTables, lines: seq<string>, className: string, name: string,
                          parameters: Parameters): (r: Result<FunctionInfo>)
    ensures r.Ok? ==>
      r.value.isStatic == (STATIC in lines) && r.value.isProtected == (PROTECTED in lines) &&
      r.value.isAbstract == (ABSTRACT in lines) && !r.value.generated &&
      r.value.parameters == parameters.items && r.value.generatedItems == parameters.generatedItems
    ensures r.Ok? && h.functionGenerics(className, name).None? ==> r.value.generics == GenericString(lines)
    ensures r.Ok? && h.functionGenerics(className, name).Some? ==> r.value.generics == h.functionGenerics(className, name).value
    ensures r.Ok? <==> ReturnType(h, lines, className, name).Ok?
    ensures r.Ok? ==> r.value.returnType == ReturnType(h, lines, className, name).value && r.value.lines == lines
  {
    var generics := match h.functionGenerics(className, name)
      case Some(g) => g
      case None => GenericString(lines);
    var returnType :- ReturnType(h, lines, className, name);
    Ok(FunctionInfo(STATIC in lines, PROTECTED in lines, ABSTRACT in lines, lines,
                    parameters.items, parameters.generatedItems, false, generics, returnType))
  }

  /** `adapter`: for an options object, the same function again, generated,
      taking the adapter parameters. */
  function Adapter(f: FunctionInfo): (r: Option<FunctionInfo>)
    ensures r.Some? <==> f.generatedItems.Some?
    ensures r.Some? ==> r.value.generated && r.value.parameters == f.generatedItems.value
    ensures r.Some? ==> r.value.returnType == f.returnType && r.value.generics == f.generics && r.value.lines == f.lines
  {
    match f.generatedItems
    case None => None
    case Some(items) => Some(f.(parameters := items, generatedItems := None, generated := true))
  }

  function KindOf(b: Body): Kind
  {
    match b
    case NamespaceBody => NamespaceKind
    case ClassBody(_, _, _, _) => ClassKind
    case InterfaceBody(_) => InterfaceKind
    case EnumBody(_) => EnumKind
    case ConstructorBody(_) => ConstructorKind
    case ConstBody(_, _, _) => ConstKind
    case EnumValueBody => EnumValueKind
    case PropertyBody => PropertyKind
    case FunctionBody(_) => FunctionKind
  }

  /** `Declaration.parse(source, lines)` together with the construction of
      the chosen kind. A function computes its parameters before its names,
      as its constructor's argument is evaluated first. */
  function ParseDeclaration(h: HackTables, source: string, lines: seq<string>): (r: Result<Declaration>)
    ensures r.Ok? ==> ParseData(source).Ok? && r.value.data == ParseData(source).value
    ensures r.Ok? ==> KindOf(r.value.body) == Classify(source, lines, r.value.data)
    ensures r.Ok? ==> DecomposeName(r.value.data.name, InstanceMode(KindOf(r.value.body))) == Ok((r.value.className, r.value.name))
    ensures r.Ok? && r.value.IsInstanceDec() ==> r.value.InstanceLines() == lines
  {
    var data :- ParseData(source);
    var kind := Classify(source, lines, data);
    if kind == ConstructorKind || kind == FunctionKind then
      var r := BuildFunction(h, data, kind, lines);
      if r.Err? then r
      else
        FunctionBodyKind(r.value.body, kind);
        r
    else BuildOther(data, kind, lines)
  }

  function BuildFunction(h: HackTables, data: Data, kind: Kind, lines: seq<string>): (r: Result<Declaration>)
    requires kind == ConstructorKind || kind == FunctionKind
    ensures r.Ok? ==> r.value.data == data
    ensures r.Ok? ==> (kind == ConstructorKind ==> r.value.body.ConstructorBody?) && (kind == FunctionKind ==> r.value.body.FunctionBody?)
    ensures r.Ok? ==> DecomposeName(data.name, InstanceMode(kind)) == Ok((r.value.className, r.value.name))
  {
    var parameters := CalculateParameters(h, data, lines);
    if parameters.Err? then Err(parameters.msg)
    else
      var names := DecomposeName(data.name, InstanceMode(kind));
      if names.Err? then Err(names.msg)
      else
        WithInfo(h, data, kind, lines, names.value.0, names.value.1, parameters.value)
  }

  lemma FunctionBodyKind(b: Body, kind: Kind)
    requires kind == ConstructorKind || kind == FunctionKind
    requires (kind == ConstructorKind ==> b.ConstructorBody?) && (kind == FunctionKind ==> b.FunctionBody?)
    ensures KindOf(b) == kind
  {
  }

  function WithInfo(h: HackTables, data: Data, kind: Kind, lines: seq<string>, className: string, name: string,
                    parameters: Parameters): (r: Result<Declaration>)
    requires kind == ConstructorKind || kind == FunctionKind
    ensures r.Ok? ==> r.value.data == data && r.value.className == className && r.value.name == name
    ensures r.Ok? ==> (kind == ConstructorKind ==> r.value.body.ConstructorBody?) && (kind == FunctionKind ==> r.value.body.FunctionBody?)
  {
    var f := FunctionInfoOf(h, lines, className, name, parameters);
    if f.Err? then Err(f.msg)
    else if kind == ConstructorKind then Ok(Declaration(data, className, name, ConstructorBody(f.value)))
    else Ok(Declaration(data, className, name, FunctionBody(f.value)))
  }

  function BuildOther(data: Data, kind: Kind, lines: seq<string>): (r: Result<Declaration>)
    requires kind != ConstructorKind && kind != FunctionKind
    ensures r.Ok? ==> r.value.data == data && KindOf(r.value.body) == kind
    ensures r.Ok? ==> DecomposeName(data.name, InstanceMode(kind)) == Ok((r.value.className, r.value.name))
    ensures r.Ok? && r.value.IsInstanceDec() ==> r.value.InstanceLines() == lines
  {
    var names := DecomposeName(data.name, InstanceMode(kind));
    if names.Err? then Err(names.msg)
    else
      var body := BodyOf(kind, lines);
      if body.Err? then Err(body.msg)
      else Ok(Declaration(data, names.value.0, names.value.1, body.value))
  }

  /** The body of every kind other than a function or constructor. */
  function BodyOf(kind: Kind, lines: seq<string>): (r: Result<Body>)
    requires kind != ConstructorKind && kind != FunctionKind
    ensures r.Ok? ==> KindOf(r.value) == kind
    ensures r.Err? ==> kind == ConstKind
    ensures r.Ok? && (kind == ClassKind || kind == InterfaceKind || kind == EnumKind) ==>
      (r.value.ClassBody? && r.value.classLines == lines) ||
      (r.value.InterfaceBody? && r.value.interfaceLines == lines) ||
      (r.value.EnumBody? && r.value.enumLines == lines)
  {
    match kind
    case NamespaceKind => Ok(NamespaceBody)
    case ClassKind => Ok(ClassBodyOf(lines))
    case InterfaceKind => Ok(InterfaceBody(lines))
    case EnumKind => Ok(EnumBody(lines))
    case ConstKind => ConstBodyOf(lines)
    case EnumValueKind => Ok(EnumValueBody)
    case PropertyKind => Ok(PropertyBody)
  }

  /** A constant without a `@type` line cannot be built. */
  lemma ConstNeedsType(h: HackTables, source: string, lines: seq<string>)
    requires ParseData(source).Ok?
    requires Classify(source, lines, ParseData(source).value) == ConstKind
    requires FirstTagLine(lines, TYPE).None?
    ensures ParseDeclaration(h, source, lines).Err?
  {
  }

  /** `toClassDec`: the class a constructor stands for when no class block
      declares it. */
  function ToClassDec(d: Declaration): (r: Declaration)
    requires d.body.ConstructorBody?
    ensures r.IsInstanceDec() && r.body.ClassBody? && r.className == d.className && r.data == d.data
    ensures r.name == d.name && r.body == ClassBodyOf(d.body.ctor.lines)
  {
    Declaration(d.data, d.className, d.name, ClassBodyOf(d.body.ctor.lines))
  }

  // ---------------------------------------------------------------------
  // InstanceDec: super types

  /** `extendedType()`: the parsed `@extends` type, unless the hack table
      ignores it. */
  function ExtendedType(h: HackTables, d: Declaration): (r: Result<Option<string>>)
    requires d.IsInstanceDec()
    ensures h.ignoreExtendedType(d.className) ==> r == Ok(None)
    ensures FirstTagLine(d.InstanceLines(), EXTENDS).None? ==> r == Ok(None)
    ensures !h.ignoreExtendedType(d.className) && FirstTagLine(d.InstanceLines(), EXTENDS).Some? ==>
      var t := FindType(FirstTagLine(d.InstanceLines(), EXTENDS).value);
      (r.Ok? <==> LineTypeParses(FirstTagLine(d.InstanceLines(), EXTENDS).value)) &&
      (r.Ok? ==> r.value == Some(ParseType(t.value).value))
  {
    if h.ignoreExtendedType(d.className) then Ok(None)
    else
      match FirstTagLine(d.InstanceLines(), EXTENDS)
      case None => Ok(None)
      case Some(line) =>
        var t :- FindType(line);
        var p :- ParseType(t);
        Ok(Some(p))
  }

  /** `implementedTypes()`: the hack table's list, or every `@implements`
      line's type, in order. */
  function ImplementedTypes(h: HackTables, d: Declaration): (r: Result<seq<string>>)
    requires d.IsInstanceDec()
    ensures h.implementedTypes(d.className).Some? ==> r == Ok(h.implementedTypes(d.className).value)
    ensures h.implementedTypes(d.className).None? && r.Ok? ==> |r.value| == |TagLines(d.InstanceLines(), IMPLEMENTS)|
    ensures h.implementedTypes(d.className).None? ==> r == ParseTypeLines(TagLines(d.InstanceLines(), IMPLEMENTS))
  {
    match h.implementedTypes(d.className)
    case Some(ts) => Ok(ts)
    case None => ParseTypeLines(TagLines(d.InstanceLines(), IMPLEMENTS))
  }

  function ParseTypeLines(lines: seq<string>): (r: Result<seq<string>>)
    ensures r.Ok? ==> |r.value| == |lines|
    ensures r.Ok? <==> forall i :: 0 <= i < |lines| ==> LineTypeParses(lines[i])
    ensures r.Ok? ==> forall i :: 0 <= i < |lines| ==> LineType(lines[i]) == r.value[i]
    decreases |lines|
  {
    if |lines| == 0 then Ok([])
    else
      assert forall i :: 1 <= i < |lines| ==> lines[i] == lines[1..][i - 1];
      var t :- FindType(lines[0]);
      var p :- ParseType(t);
      var rest :- ParseTypeLines(lines[1..]);
      Ok([p] + rest)
  }

  /** The `{…}` type of a line is found and parses. */
  predicate LineTypeParses(line: string)
  {
    FindType(line).Ok? && ParseType(FindType(line).value).Ok?
  }

  /** The parsed `{…}` type of a line whose type parses. */
  function LineType(line: string): string
    requires LineTypeParses(line)
  {
    ParseType(FindType(line).value).value
  }

  /** `@extends {T}` with a kept name gives `T`. */
  lemma ExtendedTypeOf(h: HackTables, d: Declaration, t: string, post: string)
    requires d.IsInstanceDec() && !h.ignoreExtendedType(d.className)
    requires KeptName(t) && NoChar(t, '}')
    requires FirstTagLine(d.InstanceLines(), EXTENDS) == Some(EXTENDS + "{" + t + "}" + post)
    ensures ExtendedType(h, d) == Ok(Some(t))
  {
    TagsLackBraces();
    FoundTypeKept(EXTENDS, t, post);
  }

  /** The tags read through braces hold no braces of their own. */
  lemma TagsLackBraces()
    ensures NoChar(EXTENDS, '{') && NoChar(EXTENDS, '}')
    ensures NoChar(IMPLEMENTS, '{') && NoChar(IMPLEMENTS, '}')
    ensures NoChar(TYPE, '{') && NoChar(TYPE, '}')
  {
  }

  /** The braces of a tag line holding a kept name give that name, which
      parses to itself. */
  lemma FoundTypeKept(tag: string, t: string, post: string)
    requires NoChar(tag, '{') && NoChar(tag, '}')
    requires KeptName(t) && NoChar(t, '}')
    ensures FindType(tag + "{" + t + "}" + post) == Ok(t) && ParseType(t) == Ok(t)
  {
    FindTypeOf(tag, t, post);
    KeptNameParses(t);
  }

  /** `@implements {A}`, `@implements {B}` give `[A, B]`, in order. */
  lemma ImplementedTypesOf(h: HackTables, d: Declaration, a: string, b: string)
    requires d.IsInstanceDec() && h.implementedTypes(d.className).None?
    requires KeptName(a) && NoChar(a, '}') && KeptName(b) && NoChar(b, '}')
    requires TagLines(d.InstanceLines(), IMPLEMENTS) == [IMPLEMENTS + "{" + a + "}", IMPLEMENTS + "{" + b + "}"]
    ensures ImplementedTypes(h, d) == Ok([a, b])
  {
    var tagged := TagLines(d.InstanceLines(), IMPLEMENTS);
    var ts := [a, b];
    forall i | 0 <= i < |tagged|
      ensures LineTypeParses(tagged[i]) && LineType(tagged[i]) == ts[i]
    {
      if i == 0 {
        KeptTypeLine(IMPLEMENTS, a);
      } else {
        KeptTypeLine(IMPLEMENTS, b);
      }
    }
    ParseTypeLinesOf(tagged, ts);
  }

  lemma KeptTypeLine(tag: string, t: string)
    requires NoChar(tag, '{') && NoChar(tag, '}')
    requires KeptName(t) && NoChar(t, '}')
    ensures LineTypeParses(tag + "{" + t + "}") && LineType(tag + "{" + t + "}") == t
  {
    FindTypeOf(tag, t, "");
    assert tag + "{" + t + "}" + "" == tag + "{" + t + "}";
    KeptNameParses(t);
  }

  lemma ParseTypeLinesOf(lines: seq<string>, ts: seq<string>)
    requires |lines| == |ts|
    requires forall i :: 0 <= i < |lines| ==> LineTypeParses(lines[i]) && LineType(lines[i]) == ts[i]
    ensures ParseTypeLines(lines) == Ok(ts)
  {
    var r := ParseTypeLines(lines);
    assert r.Ok?;
    SameEntries(r.value, ts, lines);
  }

  lemma SameEntries(r: seq<string>, ts: seq<string>, lines: seq<string>)
    requires |r| == |ts| == |lines|
    requires forall i :: 0 <= i < |lines| ==> LineTypeParses(lines[i]) && LineType(lines[i]) == ts[i]
    requires forall i :: 0 <= i < |lines| ==> LineType(lines[i]) == r[i]
    ensures r == ts
  {
    assert forall i :: 0 <= i < |ts| ==> r[i] == ts[i];
  }
}
