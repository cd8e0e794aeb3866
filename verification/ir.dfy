/** The intermediate representation the generator builds from each comment
    block: the split signature (`Data`), parameters, and one declaration
    variant per kind, together with the tag markers they are read from. */
module Ir {
  import opened Wrappers
  import opened Text

  const NAMESPACE := "@namespace"
  const CLASS := "@class "
  const INTERFACE := "@interface"
  const CONSTRUCTOR := "@constructor"
  const CONST := "@const"
  const STATIC := "@static"
  const FINAL := "@final"
  const ABSTRACT := "@abstract"
  const PROTECTED := "@protected"
  const IMPLEMENTS := "@implements "
  const EXTENDS := "@extends "
  const EXTENDS_ENUM := "@extends {yfiles.lang.Enum}"
  const TEMPLATE := "@template "
  const PARAM := "@param "
  const RETURNS := "@returns "
  const TYPE := "@type "
  const NULL_VALUE := "null;"

  /** A signature line `name=value`, kept with its source. */
  datatype Data = Data(source: string, name: string, value: string)
  {
    predicate NullValue() { value == NULL_VALUE }
  }

  datatype Parameter = Parameter(name: string, typ: string, defaultValue: Option<string>, vararg: bool)

  /** A parameter with neither default value nor `vararg`. */
  function Simple(name: string, typ: string): Parameter
  {
    Parameter(name, typ, None, false)
  }

  /** What a `Function` (or `Constructor`) computes when it is built.
      `generatedItems` holds the options-adapter parameters, if any. */
  datatype FunctionInfo = FunctionInfo(
    isStatic: bool,
    isProtected: bool,
    isAbstract: bool,
    lines: seq<string>,
    parameters: seq<Parameter>,
    generatedItems: Option<seq<Parameter>>,
    generated: bool,
    generics: string,
    returnType: string)

  datatype Body =
    | NamespaceBody
    | ClassBody(classLines: seq<string>, classStatic: bool, open: bool, classAbstract: bool)
    | InterfaceBody(interfaceLines: seq<string>)
    | EnumBody(enumLines: seq<string>)
    | ConstructorBody(ctor: FunctionInfo)
    | ConstBody(constStatic: bool, constProtected: bool, constType: string)
    | EnumValueBody
    | PropertyBody
    | FunctionBody(fun: FunctionInfo)

  datatype Declaration = Declaration(data: Data, className: string, name: string, body: Body)
  {
    /** `is InstanceDec`: classes, interfaces and enums. */
    predicate IsInstanceDec() { body.ClassBody? || body.InterfaceBody? || body.EnumBody? }

    /** `is Function && it !is Constructor`. */
    predicate IsPlainFunction() { body.FunctionBody? }

    /** The tag lines an instance declaration keeps. */
    function InstanceLines(): seq<string>
      requires IsInstanceDec()
    {
      match body
      case ClassBody(ls, _, _, _) => ls
      case InterfaceBody(ls) => ls
      case EnumBody(ls) => ls
    }
  }

  /** `lines.filter { it.startsWith(prefix) }`. */
  function TagLines(lines: seq<string>, prefix: string): (r: seq<string>)
    ensures forall l :: l in r ==> l in lines && StartsWith(l, prefix)
    ensures forall l :: l in lines && StartsWith(l, prefix) ==> l in r
    decreases |lines|
  {
    if |lines| == 0 then []
    else
      var rest := TagLines(lines[1..], prefix);
      assert forall l :: l in lines[1..] ==> l in lines;
      if StartsWith(lines[0], prefix) then [lines[0]] + rest else rest
  }

  /** `filter` keeps order and multiplicity: filtering a concatenation is
      concatenating the filtered parts, and one line is kept exactly when it
      has the prefix. */
  lemma {:induction false} TagLinesAppend(a: seq<string>, b: seq<string>, prefix: string)
    ensures TagLines(a + b, prefix) == TagLines(a, prefix) + TagLines(b, prefix)
    decreases |a|
  {
    if |a| > 0 {
      assert (a + b)[1..] == a[1..] + b;
      TagLinesAppend(a[1..], b, prefix);
    } else {
      assert a + b == b;
    }
  }

  lemma TagLinesOne(l: string, prefix: string)
    ensures TagLines([l], prefix) == if StartsWith(l, prefix) then [l] else []
  {
  }

  /** No line before position `i` has the prefix. */
  predicate NoneBefore(lines: seq<string>, prefix: string, i: int)
  {
    forall j :: 0 <= j < i && j < |lines| ==> !StartsWith(lines[j], prefix)
  }

  /** `lines.firstOrNull { it.startsWith(prefix) }`: the line at the first
      position with the prefix. */
  function FirstTagLine(lines: seq<string>, prefix: string): (r: Option<string>)
    ensures r.Some? ==> r.value in lines && StartsWith(r.value, prefix)
    ensures r.Some? ==> exists i :: 0 <= i < |lines| && lines[i] == r.value && NoneBefore(lines, prefix, i)
    ensures r.None? <==> forall i :: 0 <= i < |lines| ==> !StartsWith(lines[i], prefix)
    decreases |lines|
  {
    if |lines| == 0 then None
    else if StartsWith(lines[0], prefix) then Some(lines[0])
    else
      var r := FirstTagLine(lines[1..], prefix);
      assert forall i :: 1 <= i < |lines| ==> lines[i] == lines[1..][i - 1];
      if r.Some? then FirstShift(lines, prefix, r.value); r else r
  }

  /** A first matching line of the tail, behind a non-matching head, is a
      first matching line of the whole. */
  lemma FirstShift(lines: seq<string>, prefix: string, v: string)
    requires |lines| > 0 && !StartsWith(lines[0], prefix)
    requires exists i :: 0 <= i < |lines[1..]| && lines[1..][i] == v && NoneBefore(lines[1..], prefix, i)
    ensures exists i :: 0 <= i < |lines| && lines[i] == v && NoneBefore(lines, prefix, i)
  {
    var i :| 0 <= i < |lines[1..]| && lines[1..][i] == v && NoneBefore(lines[1..], prefix, i);
    forall j | 0 <= j < i + 1 ensures !StartsWith(lines[j], prefix) {
      if j > 0 { assert lines[j] == lines[1..][j - 1]; }
    }
    assert lines[i + 1] == v;
  }

  /** The first tag line is the head of the filtered lines. */
  lemma {:induction false} FirstTagLineIsFirstFiltered(lines: seq<string>, prefix: string)
    ensures FirstTagLine(lines, prefix).None? <==> TagLines(lines, prefix) == []
    ensures FirstTagLine(lines, prefix).Some? ==> FirstTagLine(lines, prefix).value == TagLines(lines, prefix)[0]
    decreases |lines|
  {
    if |lines| > 0 && !StartsWith(lines[0], prefix) {
      FirstTagLineIsFirstFiltered(lines[1..], prefix);
    }
  }
}
