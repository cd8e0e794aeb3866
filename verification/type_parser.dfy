/** The type-string parser of the declaration generator: `parseType`,
    `parseGenericParameters`, `firstGenericType`, `parseFunctionType`,
    `findType` and `parseTypeLine` of build.gradle.kts, and the constants
    they share. Generic arguments are written `Name.<A, B>`; the output uses
    Kotlin's `Name<A, B>`. */
module TypeParser {
  import opened Wrappers
  import opened Text
  import opened StringUtil

  const UNIT := "Unit"
  const OBJECT_TYPE := "yfiles.lang.Object"
  const CLASS_TYPE := "yfiles.lang.Class"
  const ENUM_TYPE := "yfiles.lang.Enum"

  const GENERIC_START := ".<"
  const GENERIC_END := ">"
  const FUNCTION_START := "function("
  const FUNCTION_END := "): "

  /** `STANDARD_TYPE_MAP`: foreign primitive and DOM names and their Kotlin
      counterparts, as a table of distinct keys. */
  const STANDARD_TYPES: seq<(string, string)> := [
    ("Object", OBJECT_TYPE),
    ("object", OBJECT_TYPE),
    ("boolean", "Boolean"),
    ("string", "String"),
    ("number", "Number"),
    ("void", UNIT),
    ("Event", "org.w3c.dom.events.Event"),
    ("KeyboardEvent", "org.w3c.dom.events.KeyboardEvent"),
    ("Node", "org.w3c.dom.Node"),
    ("Element", "org.w3c.dom.Element"),
    ("HTMLElement", "org.w3c.dom.HTMLElement"),
    ("HTMLDivElement", "org.w3c.dom.HTMLDivElement"),
    ("SVGElement", "org.w3c.dom.svg.SVGElement"),
    ("SVGDefsElement", "org.w3c.dom.svg.SVGDefsElement"),
    ("SVGGElement", "org.w3c.dom.svg.SVGGElement"),
    ("SVGImageElement", "org.w3c.dom.svg.SVGImageElement"),
    ("SVGTextElement", "org.w3c.dom.svg.SVGTextElement"),
    ("Promise", "kotlin.js.Promise")
  ]

  /** Map lookup in a table: the value of the first entry with key `k`. */
  function Lookup(table: seq<(string, string)>, k: string): (r: Option<string>)
    ensures r.Some? <==> exists i :: 0 <= i < |table| && table[i].0 == k
    ensures r.Some? ==> exists i :: 0 <= i < |table| && table[i] == (k, r.value)
    decreases |table|
  {
    if |table| == 0 then None
    else if table[0].0 == k then Some(table[0].1)
    else
      var r := Lookup(table[1..], k);
      if r.Some? then
        var i :| 0 <= i < |table| - 1 && table[1..][i] == (k, r.value);
        assert table[i + 1] == (k, r.value);
        r
      else
        assert forall i :: 1 <= i < |table| ==> table[i] == table[1..][i - 1];
        r
  }

  function StandardType(t: string): Option<string>
  {
    Lookup(STANDARD_TYPES, t)
  }

  // ---------------------------------------------------------------------
  // firstGenericType and its index selection

  /** Kotlin `minWith(Comparator { o1, o2 -> Math.min(o1, o2) })`: the
      running candidate `m` is replaced by the next element `e` whenever the
      "comparison" `min(m, e)` is positive, which is not a minimum. */
  function MinWithQuirk(xs: seq<int>): int
    requires |xs| > 0
  {
    QuirkFold(xs[0], xs[1..])
  }

  function QuirkFold(m: int, xs: seq<int>): int
    decreases |xs|
  {
    if |xs| == 0 then m
    else QuirkFold(if Min(m, xs[0]) > 0 then xs[0] else m, xs[1..])
  }

  function Min(a: int, b: int): int
  {
    if a <= b then a else b
  }

  /** Over three non-negative candidates the selection is the last positive
      one, or 0 as soon as the first candidate is 0. */
  lemma MinWithQuirkOfThree(a: int, b: int, c: int)
    requires a >= 0 && b >= 0 && c >= 0
    ensures MinWithQuirk([a, b, c]) ==
      if a == 0 then 0 else if c > 0 then c else if b > 0 then b else a
  {
    var m1 := if Min(a, b) > 0 then b else a;
    var m2 := if Min(m1, c) > 0 then c else m1;
    assert [a, b, c][1..] == [b, c];
    assert [b, c][1..] == [c];
    assert [c][1..] == [];
    assert QuirkFold(m2, []) == m2;
    assert QuirkFold(m1, [c]) == m2;
    assert QuirkFold(a, [b, c]) == m2;
  }

  /** The selection does not compute a minimum. */
  lemma MinWithQuirkIsNotMinimum()
    ensures MinWithQuirk([1, 3, 6]) == 6
  {
    MinWithQuirkOfThree(1, 3, 6);
  }

  /** Kotlin `List.indexOf`: the first slot holding `x`, or -1. */
  function SlotOf(xs: seq<int>, x: int): (r: int)
    ensures r == -1 || (0 <= r < |xs| && xs[r] == x)
    ensures r == -1 <==> x !in xs
    ensures forall j :: 0 <= j < r ==> xs[j] != x
    decreases |xs|
  {
    if |xs| == 0 then -1
    else if xs[0] == x then 0
    else var k := SlotOf(xs[1..], x); if k == -1 then -1 else k + 1
  }

  /** The index that stands for "not found" in the selection. */
  const SENTINEL := 100000

  /** The `map` over the three found indexes: "not found" becomes the
      sentinel. */
  function OrSentinel(i: int): (r: int)
    ensures i == -1 ==> r == SENTINEL
    ensures i != -1 ==> r == i
  {
    if i == -1 then SENTINEL else i
  }

  datatype Step = Continue(index: nat, semafor: int) | Return(value: string)

  /** One turn of the `while (true)` loop of `firstGenericType`. */
  function FirstGenericStep(s: string, index: nat, semafor: int): (r: Step)
    ensures r.Return? ==> StartsWith(s, r.value)
    ensures r.Return? && r.value != s ==> |r.value| + 2 <= |s| && s[|r.value|] == ','
  {
    var indexes := [IndexOfFrom(s, ",", index), IndexOfFrom(s, GENERIC_START, index), IndexOfFrom(s, GENERIC_END, index)];
    if indexes[0] == -1 && indexes[1] == -1 && indexes[2] == -1 then
      Return(s)
    else
      var mapped := [OrSentinel(indexes[0]), OrSentinel(indexes[1]), OrSentinel(indexes[2])];
      var selected := MinWithQuirk(mapped);
      if selected == -1 || selected == |s| - 1 then
        Return(s)
      else
        var slot := SlotOf(indexes, selected);
        if slot == 0 && semafor == 0 then
          assert OccursAt(s, ",", selected);
          Return(s[..selected])
        else
          var semafor' := if slot == 1 then semafor + 1 else if slot == 2 then semafor - 1 else semafor;
          Continue(if selected + 1 >= 0 then selected + 1 else 0, semafor')
  }

  /** The `while (true)` loop around any body that either returns a value
      or goes on from a new state; `fuel` bounds the number of turns. */
  function Run(step: (nat, int) -> Step, index: nat, semafor: int, fuel: nat): (r: Result<string>)
    ensures r.Ok? ==> exists i: nat, sm: int :: step(i, sm) == Return(r.value)
    decreases fuel
  {
    if fuel == 0 then Err("firstGenericType does not terminate")
    else
      match step(index, semafor)
      case Return(v) => Ok(v)
      case Continue(i, sm) => Run(step, i, sm, fuel - 1)
  }

  function FirstGenericLoop(s: string, index: nat, semafor: int, fuel: nat): (r: Result<string>)
    ensures r.Ok? ==> StartsWith(s, r.value)
    ensures r.Ok? && r.value != s ==> |r.value| + 2 <= |s| && s[|r.value|] == ','
  {
    var step := (i: nat, sm: int) => FirstGenericStep(s, i, sm);
    var r := Run(step, index, semafor, fuel);
    if r.Ok? then
      var i: nat, sm: int :| step(i, sm) == Return(r.value);
      r
    else r
  }

  /** `firstGenericType(parameters)`: meant to cut off the first top-level
      generic argument. The result is always a prefix of the input, and a
      proper one only when it stops right before a comma. */
  function FirstGenericType(s: string): (r: Result<string>)
    ensures r.Ok? ==> StartsWith(s, r.value)
    ensures r.Ok? && r.value != s ==> |r.value| + 2 <= |s| && s[|r.value|] == ','
  {
    FirstGenericLoop(s, 0, 0, |s| + SENTINEL + 2)
  }

  lemma OccursCharAt(s: string, c: char, k: int)
    requires OccursAt(s, [c], k)
    ensures 0 <= k < |s| && s[k] == c
  {
    assert s[k..k + 1][0] == s[k];
  }

  /** Turns of the loop left at most, from `index` on. */
  function Budget(s: string, index: nat): (r: nat)
    ensures r >= 1
  {
    if index > |s| then 1 else |s| - index + 3
  }

  /** A turn that returns the whole text or moves on to a later index with
      a smaller budget. */
  predicate Advances(s: string, index: nat, st: Step)
  {
    st == Return(s) || (st.Continue? && index < st.index && Budget(s, st.index) < Budget(s, index))
  }

  /** Below the sentinel, and unless the very first character is a comma,
      every turn of the loop either returns the whole text or moves to a
      later index that is past the end or before the last character. */
  lemma FirstGenericStepAdvances(s: string, index: nat, semafor: int)
    requires |s| < SENTINEL
    requires !(index == 0 && |s| > 0 && s[0] == ',')
    ensures Advances(s, index, FirstGenericStep(s, index, semafor))
  {
    var i0 := IndexOfFrom(s, ",", index);
    var i1 := IndexOfFrom(s, GENERIC_START, index);
    var i2 := IndexOfFrom(s, GENERIC_END, index);
    var indexes := [i0, i1, i2];
    if !(i0 == -1 && i1 == -1 && i2 == -1) {
      var mapped := [OrSentinel(indexes[0]), OrSentinel(indexes[1]), OrSentinel(indexes[2])];
      if i0 != -1 { OccursCharAt(s, ',', i0); }
      if i1 != -1 { assert OccursAt(s, ".", i1) by { assert s[i1..i1 + 1] == s[i1..i1 + 2][..1]; } OccursCharAt(s, '.', i1); }
      if i2 != -1 { OccursCharAt(s, '>', i2); }
      assert mapped == [mapped[0], mapped[1], mapped[2]];
      assert mapped[0] > 0;
      MinWithQuirkOfThree(mapped[0], mapped[1], mapped[2]);
      var selected := MinWithQuirk(mapped);
      if i2 != 0 {
        assert selected == mapped[2];
        if i2 == -1 {
          assert SlotOf(indexes, selected) == -1;
        } else if selected != |s| - 1 {
          assert SlotOf(indexes, selected) == 2;
        }
      } else {
        assert i1 != 0;
        assert selected == mapped[1];
        if i1 == -1 {
          assert SlotOf(indexes, selected) == -1;
        } else {
          assert SlotOf(indexes, selected) == 1;
        }
      }
    }
  }

  /** A loop whose every turn (except one starting on a leading comma)
      advances returns the whole text, given its budget. */
  lemma {:induction false} RunWhole(step: (nat, int) -> Step, s: string, index: nat, semafor: int, fuel: nat)
    requires forall i: nat, sm: int :: !(i == 0 && |s| > 0 && s[0] == ',') ==> Advances(s, i, step(i, sm))
    requires !(index == 0 && |s| > 0 && s[0] == ',')
    requires fuel >= Budget(s, index)
    ensures Run(step, index, semafor, fuel) == Ok(s)
    decreases fuel
  {
    var st := step(index, semafor);
    assert Advances(s, index, st);
    if st.Continue? {
      RunWhole(step, s, st.index, st.semafor, fuel - 1);
    }
  }

  lemma FirstGenericLoopWhole(s: string, fuel: nat)
    requires |s| < SENTINEL
    requires !(|s| > 0 && s[0] == ',')
    requires fuel >= Budget(s, 0)
    ensures FirstGenericLoop(s, 0, 0, fuel) == Ok(s)
  {
    var step := (i: nat, sm: int) => FirstGenericStep(s, i, sm);
    forall i: nat, sm: int | !(i == 0 && |s| > 0 && s[0] == ',')
      ensures Advances(s, i, step(i, sm))
    {
      FirstGenericStepAdvances(s, i, sm);
    }
    RunWhole(step, s, 0, 0, fuel);
  }

  /** What `firstGenericType` actually computes on inputs shorter than the
      sentinel: the empty prefix when the text starts with a comma (and has
      more than one character), and otherwise the whole text. It never cuts
      at a later top-level comma. */
  lemma {:induction false} FirstGenericTypeQuirk(s: string)
    requires |s| < SENTINEL
    ensures FirstGenericType(s) == Ok(if |s| >= 2 && s[0] == ',' then "" else s)
  {
    if |s| > 0 && s[0] == ',' {
      assert OccursAt(s, ",", 0) by { assert s[0..1] == [s[0]]; }
      var indexes := [IndexOfFrom(s, ",", 0), IndexOfFrom(s, GENERIC_START, 0), IndexOfFrom(s, GENERIC_END, 0)];
      assert indexes[0] == 0;
      var mapped := [OrSentinel(indexes[0]), OrSentinel(indexes[1]), OrSentinel(indexes[2])];
      assert mapped == [0, mapped[1], mapped[2]];
      MinWithQuirkOfThree(0, mapped[1], mapped[2]);
      assert SlotOf(indexes, 0) == 0;
      if |s| >= 2 {
        assert FirstGenericStep(s, 0, 0) == Return(s[..0]);
      } else {
        assert FirstGenericStep(s, 0, 0) == Return(s);
      }
    } else {
      FirstGenericLoopWhole(s, |s| + SENTINEL + 2);
    }
  }

  /** The cut is not at the first top-level comma: `K, List.<V>` is kept whole. */
  lemma FirstGenericTypeKeepsTopLevelComma()
    ensures FirstGenericType("K, List.<V>") == Ok("K, List.<V>")
  {
    FirstGenericTypeQuirk("K, List.<V>");
  }

  // ---------------------------------------------------------------------
  // parseType / parseGenericParameters

  /** `parseType(type)`. A union keeps its first alternative, a standard name
      is mapped, a plain name is kept, and `Main.<Args>` becomes
      `Main<Args>` with both parts parsed. Only generic syntax can fail. */
  function ParseType(t: string): (r: Result<string>)
    ensures !Contains(t, GENERIC_START) ==> r.Ok?
    decreases |t|, 0, 0
  {
    if Contains(t, "|") then
      var first := Split(t, "|")[0];
      SplitFirstShorter(t, "|");
      if !Contains(t, GENERIC_START) then
        PrefixLacks(t, first, GENERIC_START);
        ParseType(first)
      else
        ParseType(first)
    else if StandardType(t).Some? then
      Ok(StandardType(t).value)
    else if !Contains(t, GENERIC_START) then
      Ok(t)
    else
      var main :- Till(t, GENERIC_START);
      var mainType :- ParseType(main);
      var inner :- Between(t, GENERIC_START, GENERIC_END, false);
      var parametrized :- ParseGenericParameters(inner);
      Ok(mainType + "<" + Join(parametrized, ", ") + ">")
  }

  /** `parseGenericParameters(parameters)`: without nested generics the
      comma-separated names are parsed one by one; otherwise the text is cut
      at `firstGenericType`, whose piece is kept as it is. */
  function ParseGenericParameters(p: string): (r: Result<seq<string>>)
    ensures r.Ok? ==> |r.value| >= 1
    ensures !Contains(p, GENERIC_START) ==> r == ParseSplit(p, ",")
    decreases |p|, 4, 0
  {
    if !Contains(p, GENERIC_START) then
      ParseSplit(p, ",")
    else
      var first :- FirstGenericType(p);
      if first == p then
        var t :- ParseType(first);
        Ok([t])
      else
        var rest :- ParseGenericParameters(p[|first| + 1..]);
        Ok([first] + rest)
  }

  /** `map { parseType(it) }`, failing on the first failure. */
  function ParseAll(ps: seq<string>, bound: nat): (r: Result<seq<string>>)
    requires forall p :: p in ps ==> |p| <= bound
    ensures r.Ok? ==> |r.value| == |ps|
    decreases bound, 1, |ps|
  {
    if |ps| == 0 then Ok([])
    else
      assert forall i :: 1 <= i < |ps| ==> ps[i] == ps[1..][i - 1];
      var h :- ParseType(ps[0]);
      var t :- ParseAll(ps[1..], bound);
      Ok([h] + t)
  }

  /** `parseFunctionType(type)`: `function(A,B): R` becomes `(A, B) -> R`. */
  function ParseFunctionType(t: string): (r: Result<string>)
    ensures r.Ok? ==> StartsWith(r.value, "(") && Contains(r.value, ") -> ")
    ensures r.Ok? <==>
      Between(t, FUNCTION_START, FUNCTION_END, false).Ok? &&
      ParseSplit(Between(t, FUNCTION_START, FUNCTION_END, false).value, ",").Ok? &&
      ParseType(From(t, FUNCTION_END).value).Ok?
    ensures r.Ok? ==>
      var ps := ParseSplit(Between(t, FUNCTION_START, FUNCTION_END, false).value, ",").value;
      r.value == "(" + Join(ps, ", ") + ") -> " + ParseType(From(t, FUNCTION_END).value).value
  {
    FunctionTypeWith(t, ",")
  }

  /** A function type whose parameter list is cut at `sep`: the parameter
      types between `function(` and the last `): `, the result type after it. */
  function FunctionTypeWith(t: string, sep: string): (r: Result<string>)
    requires |sep| > 0
    ensures r.Ok? ==> StartsWith(r.value, "(") && Contains(r.value, ") -> ")
    ensures r.Ok? ==> Contains(t, FUNCTION_START) && Contains(t, FUNCTION_END)
    ensures r.Ok? <==>
      Between(t, FUNCTION_START, FUNCTION_END, false).Ok? &&
      ParseSplit(Between(t, FUNCTION_START, FUNCTION_END, false).value, sep).Ok? &&
      ParseType(From(t, FUNCTION_END).value).Ok?
    ensures r.Ok? ==>
      var ps := ParseSplit(Between(t, FUNCTION_START, FUNCTION_END, false).value, sep).value;
      r.value == "(" + Join(ps, ", ") + ") -> " + ParseType(From(t, FUNCTION_END).value).value
  {
    var params :- Between(t, FUNCTION_START, FUNCTION_END, false);
    var parameterTypes :- ParseSplit(params, sep);
    // `between` already found the last "): ", so `from` cannot fail
    var tail := From(t, FUNCTION_END).value;
    var resultType :- ParseType(tail);
    ContainsIff(t, FUNCTION_START);
    ContainsIff(t, FUNCTION_END);
    Ok(ArrowType(parameterTypes, resultType))
  }

  /** `split(d).map { parseType(it) }`. */
  function ParseSplit(s: string, d: string): (r: Result<seq<string>>)
    requires |d| > 0
    ensures r.Ok? ==> |r.value| == |Split(s, d)|
    decreases |s|, 3, 0
  {
    SplitPieces(s, d);
    ParseAll(Split(s, d), |s|)
  }

  /** `parseSplit` succeeds exactly when every piece parses, and then holds
      the parsed pieces in order. */
  lemma ParseSplitPieces(s: string, d: string)
    requires |d| > 0
    ensures ParseSplit(s, d).Ok? <==> AllParse(Split(s, d))
    ensures ParseSplit(s, d).Ok? ==> ParsedPieces(Split(s, d), ParseSplit(s, d).value)
  {
    var ps := Split(s, d);
    SplitPieces(s, d);
    ParseAllPieces(ps, |s|);
  }

  /** `ParseAll` succeeds exactly when every piece parses, and then holds
      the parsed pieces in order. */
  lemma {:induction false} ParseAllPieces(ps: seq<string>, bound: nat)
    requires forall p :: p in ps ==> |p| <= bound
    ensures ParseAll(ps, bound).Ok? <==> AllParse(ps)
    ensures ParseAll(ps, bound).Ok? ==> ParsedPieces(ps, ParseAll(ps, bound).value)
    decreases |ps|
  {
    if |ps| > 0 {
      ParseAllPieces(ps[1..], bound);
      ParseAllCons(ps, bound);
      AllParseCons(ps);
      if ParseAll(ps, bound).Ok? {
        ParsedPiecesCons(ps, ParseType(ps[0]).value, ParseAll(ps[1..], bound).value);
      }
    }
  }

  lemma ParseAllCons(ps: seq<string>, bound: nat)
    requires |ps| > 0 && forall p :: p in ps ==> |p| <= bound
    ensures forall p :: p in ps[1..] ==> |p| <= bound
    ensures ParseAll(ps, bound).Ok? <==> ParseType(ps[0]).Ok? && ParseAll(ps[1..], bound).Ok?
    ensures ParseAll(ps, bound).Ok? ==> ParseAll(ps, bound).value == [ParseType(ps[0]).value] + ParseAll(ps[1..], bound).value
  {
  }

  lemma AllParseCons(ps: seq<string>)
    requires |ps| > 0
    ensures AllParse(ps) <==> ParseType(ps[0]).Ok? && AllParse(ps[1..])
  {
    assert forall i :: 1 <= i < |ps| ==> ps[i] == ps[1..][i - 1];
    if ParseType(ps[0]).Ok? && AllParse(ps[1..]) {
      forall i | 0 <= i < |ps|
        ensures ParseType(ps[i]).Ok?
      {
        if i > 0 { assert ParseType(ps[1..][i - 1]).Ok?; }
      }
    }
  }

  lemma ParsedPiecesCons(ps: seq<string>, h: string, t: seq<string>)
    requires |ps| > 0 && ParseType(ps[0]) == Ok(h) && ParsedPieces(ps[1..], t)
    ensures ParsedPieces(ps, [h] + t)
  {
    var r := [h] + t;
    forall i | 0 <= i < |ps|
      ensures ParseType(ps[i]) == Ok(r[i])
    {
      if i > 0 {
        assert ps[i] == ps[1..][i - 1] && r[i] == t[i - 1];
      }
    }
  }

  /** Every piece parses. */
  predicate AllParse(ps: seq<string>)
  {
    forall i :: 0 <= i < |ps| ==> ParseType(ps[i]).Ok?
  }

  /** `r` holds the parsed pieces of `ps`, in order. */
  predicate ParsedPieces(ps: seq<string>, r: seq<string>)
  {
    |r| == |ps| && forall i :: 0 <= i < |ps| ==> ParseType(ps[i]) == Ok(r[i])
  }

  /** The Kotlin function type `(A, B) -> R`. */
  function ArrowType(parameterTypes: seq<string>, resultType: string): (r: string)
    ensures StartsWith(r, "(") && Contains(r, ") -> ")
    ensures r == "(" + Join(parameterTypes, ", ") + ") -> " + resultType
  {
    var open := "(" + Join(parameterTypes, ", ");
    ContainsMiddle(open, ") -> ", resultType);
    assert (open + ") -> " + resultType)[..1] == "(";
    open + ") -> " + resultType
  }

  /** The rendered arrow type reads back: the text between `(` and the
      first `) -> ` is the joined parameter list, which splits at `, ` into
      the parameter types again (when there is at least one), and the text
      after it is the result type — provided no parameter type holds `,`
      or `)`. */
  lemma ArrowTypeReadBack(parameterTypes: seq<string>, resultType: string)
    requires forall i :: 0 <= i < |parameterTypes| ==>
      NoChar(parameterTypes[i], ',') && NoChar(parameterTypes[i], ')')
    ensures var r := ArrowType(parameterTypes, resultType);
      Till(r[1..], ") -> ") == Ok(Join(parameterTypes, ", ")) &&
      From2(r, ") -> ") == Ok(resultType) &&
      (|parameterTypes| >= 1 ==> Split(Join(parameterTypes, ", "), ", ") == parameterTypes)
  {
    JoinNoChar(parameterTypes, ", ", ')');
    ArrowTypeParts(Join(parameterTypes, ", "), resultType);
    ArrowTypeSplit(parameterTypes);
  }

  /** Parameter types without `,` split back out of their `, ` join. */
  lemma ArrowTypeSplit(parameterTypes: seq<string>)
    requires forall i :: 0 <= i < |parameterTypes| ==> NoChar(parameterTypes[i], ',')
    ensures |parameterTypes| >= 1 ==> Split(Join(parameterTypes, ", "), ", ") == parameterTypes
  {
    if |parameterTypes| >= 1 {
      SplitJoinLead(parameterTypes, ", ");
    }
  }

  /** The two markers of the arrow type are found where they were put. */
  lemma ArrowTypeParts(joined: string, resultType: string)
    requires NoChar(joined, ')')
    ensures var r := "(" + joined + ") -> " + resultType;
      Till(r[1..], ") -> ") == Ok(joined) && From2(r, ") -> ") == Ok(resultType)
  {
    var r := "(" + joined + ") -> " + resultType;
    assert r[1..] == joined + ") -> " + resultType;
    TillLead(joined, ") -> ", resultType);
    assert NoChar("(" + joined, ')') by {
      assert forall k :: 1 <= k < |"(" + joined| ==> ("(" + joined)[k] == joined[k - 1];
    }
    From2Lead("(" + joined, ") -> ", resultType);
  }

  /** `findType(line)`: the text between the first `{` and the first `}`. */
  function FindType(line: string): (r: Result<string>)
    ensures r.Ok? ==> Contains(line, "{") && Contains(line, "}")
    ensures r.Ok? <==> Contains(line, "{") && Contains(line, "}") && IndexOf(line, "{") < IndexOf(line, "}")
    ensures r.Ok? ==> r.value == line[IndexOf(line, "{") + 1..IndexOf(line, "}")]
  {
    var r := Between(line, "{", "}", true);
    if r.Ok? then
      ContainsIff(line, "{");
      ContainsIff(line, "}");
      r
    else r
  }

  /** `parseTypeLine(line)`: the `{…}` type of a tag line, parsed. */
  function ParseTypeLine(line: string): (r: Result<string>)
    ensures FindType(line).Err? ==> r.Err?
    ensures FindType(line).Ok? && StartsWith(FindType(line).value, FUNCTION_START) ==>
      r == ParseFunctionType(FindType(line).value)
    ensures FindType(line).Ok? && !StartsWith(FindType(line).value, FUNCTION_START) ==>
      r == ParseType(FindType(line).value)
  {
    var t :- FindType(line);
    if StartsWith(t, FUNCTION_START) then ParseFunctionType(t) else ParseType(t)
  }

  // ---------------------------------------------------------------------
  // round trips of the readers

  /** The type written between the first `{` and the next `}` is found. */
  lemma FindTypeOf(pre: string, t: string, post: string)
    requires NoChar(pre, '{') && NoChar(pre, '}') && NoChar(t, '}')
    ensures FindType(pre + "{" + t + "}" + post) == Ok(t)
  {
    var line := pre + "{" + t + "}" + post;
    assert line[|pre|..|pre| + 1] == "{";
    FirstOccurrence(line, "{", |pre|);
    assert line[|pre| + 1 + |t|..|pre| + 1 + |t| + 1] == "}";
    assert forall j :: 0 <= j < |pre| + 1 + |t| ==> line[j] != '}' by {
      forall j | 0 <= j < |pre| + 1 + |t|
        ensures line[j] != '}'
      {
        if j < |pre| { assert line[j] == pre[j]; }
        else if j > |pre| { assert line[j] == t[j - |pre| - 1]; }
      }
    }
    FirstOccurrence(line, "}", |pre| + 1 + |t|);
    assert line[|pre| + 1..|pre| + 1 + |t|] == t;
  }

  /** A tag line whose braces hold a non-function type reads as that type. */
  lemma TypeLineRead(pre: string, t: string, post: string)
    requires NoChar(pre, '{') && NoChar(pre, '}') && NoChar(t, '}')
    requires !StartsWith(t, FUNCTION_START)
    ensures ParseTypeLine(pre + "{" + t + "}" + post) == ParseType(t)
  {
    FindTypeOf(pre, t, post);
  }

  /** Names that need no rewriting: no `|`, no `<`, not in the standard table. */
  predicate KeptName(n: string)
  {
    Plain(n) && StandardType(n).None?
  }

  lemma {:induction false} JoinPlain(ps: seq<string>, d: string)
    requires Plain(d) && forall i :: 0 <= i < |ps| ==> Plain(ps[i])
    ensures Plain(Join(ps, d))
    decreases |ps|
  {
    if |ps| > 1 {
      JoinPlain(ps[1..], d);
      var rest := Join(ps[1..], d);
      assert Join(ps, d) == ps[0] + d + rest;
      assert forall k :: 0 <= k < |ps[0] + d + rest| ==>
        (ps[0] + d + rest)[k] == if k < |ps[0]| then ps[0][k] else if k < |ps[0]| + |d| then d[k - |ps[0]|] else rest[k - |ps[0]| - |d|];
    }
  }

  /** A comma-separated list of kept names parses to the names themselves. */
  lemma PlainArguments(ns: seq<string>)
    requires |ns| >= 1
    requires forall i :: 0 <= i < |ns| ==> KeptName(ns[i]) && NoChar(ns[i], ',')
    ensures ParseGenericParameters(Join(ns, ",")) == Ok(ns)
  {
    JoinLacksGenerics(ns);
    KeptNamesSplit(ns);
  }

  lemma JoinLacksGenerics(ns: seq<string>)
    requires forall i :: 0 <= i < |ns| ==> Plain(ns[i])
    ensures !Contains(Join(ns, ","), GENERIC_START)
  {
    JoinPlain(ns, ",");
    PlainLacksMarkers(Join(ns, ","));
  }

  lemma KeptNamesSplit(ns: seq<string>)
    requires |ns| >= 1
    requires forall i :: 0 <= i < |ns| ==> KeptName(ns[i]) && NoChar(ns[i], ',')
    ensures ParseSplit(Join(ns, ","), ",") == Ok(ns)
  {
    var p := Join(ns, ",");
    KeptPieces(ns);
    SplitJoin(ns, ",");
    ParseSplitPieces(p, ",");
    assert AllParse(ns);
    KeptPiecesParsed(ns, ParseSplit(p, ",").value);
  }

  lemma KeptPieces(ns: seq<string>)
    requires forall i :: 0 <= i < |ns| ==> KeptName(ns[i]) && NoChar(ns[i], ',')
    ensures forall i :: 0 <= i < |ns| ==> !Contains(ns[i], ",") && ParseType(ns[i]) == Ok(ns[i])
  {
    forall i | 0 <= i < |ns|
      ensures !Contains(ns[i], ",") && ParseType(ns[i]) == Ok(ns[i])
    {
      NoCharLacks(ns[i], ',');
      KeptNameParses(ns[i]);
    }
  }

  lemma KeptPiecesParsed(ns: seq<string>, r: seq<string>)
    requires ParsedPieces(ns, r)
    requires forall i :: 0 <= i < |ns| ==> ParseType(ns[i]) == Ok(ns[i])
    ensures r == ns
  {
  }

  /** `Main.<A,B>` with kept names becomes `Main<A, B>`. */
  lemma GenericTypeOf(m: string, ns: seq<string>)
    requires KeptName(m) && |ns| >= 1
    requires forall i :: 0 <= i < |ns| ==> KeptName(ns[i]) && NoChar(ns[i], ',')
    ensures ParseType(m + GENERIC_START + Join(ns, ",") + GENERIC_END) == Ok(m + "<" + Join(ns, ", ") + ">")
  {
    var inner := Join(ns, ",");
    JoinPlain(ns, ",");
    var t := m + GENERIC_START + inner + GENERIC_END;
    GenericTypeParts(m, inner);
    PlainLacksMarkers(m);
    PlainNameKept(m);
    PlainArguments(ns);
  }

  /** The parts `parseType` cuts out of `Main.<P>`. */
  lemma GenericTypeParts(m: string, inner: string)
    requires KeptName(m) && Plain(inner)
    ensures var t := m + GENERIC_START + inner + GENERIC_END;
      !Contains(t, "|") && StandardType(t).None? && Contains(t, GENERIC_START) &&
      Till(t, GENERIC_START) == Ok(m) &&
      Between(t, GENERIC_START, GENERIC_END, false) == Ok(inner)
  {
    GenericTypeMarkers(m, inner);
    GenericTypeMain(m, inner);
    GenericTypeInner(m, inner);
  }

  lemma GenericTypeMarkers(m: string, inner: string)
    requires KeptName(m) && Plain(inner)
    ensures var t := m + GENERIC_START + inner + GENERIC_END;
      !Contains(t, "|") && StandardType(t).None?
  {
    var t := m + GENERIC_START + inner + GENERIC_END;
    forall k | 0 <= k < |t|
      ensures t[k] != '|'
    {
      if k < |m| { assert t[k] == m[k]; }
      else if |m| + 2 <= k < |m| + 2 + |inner| { assert t[k] == inner[k - |m| - 2]; }
    }
    NoCharLacks(t, '|');
    assert t[|m| + 1] == '<';
    if StandardType(t).Some? { StandardTypesArePlain(t); }
  }

  lemma GenericTypeMain(m: string, inner: string)
    requires Plain(m)
    ensures var t := m + GENERIC_START + inner + GENERIC_END;
      Contains(t, GENERIC_START) && Till(t, GENERIC_START) == Ok(m) &&
      IndexOf(t, GENERIC_START) == |m|
  {
    var t := m + GENERIC_START + inner + GENERIC_END;
    assert t[|m|..|m| + 2] == GENERIC_START;
    forall j | 0 <= j < |m|
      ensures t[j] != '.' || t[j + 1] != '<'
    {
      if j + 1 < |m| { assert t[j + 1] == m[j + 1]; }
    }
    FirstOccurrence(t, GENERIC_START, |m|);
    assert t[..|m|] == m;
  }

  lemma GenericTypeInner(m: string, inner: string)
    requires Plain(m)
    ensures var t := m + GENERIC_START + inner + GENERIC_END;
      Between(t, GENERIC_START, GENERIC_END, false) == Ok(inner)
  {
    var t := m + GENERIC_START + inner + GENERIC_END;
    GenericTypeMain(m, inner);
    assert t[|t| - 1..] == GENERIC_END;
    LastOccurrence(t, GENERIC_END, |t| - 1);
    assert t[|m| + 2..|t| - 1] == inner;
  }

  /** `function(A,B): R` with kept names becomes `(A, B) -> R`. */
  lemma FunctionTypeRoundTrip(ps: seq<string>, res: string)
    requires |ps| >= 1
    requires forall i :: 0 <= i < |ps| ==> KeptName(ps[i]) && NoChar(ps[i], ',')
    requires KeptName(res) && !Contains(res, FUNCTION_END)
    ensures ParseFunctionType(FUNCTION_START + Join(ps, ",") + FUNCTION_END + res) ==
      Ok("(" + Join(ps, ", ") + ") -> " + res)
  {
    var inner := Join(ps, ",");
    FunctionTypeParts(inner, res);
    KeptNamesSplit(ps);
    PlainLacksMarkers(res);
    PlainNameKept(res);
    FunctionTypeOfParts(FUNCTION_START + inner + FUNCTION_END + res, inner, ps, res);
  }

  lemma FunctionTypeOfParts(t: string, inner: string, ps: seq<string>, res: string)
    requires Between(t, FUNCTION_START, FUNCTION_END, false) == Ok(inner)
    requires From(t, FUNCTION_END) == Ok(res)
    requires ParseSplit(inner, ",") == Ok(ps) && ParseType(res) == Ok(res)
    ensures ParseFunctionType(t) == Ok("(" + Join(ps, ", ") + ") -> " + res)
  {
  }

  /** The parts `parseFunctionType` cuts out of `function(P): R`. */
  lemma FunctionTypeParts(inner: string, res: string)
    requires !Contains(res, FUNCTION_END)
    ensures var t := FUNCTION_START + inner + FUNCTION_END + res;
      Between(t, FUNCTION_START, FUNCTION_END, false) == Ok(inner) &&
      From(t, FUNCTION_END) == Ok(res)
  {
    var t := FUNCTION_START + inner + FUNCTION_END + res;
    var n := |FUNCTION_START| + |inner|;
    assert t[..|FUNCTION_START|] == FUNCTION_START;
    FirstOccurrence(t, FUNCTION_START, 0);
    assert t[n..n + 3] == FUNCTION_END;
    LastEndAt(t, res, n);
    assert t[|FUNCTION_START|..n] == inner;
    assert t[n + 3..] == res;
  }

  /** `): ` last occurs where `res` begins, when `res` does not hold it. */
  lemma LastEndAt(t: string, res: string, n: nat)
    requires n + 3 + |res| == |t| && t[n + 3..] == res
    requires OccursAt(t, FUNCTION_END, n)
    requires !Contains(res, FUNCTION_END)
    ensures LastIndexOf(t, FUNCTION_END) == n
  {
    forall p | n < p
      ensures !OccursAt(t, FUNCTION_END, p)
    {
      NoEndAfter(t, res, n, p);
    }
  }

  /** No `): ` starts after the one at `n`. */
  lemma NoEndAfter(t: string, res: string, n: nat, p: int)
    requires n + 3 + |res| == |t| && t[n + 3..] == res
    requires OccursAt(t, FUNCTION_END, n)
    requires !Contains(res, FUNCTION_END)
    requires n < p
    ensures !OccursAt(t, FUNCTION_END, p)
  {
    if p + 3 <= |t| {
      if p < n + 3 {
        assert t[n + 1] == t[n..n + 3][1] && t[n + 2] == t[n..n + 3][2];
        assert t[p..p + 3][0] == t[p] != ')';
      } else {
        assert t[p..p + 3] == res[p - n - 3..p - n];
        ContainsIff(res, FUNCTION_END);
        assert !OccursAt(res, FUNCTION_END, p - n - 3);
      }
    }
  }

  // ---------------------------------------------------------------------
  // properties of parseType

  /** A union type parses exactly as its first alternative. */
  lemma UnionFirstAlternative(a: string, rest: string)
    requires !Contains(a, "|")
    ensures ParseType(a + "|" + rest) == ParseType(a)
  {
    ContainsMiddle(a, "|", rest);
    SplitHead(a, "|", rest);
  }

  /** Neither side of a standard-table entry holds `|` or `<`, and no
      standard name maps to another standard name. */
  lemma StandardTypesArePlain(t: string)
    requires StandardType(t).Some?
    ensures Plain(t) && Plain(StandardType(t).value)
    ensures StandardType(StandardType(t).value).None?
  {
    var i :| 0 <= i < |STANDARD_TYPES| && STANDARD_TYPES[i] == (t, StandardType(t).value);
    if i == 0 { StandardEntry0(); }
    else if i == 1 { StandardEntry1(); }
    else if i == 2 { StandardEntry2(); }
    else if i == 3 { StandardEntry3(); }
    else if i == 4 { StandardEntry4(); }
    else if i == 5 { StandardEntry5(); }
    else if i == 6 { StandardEntry6(); }
    else if i == 7 { StandardEntry7(); }
    else if i == 8 { StandardEntry8(); }
    else if i == 9 { StandardEntry9(); }
    else if i == 10 { StandardEntry10(); }
    else if i == 11 { StandardEntry11(); }
    else if i == 12 { StandardEntry12(); }
    else if i == 13 { StandardEntry13(); }
    else if i == 14 { StandardEntry14(); }
    else if i == 15 { StandardEntry15(); }
    else if i == 16 { StandardEntry16(); }
    else if i == 17 { StandardEntry17(); }
  }

  lemma StandardEntry0()
    ensures STANDARD_TYPES[0] == ("Object", OBJECT_TYPE) && Plain("Object") && Plain(OBJECT_TYPE) && StandardType(OBJECT_TYPE).None?
  {
  }

  lemma StandardEntry1()
    ensures STANDARD_TYPES[1] == ("object", OBJECT_TYPE) && Plain("object") && Plain(OBJECT_TYPE) && StandardType(OBJECT_TYPE).None?
  {
  }

  lemma StandardEntry2()
    ensures STANDARD_TYPES[2] == ("boolean", "Boolean") && Plain("boolean") && Plain("Boolean") && StandardType("Boolean").None?
  {
  }

  lemma StandardEntry3()
    ensures STANDARD_TYPES[3] == ("string", "String") && Plain("string") && Plain("String") && StandardType("String").None?
  {
  }

  lemma StandardEntry4()
    ensures STANDARD_TYPES[4] == ("number", "Number") && Plain("number") && Plain("Number") && StandardType("Number").None?
  {
  }

  lemma StandardEntry5()
    ensures STANDARD_TYPES[5] == ("void", UNIT) && Plain("void") && Plain(UNIT) && StandardType(UNIT).None?
  {
  }

  lemma StandardEntry6()
    ensures STANDARD_TYPES[6] == ("Event", "org.w3c.dom.events.Event") && Plain("Event") && Plain("org.w3c.dom.events.Event") && StandardType("org.w3c.dom.events.Event").None?
  {
  }

  lemma StandardEntry7()
    ensures STANDARD_TYPES[7] == ("KeyboardEvent", "org.w3c.dom.events.KeyboardEvent") && Plain("KeyboardEvent") && Plain("org.w3c.dom.events.KeyboardEvent") && StandardType("org.w3c.dom.events.KeyboardEvent").None?
  {
  }

  lemma StandardEntry8()
    ensures STANDARD_TYPES[8] == ("Node", "org.w3c.dom.Node") && Plain("Node") && Plain("org.w3c.dom.Node") && StandardType("org.w3c.dom.Node").None?
  {
  }

  lemma StandardEntry9()
    ensures STANDARD_TYPES[9] == ("Element", "org.w3c.dom.Element") && Plain("Element") && Plain("org.w3c.dom.Element") && StandardType("org.w3c.dom.Element").None?
  {
  }

  lemma StandardEntry10()
    ensures STANDARD_TYPES[10] == ("HTMLElement", "org.w3c.dom.HTMLElement") && Plain("HTMLElement") && Plain("org.w3c.dom.HTMLElement") && StandardType("org.w3c.dom.HTMLElement").None?
  {
  }

  lemma StandardEntry11()
    ensures STANDARD_TYPES[11] == ("HTMLDivElement", "org.w3c.dom.HTMLDivElement") && Plain("HTMLDivElement") && Plain("org.w3c.dom.HTMLDivElement") && StandardType("org.w3c.dom.HTMLDivElement").None?
  {
  }

  lemma StandardEntry12()
    ensures STANDARD_TYPES[12] == ("SVGElement", "org.w3c.dom.svg.SVGElement") && Plain("SVGElement") && Plain("org.w3c.dom.svg.SVGElement") && StandardType("org.w3c.dom.svg.SVGElement").None?
  {
  }

  lemma StandardEntry13()
    ensures STANDARD_TYPES[13] == ("SVGDefsElement", "org.w3c.dom.svg.SVGDefsElement") && Plain("SVGDefsElement") && Plain("org.w3c.dom.svg.SVGDefsElement") && StandardType("org.w3c.dom.svg.SVGDefsElement").None?
  {
  }

  lemma StandardEntry14()
    ensures STANDARD_TYPES[14] == ("SVGGElement", "org.w3c.dom.svg.SVGGElement") && Plain("SVGGElement") && Plain("org.w3c.dom.svg.SVGGElement") && StandardType("org.w3c.dom.svg.SVGGElement").None?
  {
  }

  lemma StandardEntry15()
    ensures STANDARD_TYPES[15] == ("SVGImageElement", "org.w3c.dom.svg.SVGImageElement") && Plain("SVGImageElement") && Plain("org.w3c.dom.svg.SVGImageElement") && StandardType("org.w3c.dom.svg.SVGImageElement").None?
  {
  }

  lemma StandardEntry16()
    ensures STANDARD_TYPES[16] == ("SVGTextElement", "org.w3c.dom.svg.SVGTextElement") && Plain("SVGTextElement") && Plain("org.w3c.dom.svg.SVGTextElement") && StandardType("org.w3c.dom.svg.SVGTextElement").None?
  {
  }

  lemma StandardEntry17()
    ensures STANDARD_TYPES[17] == ("Promise", "kotlin.js.Promise") && Plain("Promise") && Plain("kotlin.js.Promise") && StandardType("kotlin.js.Promise").None?
  {
  }

  /** The characters that drive `parseType` are absent. */
  predicate Plain(s: string)
  {
    forall i :: 0 <= i < |s| ==> s[i] != '|' && s[i] != '<'
  }

  lemma PlainLacksMarkers(s: string)
    requires Plain(s)
    ensures !Contains(s, "|") && !Contains(s, GENERIC_START)
  {
    if Contains(s, "|") { ContainsChar(s, "|", 0); }
    if Contains(s, GENERIC_START) { ContainsChar(s, GENERIC_START, 1); }
  }

  /** Parsing a type without generic syntax never fails, and parsing its
      result again changes nothing. */
  lemma ParseNameIdempotent(t: string)
    requires !Contains(t, GENERIC_START)
    ensures ParseType(t).Ok?
    ensures ParseType(ParseType(t).value) == ParseType(t)
  {
    if Contains(t, "|") {
      var first := Split(t, "|")[0];
      SplitPieces(t, "|");
      SplitFirstShorter(t, "|");
      PrefixLacks(t, first, GENERIC_START);
      assert ParseType(t) == ParseType(first);
      ParseNameIdempotent(first);
    } else if StandardType(t).Some? {
      StandardTypesArePlain(t);
      PlainLacksMarkers(StandardType(t).value);
    }
  }

  /** A name found in the standard table is replaced by its Kotlin name. */
  lemma StandardTypeMapped(t: string)
    requires StandardType(t).Some?
    ensures ParseType(t) == Ok(StandardType(t).value)
  {
    StandardTypesArePlain(t);
    PlainLacksMarkers(t);
  }

  /** A plain name holds no `<T>` either. */
  lemma PlainLacksTemplate(s: string)
    requires Plain(s)
    ensures !Contains(s, "<T>")
  {
    if Contains(s, "<T>") { ContainsChar(s, "<T>", 0); }
  }

  /** A plain name that is no standard type parses to itself and holds no
      `<T>`. */
  lemma KeptNameParses(t: string)
    requires KeptName(t)
    ensures ParseType(t) == Ok(t) && !Contains(t, "<T>")
  {
    PlainLacksMarkers(t);
    PlainNameKept(t);
    PlainLacksTemplate(t);
  }

  lemma PlainNameKept(t: string)
    requires StandardType(t).None?
    requires !Contains(t, "|") && !Contains(t, GENERIC_START)
    ensures ParseType(t) == Ok(t)
  {
  }

  /** With nested generics the argument list is not split: unless it starts
      with a comma, the whole text is parsed as one type and becomes the
      single generic argument. */
  lemma NestedGenericsSingleArgument(p: string)
    requires |p| < SENTINEL
    requires Contains(p, GENERIC_START)
    requires !(|p| >= 2 && p[0] == ',')
    ensures ParseGenericParameters(p).Ok? <==> ParseType(p).Ok?
    ensures ParseType(p).Ok? ==> ParseGenericParameters(p) == Ok([ParseType(p).value])
  {
    FirstGenericTypeQuirk(p);
  }

  // ---------------------------------------------------------------------
  // helper facts

  lemma ContainsChar(s: string, t: string, i: int)
    requires Contains(s, t) && 0 <= i < |t|
    ensures t[i] in s
  {
    ContainsIff(s, t);
    var k :| OccursAt(s, t, k);
    assert s[k..k + |t|][i] == s[k + i];
  }

  /** An occurrence with none before it is the one `indexOf` finds. */
  lemma FirstOccurrence(s: string, t: string, k: int)
    requires OccursAt(s, t, k) && |t| > 0
    requires forall j :: 0 <= j < k ==> s[j + |t| - 1] != t[|t| - 1] || s[j] != t[0]
    ensures IndexOf(s, t) == k
  {
    var r := IndexOf(s, t);
    assert r <= k;
    assert s[r..r + |t|][0] == s[r];
    assert s[r..r + |t|][|t| - 1] == s[r + |t| - 1];
  }

  /** An occurrence with none after it is the one `lastIndexOf` finds. */
  lemma LastOccurrence(s: string, t: string, k: int)
    requires OccursAt(s, t, k) && |t| == 1
    requires forall j :: k < j < |s| ==> s[j] != t[0]
    ensures LastIndexOf(s, t) == k
  {
    var r := LastIndexOf(s, t);
    assert r >= k;
    assert s[r..r + 1][0] == s[r];
  }

  lemma SplitFirstShorter(s: string, d: string)
    requires |d| > 0
    requires Contains(s, d)
    ensures |Split(s, d)[0]| < |s|
    ensures StartsWith(s, Split(s, d)[0])
  {
    SplitFirstPiece(s, d);
  }

  lemma ContainsMiddle(a: string, t: string, b: string)
    ensures Contains(a + t + b, t)
  {
    var s := a + t + b;
    assert s[|a|..|a| + |t|] == t;
    assert OccursAt(s, t, |a|);
    ContainsIff(s, t);
  }

  /** A text that lacks `t` has no prefix containing `t`. */
  lemma PrefixLacks(s: string, p: string, t: string)
    requires StartsWith(s, p)
    requires !Contains(s, t)
    ensures !Contains(p, t)
  {
    if Contains(p, t) {
      ContainsIff(p, t);
      var k :| OccursAt(p, t, k);
      assert p == s[..|p|];
      OccursInPrefix(s, t, k, |p|);
      ContainsIff(s, t);
    }
  }
}
