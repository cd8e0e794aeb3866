/** Parameters of functions and constructors: reading one `@param` tag line
    (`parseParamLine`), pairing the formal names of the signature with the
    tags (`Function.calculateParameters`, including the expansion of a single
    options object), and the parameter list text that keys function
    equality (`parametersString`). */
module Params {
  import opened Wrappers
  import opened Text
  import opened StringUtil
  import opened TypeParser
  import opened Seqs
  import opened Ir
  import opened Hacks

  const MAP_TYPE := "kotlin.collections.Map<String, Any?>"
  const FUNCTION_VALUE_START := "function("
  const FUNCTION_VALUE_END := "){};"

  // ---------------------------------------------------------------------
  // parseParamLine

  /** The type text of a tag: a function type (with `, ` between its
      parameters) or any other type. */
  function TypeText(t: string): Result<string>
  {
    if StartsWith(t, FUNCTION_START) then FunctionTypeWith(t, ", ") else ParseType(t)
  }

  /** The raw `{…}` text of a tag: a leading `...` marks a vararg and is cut off. */
  function RawParamType(rawType: string): (r: Result<(string, bool)>)
    ensures r.Ok? ==> r.value.1 == StartsWith(rawType, "...")
  {
    var vararg := StartsWith(rawType, "...");
    var t :- TypeText(if vararg then rawType[3..] else rawType);
    Ok((t, vararg))
  }

  /** `[name=default]`: the name and the default value, failing when there
      is no `=` (the second piece is missing). */
  function OptionalName(token: string): (r: Result<(string, Option<string>)>)
    ensures r.Ok? ==> r.value.1.Some?
    ensures r.Ok? ==> StartsWith(token, "[") && EndsWith(token, "]")
  {
    var inner :- HardBetween(token, "[", "]");
    var data := Split(inner, "=");
    if |data| < 2 then Err("Index 1 out of bounds for length 1")
    else Ok((data[0], Some(data[1])))
  }

  /** The name token: the first word after the first `} `. */
  function NameToken(line: string): (r: Result<string>)
    ensures r.Ok? <==> Contains(line, "} ")
    ensures r.Ok? ==> !Contains(r.value, " ")
  {
    var tail :- From2(line, "} ");
    SplitPieces(tail, " ");
    assert Split(tail, " ")[0] in Split(tail, " ");
    Ok(Split(tail, " ")[0])
  }

  /** `parseParamLine(line, function)`. */
  function ParseParamLine(h: HackTables, line: string, fn: string): (r: Result<Parameter>)
    ensures StartsWith(line, VALUE_PARAM) ==>
      (r.Ok? <==> h.valueParameter(fn).Some?) &&
      (r.Ok? ==> r.value == Simple("value", h.valueParameter(fn).value))
    ensures !IsHackedParamLine(line) && !Contains(line, "} ") ==> r.Err?
    ensures !IsHackedParamLine(line) && !Contains(line, " {") ==> r.Err?
  {
    var hacked :- HackedParameter(h, line, fn);
    if hacked.Some? then Ok(hacked.value)
    else
      var token :- NameToken(line);
      var named :- if StartsWith(token, "[") then OptionalName(token) else Ok((token, None));
      var rawType :- Between(line, " {", "} ", true);
      var typed :- RawParamType(rawType);
      ContainsIff(line, " {");
      Ok(Parameter(named.0, typed.0, named.1, typed.1))
  }

  /** The tag text `@param {type} name description` of a parameter. */
  function ParamLine(typ: string, vararg: bool, token: string, description: string): string
  {
    "@param {" + (if vararg then "..." else "") + typ + "} " + token + description
  }

  /** The name token of a parameter, `[name=default]` when it has a default. */
  function Token(name: string, defaultValue: Option<string>): string
  {
    match defaultValue
    case None => name
    case Some(d) => "[" + name + "=" + d + "]"
  }

  /** A well-formed tag line is read back into the parameter it describes. */
  lemma ParamLineRoundTrip(h: HackTables, fn: string, typ: string, vararg: bool,
                           name: string, defaultValue: Option<string>, description: string)
    requires NoChar(typ, '}') && !StartsWith(typ, "...")
    requires NoChar(name, ' ') && NoChar(name, '=')
    requires defaultValue.None? ==> !StartsWith(name, "[")
    requires defaultValue.Some? ==> NoChar(defaultValue.value, ' ') && NoChar(defaultValue.value, '=')
    requires description == "" || description[0] == ' '
    ensures var r := ParseParamLine(h, ParamLine(typ, vararg, Token(name, defaultValue), description), fn);
      (r.Ok? <==> TypeText(typ).Ok?) &&
      (r.Ok? ==> r.value == Parameter(name, TypeText(typ).value, defaultValue, vararg))
  {
    var token := Token(name, defaultValue);
    var pre := if vararg then "..." else "";
    TokenRead(name, defaultValue);
    ParamLinePieces(typ, vararg, token, description);
    RawTypeRead(pre, typ, vararg);
    ParseParamLineSteps(h, ParamLine(typ, vararg, token, description), fn, token, name, defaultValue, pre + typ);
  }

  /** Where the pieces of a tag line are found again. */
  lemma ParamLinePieces(typ: string, vararg: bool, token: string, description: string)
    requires NoChar(typ, '}') && NoChar(token, ' ')
    requires description == "" || description[0] == ' '
    ensures var line := ParamLine(typ, vararg, token, description);
      !IsHackedParamLine(line) &&
      Between(line, " {", "} ", true) == Ok((if vararg then "..." else "") + typ) &&
      NameToken(line) == Ok(token)
  {
    var line := ParamLine(typ, vararg, token, description);
    var pre := if vararg then "..." else "";
    var head := pre + typ;
    assert line == "@param {" + head + "} " + token + description;
    LineNotHacked(line, head + "} " + token + description);
    assert NoChar(head, '}');
    TagTypeFound(line, pre, typ, token + description);
    TagTokenFound(line, head, token, description);
  }

  lemma RawTypeRead(pre: string, typ: string, vararg: bool)
    requires pre == if vararg then "..." else ""
    requires !StartsWith(typ, "...")
    ensures var r := RawParamType(pre + typ);
      (r.Ok? <==> TypeText(typ).Ok?) && (r.Ok? ==> r.value == (TypeText(typ).value, vararg))
  {
    if vararg {
      assert (pre + typ)[..3] == "...";
      assert (pre + typ)[3..] == typ;
    } else {
      assert pre + typ == typ;
    }
  }

  /** `parseParamLine` on an ordinary tag line, once its pieces are known. */
  lemma ParseParamLineSteps(h: HackTables, line: string, fn: string, token: string,
                            name: string, defaultValue: Option<string>, raw: string)
    requires !IsHackedParamLine(line)
    requires NameToken(line) == Ok(token)
    requires StartsWith(token, "[") ==> OptionalName(token) == Ok((name, defaultValue))
    requires !StartsWith(token, "[") ==> token == name && defaultValue.None?
    requires Between(line, " {", "} ", true) == Ok(raw)
    ensures var r := ParseParamLine(h, line, fn);
      (r.Ok? <==> RawParamType(raw).Ok?) &&
      (r.Ok? ==> r.value == Parameter(name, RawParamType(raw).value.0, defaultValue, RawParamType(raw).value.1))
  {
    assert HackedParameter(h, line, fn) == Ok(None);
  }

  lemma LineNotHacked(line: string, rest: string)
    requires line == "@param {" + rest
    ensures !IsHackedParamLine(line)
  {
    assert line[7] == '{';
    assert VALUE_PARAM[7] == 'v' && OPTIONS_PARAM[7] == 'o';
  }

  /** The token of a parameter is read back into its name and default. */
  lemma TokenRead(name: string, defaultValue: Option<string>)
    requires NoChar(name, ' ') && NoChar(name, '=')
    requires defaultValue.None? ==> !StartsWith(name, "[")
    requires defaultValue.Some? ==> NoChar(defaultValue.value, ' ') && NoChar(defaultValue.value, '=')
    ensures NoChar(Token(name, defaultValue), ' ')
    ensures StartsWith(Token(name, defaultValue), "[") <==> defaultValue.Some?
    ensures defaultValue.Some? ==> OptionalName(Token(name, defaultValue)) == Ok((name, defaultValue))
  {
    if defaultValue.Some? {
      var d := defaultValue.value;
      var t := Token(name, defaultValue);
      assert t == "[" + (name + "=" + d) + "]";
      assert t[..1] == "[";
      HardBetweenRoundTrip("[", name + "=" + d, "]");
      NoCharLacks(name, '=');
      NoCharLacks(d, '=');
      assert Join([name, d], "=") == name + "=" + d;
      SplitJoin([name, d], "=");
    }
  }

  /** The `{…}` of a tag line is found between ` {` and the first `} `. */
  lemma TagTypeFound(line: string, pre: string, typ: string, rest: string)
    requires line == "@param {" + pre + typ + "} " + rest
    requires NoChar(pre + typ, '}')
    ensures Between(line, " {", "} ", true) == Ok(pre + typ)
  {
    var head := pre + typ;
    assert IndexOf(line, " {") == 6 by {
      assert line == "@param {" + (head + "} " + rest);
      OpenFound(line, head + "} " + rest);
    }
    assert IndexOf(line, "} ") == 8 + |head| by {
      CloseFound(line, head, rest);
    }
    assert line[8..8 + |head|] == head;
  }

  /** The first ` {` of a tag line is the one after `@param`. */
  lemma OpenFound(line: string, tail: string)
    requires line == "@param {" + tail
    ensures IndexOf(line, " {") == 6
  {
    assert OccursAt(line, " {", 6) by { assert line[6..8] == " {"; }
    assert forall j :: 0 <= j < 6 ==> line[j] == "@param"[j];
    FirstOccurrence(line, " {", 6);
  }

  /** The name token is the first word after the first `} `. */
  lemma TagTokenFound(line: string, head: string, token: string, description: string)
    requires line == "@param {" + head + "} " + token + description
    requires NoChar(head, '}') && NoChar(token, ' ')
    requires description == "" || description[0] == ' '
    ensures NameToken(line) == Ok(token)
  {
    CloseFound(line, head, token + description);
    FirstWord(token, description);
  }

  /** The first `} ` of a tag line closes its type. */
  lemma CloseFound(line: string, head: string, rest: string)
    requires line == "@param {" + head + "} " + rest
    requires NoChar(head, '}')
    ensures IndexOf(line, "} ") == 8 + |head|
    ensures From2(line, "} ") == Ok(rest)
  {
    var k := 8 + |head|;
    assert OccursAt(line, "} ", k) by { assert line[k..k + 2] == "} "; }
    assert forall j :: 8 <= j < k ==> line[j] == head[j - 8];
    FirstOccurrence(line, "} ", k);
    assert line[k + 2..] == rest;
  }

  /** A word without blanks, then nothing or a blank: the word is the
      first piece. */
  lemma FirstWord(token: string, description: string)
    requires NoChar(token, ' ')
    requires description == "" || description[0] == ' '
    ensures Split(token + description, " ")[0] == token
  {
    NoCharLacks(token, ' ');
    if description == "" {
      assert token + description == token;
      SplitFirstPiece(token, " ");
    } else {
      assert token + description == token + " " + description[1..];
      SplitHead(token, " ", description[1..]);
    }
  }

  // ---------------------------------------------------------------------
  // the tag map: `associate { Pair(it.name, it) }`

  function Names(ps: seq<Parameter>): (r: seq<string>)
    ensures |r| == |ps| && forall i :: 0 <= i < |ps| ==> r[i] == ps[i].name
  {
    seq(|ps|, i requires 0 <= i < |ps| => ps[i].name)
  }

  /** The first slot holding a parameter named `k`, or -1. */
  function NameIndex(m: seq<Parameter>, k: string): (r: int)
    ensures -1 <= r < |m|
    ensures r == -1 <==> forall i :: 0 <= i < |m| ==> m[i].name != k
    ensures r != -1 ==> m[r].name == k && forall i :: 0 <= i < r ==> m[i].name != k
    decreases |m|
  {
    if |m| == 0 then -1
    else if m[0].name == k then 0
    else
      var i := NameIndex(m[1..], k);
      assert forall j :: 1 <= j < |m| ==> m[j] == m[1..][j - 1];
      if i == -1 then -1 else i + 1
  }

  /** Map lookup by name. */
  function Get(m: seq<Parameter>, k: string): (r: Option<Parameter>)
    ensures r.Some? ==> r.value in m && r.value.name == k
    ensures r.None? <==> k !in Names(m)
  {
    var i := NameIndex(m, k);
    if i == -1 then None else Some(m[i])
  }

  /** `put`: a known name keeps its slot and takes the new value, a new name
      is appended. */
  function Put(m: seq<Parameter>, p: Parameter): seq<Parameter>
  {
    var i := NameIndex(m, p.name);
    if i == -1 then m + [p] else m[i := p]
  }

  /** `associate`: the `LinkedHashMap` built by putting the parameters in order. */
  function Associate(ps: seq<Parameter>): seq<Parameter>
    decreases |ps|
  {
    if |ps| == 0 then [] else Put(Associate(ps[..|ps| - 1]), ps[|ps| - 1])
  }

  /** Reference definition of a map value: the last parameter with that name. */
  function LastNamed(ps: seq<Parameter>, k: string): Option<Parameter>
    decreases |ps|
  {
    if |ps| == 0 then None
    else if ps[|ps| - 1].name == k then Some(ps[|ps| - 1])
    else LastNamed(ps[..|ps| - 1], k)
  }

  lemma PutGet(m: seq<Parameter>, p: Parameter, k: string)
    ensures Get(Put(m, p), k) == if k == p.name then Some(p) else Get(m, k)
  {
    var i := NameIndex(m, p.name);
    var m' := Put(m, p);
    assert forall x :: 0 <= x < |m| && x != i ==> m'[x] == m[x];
    if k == p.name {
      NameIndexAt(m', k, if i == -1 then |m| else i);
    } else {
      var j := NameIndex(m, k);
      if j != -1 {
        NameIndexAt(m', k, j);
      }
    }
  }

  /** The first slot named `k` is found. */
  lemma NameIndexAt(m: seq<Parameter>, k: string, i: int)
    requires 0 <= i < |m| && m[i].name == k
    requires forall x :: 0 <= x < i ==> m[x].name != k
    ensures NameIndex(m, k) == i
  {
  }

  lemma PutNames(m: seq<Parameter>, p: Parameter)
    ensures Names(Put(m, p)) == if p.name in Names(m) then Names(m) else Names(m) + [p.name]
  {
    var i := NameIndex(m, p.name);
    if i != -1 {
      assert Names(m[i := p]) == Names(m)[i := p.name];
    }
  }

  /** The map holds, for every name, the last tag with that name. */
  lemma {:induction false} AssociateValues(ps: seq<Parameter>, k: string)
    ensures Get(Associate(ps), k) == LastNamed(ps, k)
    decreases |ps|
  {
    if |ps| > 0 {
      AssociateValues(ps[..|ps| - 1], k);
      PutGet(Associate(ps[..|ps| - 1]), ps[|ps| - 1], k);
    }
  }

  /** The map's names are the tag names in order of first appearance, each once. */
  lemma {:induction false} AssociateNames(ps: seq<Parameter>)
    ensures Names(Associate(ps)) == Dedup(Names(ps))
    decreases |ps|
  {
    if |ps| > 0 {
      var init := ps[..|ps| - 1];
      var last := ps[|ps| - 1];
      AssociateNames(init);
      PutNames(Associate(init), last);
      NamesSnoc(ps);
      DedupSnoc(Names(init), last.name);
    }
  }

  lemma NamesSnoc(ps: seq<Parameter>)
    requires |ps| > 0
    ensures Names(ps) == Names(ps[..|ps| - 1]) + [ps[|ps| - 1].name]
  {
  }

  // ---------------------------------------------------------------------
  // calculateParameters

  /** Kotlin `map { it.trim() }`. */
  function TrimAll(ps: seq<string>): (r: seq<string>)
    ensures |r| == |ps| && forall i :: 0 <= i < |ps| ==> r[i] == Trim(ps[i])
  {
    seq(|ps|, i requires 0 <= i < |ps| => Trim(ps[i]))
  }

  /** Kotlin `filter { it.isNotEmpty() }`. */
  function NonEmpty(ps: seq<string>): (r: seq<string>)
    ensures forall x :: x in r <==> x in ps && x != ""
    decreases |ps|
  {
    if |ps| == 0 then []
    else if ps[0] == "" then NonEmpty(ps[1..])
    else [ps[0]] + NonEmpty(ps[1..])
  }

  /** The formal parameter names of a `function(a, b){};` value. */
  function FormalNames(value: string): (r: Result<seq<string>>)
    ensures r.Ok? <==> StartsWith(value, FUNCTION_VALUE_START) && EndsWith(value, FUNCTION_VALUE_END) && |value| >= 13
    ensures r.Ok? ==> forall i :: 0 <= i < |r.value| ==> r.value[i] != ""
  {
    var body :- HardBetween(value, FUNCTION_VALUE_START, FUNCTION_VALUE_END);
    var names := NonEmpty(TrimAll(Split(body, ",")));
    assert forall i :: 0 <= i < |names| ==> names[i] in names;
    Ok(names)
  }

  /** The signature value written from a list of formal names is read back
      into that list. */
  lemma FormalNamesRoundTrip(names: seq<string>)
    requires forall i :: 0 <= i < |names| ==> names[i] != "" && NoChar(names[i], ',') && Trim(names[i]) == names[i]
    ensures FormalNames(FUNCTION_VALUE_START + Join(names, ",") + FUNCTION_VALUE_END) == Ok(names)
  {
    FormalNamesOf(Join(names, ","));
    NamePiecesRoundTrip(names);
  }

  lemma NamePiecesRoundTrip(names: seq<string>)
    requires forall i :: 0 <= i < |names| ==> names[i] != "" && NoChar(names[i], ',') && Trim(names[i]) == names[i]
    ensures NonEmpty(TrimAll(Split(Join(names, ","), ","))) == names
  {
    if |names| == 0 {
      SplitFirstPiece("", ",");
      assert TrimAll([""]) == [""];
    } else {
      NamesLackComma(names);
      SplitJoin(names, ",");
      TrimAllKeeps(names);
      NonEmptyKeeps(names);
    }
  }

  lemma NamesLackComma(names: seq<string>)
    requires forall i :: 0 <= i < |names| ==> NoChar(names[i], ',')
    ensures forall i :: 0 <= i < |names| ==> !Contains(names[i], ",")
  {
    forall i | 0 <= i < |names| ensures !Contains(names[i], ",") {
      NoCharLacks(names[i], ',');
    }
  }

  lemma TrimAllKeeps(names: seq<string>)
    requires forall i :: 0 <= i < |names| ==> Trim(names[i]) == names[i]
    ensures TrimAll(names) == names
  {
  }

  lemma FormalNamesOf(body: string)
    ensures FormalNames(FUNCTION_VALUE_START + body + FUNCTION_VALUE_END) == Ok(NonEmpty(TrimAll(Split(body, ","))))
  {
    HardBetweenRoundTrip(FUNCTION_VALUE_START, body, FUNCTION_VALUE_END);
  }

  lemma {:induction false} NonEmptyKeeps(ps: seq<string>)
    requires forall i :: 0 <= i < |ps| ==> ps[i] != ""
    ensures NonEmpty(ps) == ps
    decreases |ps|
  {
    if |ps| > 0 {
      NonEmptyKeeps(ps[1..]);
    }
  }

  /** `lines.filter { it.startsWith(PARAM) }.map { parseParamLine(it, function) }`. */
  function TagParameters(h: HackTables, lines: seq<string>, fn: string): (r: Result<seq<Parameter>>)
    ensures r.Ok? ==> |r.value| == |TagLines(lines, PARAM)|
    ensures r.Ok? <==> AllParamsParse(h, TagLines(lines, PARAM), fn)
    ensures r.Ok? ==> ParsedParams(h, TagLines(lines, PARAM), fn, r.value)
  {
    var tagged := TagLines(lines, PARAM);
    ParseParamLines(h, tagged, fn)
  }

  /** Every `@param` line parses. */
  predicate AllParamsParse(h: HackTables, lines: seq<string>, fn: string)
  {
    forall i :: 0 <= i < |lines| ==> ParseParamLine(h, lines[i], fn).Ok?
  }

  /** `ps` holds the parameters of the `@param` lines, in order. */
  predicate ParsedParams(h: HackTables, lines: seq<string>, fn: string, ps: seq<Parameter>)
  {
    |ps| == |lines| && forall i :: 0 <= i < |lines| ==> ParseParamLine(h, lines[i], fn) == Ok(ps[i])
  }

  function ParseParamLines(h: HackTables, lines: seq<string>, fn: string): (r: Result<seq<Parameter>>)
    ensures r.Ok? ==> |r.value| == |lines|
    ensures r.Ok? <==> forall i :: 0 <= i < |lines| ==> ParseParamLine(h, lines[i], fn).Ok?
    ensures r.Ok? ==> forall i :: 0 <= i < |lines| ==> ParseParamLine(h, lines[i], fn) == Ok(r.value[i])
  {
    MapAll(lines, (line: string) => ParseParamLine(h, line, fn))
  }

  /** `items` and, for an options object, the adapter's `generatedItems`. */
  datatype Parameters = Parameters(items: seq<Parameter>, generatedItems: Option<seq<Parameter>>)

  predicate HasDottedName(m: seq<Parameter>)
  {
    exists i :: 0 <= i < |m| && Contains(m[i].name, ".")
  }

  /** `Function.calculateParameters(data, lines)`. No formal parameter
      means no parameter (and no tag is read). A dotted tag name means an
      options object; otherwise every formal name takes its tag, or is a
      class parameter. */
  function CalculateParameters(h: HackTables, data: Data, lines: seq<string>): (r: Result<Parameters>)
    ensures r.Ok? ==> FormalNames(data.value).Ok?
    ensures FormalNames(data.value) == Ok([]) ==> r == Ok(Parameters([], None))
    ensures r.Ok? && FormalNames(data.value).value != [] ==>
      TagParameters(h, lines, data.name).Ok? &&
      (r.value.generatedItems.Some? <==> HasDottedName(Associate(TagParameters(h, lines, data.name).value)))
    ensures r.Ok? && r.value.generatedItems.None? ==>
      |r.value.items| == |FormalNames(data.value).value| &&
      forall i :: 0 <= i < |r.value.items| ==> r.value.items[i].name == FormalNames(data.value).value[i]
    ensures FormalNames(data.value).Ok? && FormalNames(data.value).value != [] ==>
      (TagParameters(h, lines, data.name).Err? ==> r.Err?) &&
      (TagParameters(h, lines, data.name).Ok? ==> r == ItemsOf(FormalNames(data.value).value, Associate(TagParameters(h, lines, data.name).value)))
  {
    var names :- FormalNames(data.value);
    if |names| == 0 then Ok(Parameters([], None))
    else
      var tagged :- TagParameters(h, lines, data.name);
      ItemsOf(names, Associate(tagged))
  }

  /** What the formal names and the associated tags give: the options-object
      parameters when a tag name is dotted, otherwise one parameter per
      formal name, without an adapter. */
  function ItemsOf(names: seq<string>, m: seq<Parameter>): (r: Result<Parameters>)
    ensures HasDottedName(m) ==> r == OptionsParameters(names, m)
    ensures !HasDottedName(m) ==>
      (r.Ok? <==> FormalParameters(names, m).Ok?) &&
      (r.Ok? ==> r.value == Parameters(FormalParameters(names, m).value, None))
  {
    if HasDottedName(m) then OptionsParameters(names, m)
    else
      var items :- FormalParameters(names, m);
      Ok(Parameters(items, None))
  }

  /** The options-object case: exactly one formal name, tagged with the
      object type; it becomes one `Map` parameter keeping its default, and
      every other tag becomes an adapter parameter named by its second
      dot-separated segment. */
  function OptionsParameters(names: seq<string>, m: seq<Parameter>): (r: Result<Parameters>)
    ensures r.Ok? <==>
      |names| == 1 && Get(m, names[0]).Some? && Get(m, names[0]).value.typ == OBJECT_TYPE &&
      Renamed(Others(m, names[0])).Ok?
    ensures r.Ok? ==>
      r.value.items == [Parameter(names[0], MAP_TYPE, Get(m, names[0]).value.defaultValue, false)] &&
      r.value.generatedItems == Some(Renamed(Others(m, names[0])).value)
  {
    if |names| != 1 then Err("Options parameter available only if parameter is single.")
    else
      var name := names[0];
      var parameter := Get(m, name);
      if parameter.None? || parameter.value.typ != OBJECT_TYPE then Err("Options parameter must have type " + OBJECT_TYPE + ".")
      else
        var generated :- Renamed(Others(m, name));
        Ok(Parameters([Parameter(name, MAP_TYPE, parameter.value.defaultValue, false)], Some(generated)))
  }

  /** `filter { it.name != name }`. */
  function Others(m: seq<Parameter>, name: string): (r: seq<Parameter>)
    ensures forall p :: p in r <==> p in m && p.name != name
    decreases |m|
  {
    if |m| == 0 then []
    else if m[0].name == name then Others(m[1..], name)
    else [m[0]] + Others(m[1..], name)
  }

  /** `Others` is the order-keeping filter on names. */
  lemma {:induction false} OthersIsFilter(m: seq<Parameter>, name: string)
    ensures Others(m, name) == Filter(m, (p: Parameter) => p.name != name)
    decreases |m|
  {
    if |m| > 0 {
      OthersIsFilter(m[1..], name);
    }
  }

  /** Removing a name from two lists of tags one after the other gives the
      same order as removing it from their concatenation. */
  lemma OthersAppend(a: seq<Parameter>, b: seq<Parameter>, name: string)
    ensures Others(a + b, name) == Others(a, name) + Others(b, name)
  {
    OthersIsFilter(a + b, name);
    OthersIsFilter(a, name);
    OthersIsFilter(b, name);
    FilterAppend(a, b, (p: Parameter) => p.name != name);
  }

  /** `name.split(".")[1]`: the second dot-separated segment. */
  function SecondSegment(name: string): (r: Result<string>)
    ensures r.Ok? <==> Contains(name, ".")
  {
    var parts := Split(name, ".");
    SplitPieces(name, ".");
    if |parts| < 2 then Err("Index 1 out of bounds for length 1") else Ok(parts[1])
  }

  /** An `options.x` tag names the adapter parameter `x`. */
  lemma SecondSegmentOfOption(x: string)
    requires !Contains(x, ".")
    ensures SecondSegment("options." + x) == Ok(x)
  {
    assert "options." + x == "options" + "." + x;
    assert !Contains("options", ".") by { NoCharLacks("options", '.'); }
    SplitCons("options", ".", x);
    SplitFirstPiece(x, ".");
  }

  /** The adapter parameters: each tag renamed to its second segment, with
      its type, default and `vararg` kept, in tag order. */
  function Renamed(ps: seq<Parameter>): (r: Result<seq<Parameter>>)
    ensures r.Ok? <==> forall i :: 0 <= i < |ps| ==> Contains(ps[i].name, ".")
    ensures r.Ok? ==> |r.value| == |ps| && forall i :: 0 <= i < |ps| ==>
      r.value[i] == ps[i].(name := SecondSegment(ps[i].name).value)
    decreases |ps|
  {
    if |ps| == 0 then Ok([])
    else
      var name :- SecondSegment(ps[0].name);
      var rest :- Renamed(ps[1..]);
      Ok([ps[0].(name := name)] + rest)
  }

  /** Every formal name takes its tag; an untagged one is a class parameter
      when its name ends with `Type`, and an error otherwise. */
  function FormalParameters(names: seq<string>, m: seq<Parameter>): (r: Result<seq<Parameter>>)
    ensures r.Ok? <==> forall i :: 0 <= i < |names| ==> Get(m, names[i]).Some? || IsClassParameter(names[i])
    ensures r.Ok? ==> |r.value| == |names| && forall i :: 0 <= i < |names| ==>
      r.value[i].name == names[i] &&
      (Get(m, names[i]).Some? ==> r.value[i] == Get(m, names[i]).value) &&
      (Get(m, names[i]).None? ==> r.value[i] == Simple(names[i], CLASS_TYPE))
    decreases |names|
  {
    if |names| == 0 then Ok([])
    else
      var name := names[0];
      var first :- match Get(m, name)
        case Some(p) => Ok(p)
        case None =>
          if IsClassParameter(name) then Ok(Simple(name, CLASS_TYPE))
          else Err("No type info about parameter '" + name + "'");
      var rest :- FormalParameters(names[1..], m);
      Ok([first] + rest)
  }

  // ---------------------------------------------------------------------
  // parametersString

  /** One parameter as Kotlin source: `vararg name: Type?  = default`. */
  function ParameterString(p: Parameter, useDefaultValue: bool, generated: bool): string
  {
    var head := (if p.vararg then "vararg " else "") + p.name + ": " + p.typ;
    match p.defaultValue
    case None => head
    case Some(d) =>
      head + (if d == "null" then "?" else "") +
      (if !useDefaultValue then "" else if generated then " = " + d else " = definedExternally")
  }

  function ParametersString(ps: seq<Parameter>, useDefaultValue: bool, generated: bool): string
  {
    Join(seq(|ps|, i requires 0 <= i < |ps| => ParameterString(ps[i], useDefaultValue, generated)), ", ")
  }

  /** What `parametersString(false)` still sees of a parameter: its name,
      type, `vararg`, and whether its default is the literal `null`. */
  predicate SameSignature(p: Parameter, q: Parameter)
  {
    p.name == q.name && p.typ == q.typ && p.vararg == q.vararg &&
    (p.defaultValue == Some("null")) == (q.defaultValue == Some("null")) &&
    p.defaultValue.Some? == q.defaultValue.Some?
  }

  /** The equality key `parametersString(false)` of a function ignores
      whether it is generated and every default value other than `null`. */
  lemma SignatureKeyIgnoresDefaults(ps: seq<Parameter>, qs: seq<Parameter>, g1: bool, g2: bool)
    requires |ps| == |qs|
    requires forall i :: 0 <= i < |ps| ==> SameSignature(ps[i], qs[i])
    ensures ParametersString(ps, false, g1) == ParametersString(qs, false, g2)
  {
    var a := seq(|ps|, i requires 0 <= i < |ps| => ParameterString(ps[i], false, g1));
    var b := seq(|qs|, i requires 0 <= i < |qs| => ParameterString(qs[i], false, g2));
    assert a == b;
  }

  /** With defaults in use, a default value is written out in a generated
      adapter and left to the foreign side otherwise. */
  lemma DefaultValueWritten(p: Parameter, generated: bool)
    requires p.defaultValue.Some?
    ensures EndsWith(ParameterString(p, true, generated),
                     if generated then " = " + p.defaultValue.value else " = definedExternally")
  {
  }
}
