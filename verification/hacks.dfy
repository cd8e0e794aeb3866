/** The `Hacks` object: per-API corrections the generator consults before
    its general rules. The tables themselves are API-version data and are
    given as lookup functions; the rules that decide WHEN a table is
    consulted, and the fixed rewrites, are modelled as written. */
module Hacks {
  import opened Wrappers
  import opened Text
  import opened Ir

  datatype HackTables = HackTables(
    /** type of the `value` parameter of a setter, by function name */
    valueParameter: string -> Option<string>,
    /** type of an `options.x` parameter, by function name and tag name */
    optionsParameter: (string, string) -> Option<string>,
    /** return type of an untyped `@returns` tag, by class and member */
    returnType: (string, string) -> Option<string>,
    /** explicit generics of a function, by class and member */
    functionGenerics: (string, string) -> Option<string>,
    ignoreExtendedType: string -> bool,
    implementedTypes: string -> Option<seq<string>>)

  const VALUE_PARAM := "@param value"
  const OPTIONS_PARAM := "@param options."

  predicate IsHackedParamLine(line: string)
  {
    StartsWith(line, VALUE_PARAM) || StartsWith(line, OPTIONS_PARAM)
  }

  /** `Hacks.parseParamLine`: `None` for an ordinary tag line; for a
      `value` or `options.` tag line the table's parameter, or an error when
      the table has no entry. */
  function HackedParameter(h: HackTables, line: string, fn: string): (r: Result<Option<Parameter>>)
    ensures r == Ok(None) <==> !IsHackedParamLine(line)
    ensures r.Ok? && StartsWith(line, VALUE_PARAM) ==>
      h.valueParameter(fn).Some? && r.value == Some(Simple("value", h.valueParameter(fn).value))
    ensures r.Ok? && r.value.Some? && !StartsWith(line, VALUE_PARAM) ==>
      StartsWith(line, OPTIONS_PARAM) && h.optionsParameter(fn, r.value.value.name).Some? &&
      r.value.value == Simple(r.value.value.name, h.optionsParameter(fn, r.value.value.name).value)
  {
    if StartsWith(line, VALUE_PARAM) then
      match h.valueParameter(fn)
      case Some(t) => Ok(Some(Simple("value", t)))
      case None => Err("No hacked parameter value for function " + fn)
    else if StartsWith(line, OPTIONS_PARAM) then
      var name := OptionsTagName(line);
      match h.optionsParameter(fn, name)
      case Some(t) => Ok(Some(Simple(name, t)))
      case None => Err("No hacked parameter '" + name + "' for function " + fn)
    else
      Ok(None)
  }

  /** `line.split(" ")[1]`, which exists because the tag holds a space. */
  function OptionsTagName(line: string): (r: string)
    requires StartsWith(line, OPTIONS_PARAM)
  {
    assert OccursAt(line, " ", 6) by { assert line[6..7] == OPTIONS_PARAM[6..7]; }
    ContainsIff(line, " ");
    SplitPieces(line, " ");
    Split(line, " ")[1]
  }

  /** `Hacks.getReturnType`: `None` for a typed `@returns {…}` line, so the
      generator parses it; otherwise the table's type, or an error. */
  function HackedReturnType(h: HackTables, line: string, className: string, name: string): (r: Result<Option<string>>)
    ensures r == Ok(None) <==> StartsWith(line, "@returns {")
    ensures r.Ok? && r.value.Some? ==> r.value == h.returnType(className, name)
  {
    if StartsWith(line, "@returns {") then Ok(None)
    else
      match h.returnType(className, name)
      case Some(t) => Ok(Some(t))
      case None => Err("No return type founded!")
  }

  /** `validateStaticConstType`: a generic `<T>` in a constant becomes `<out Any>`. */
  function ValidateStaticConstType(t: string): string
  {
    Replace(t, "<T>", "<out Any>")
  }

  /** A constant type without `<T>` is left alone. */
  lemma ConstTypeKept(t: string)
    requires !Contains(t, "<T>")
    ensures ValidateStaticConstType(t) == t
  {
    ReplaceAbsent(t, "<T>", "<out Any>");
  }

  /** `isClassParameter`: an untagged parameter is a class parameter iff its
      name ends with `Type`. */
  predicate IsClassParameter(name: string)
  {
    EndsWith(name, "Type")
  }
}
