/** `ClassRegistryImpl`: which declared types exist, which plain functions
    each declares, and whether a function overrides one declared by some
    ancestor. */
module Registry {
  import opened Wrappers
  import opened Text
  import opened StringUtil
  import opened Seqs
  import opened Ir
  import opened Hacks
  import opened Declarations

  predicate IsInstanceNamed(d: Declaration, className: string)
  {
    d.IsInstanceDec() && d.className == className
  }

  /** The position of the last instance declaration named `className`
      among the first `n` declarations, or -1. */
  function LastInstanceIndex(decls: seq<Declaration>, className: string, n: nat): (r: int)
    requires n <= |decls|
    ensures -1 <= r < n
    ensures r != -1 ==> IsInstanceNamed(decls[r], className)
    ensures forall j :: r < j < n ==> !IsInstanceNamed(decls[j], className)
    decreases n
  {
    if n == 0 then -1
    else if IsInstanceNamed(decls[n - 1], className) then n - 1
    else LastInstanceIndex(decls, className, n - 1)
  }

  /** `instances[className]`: `associateBy` keeps the last instance
      declaration of each name. */
  function InstanceOf(decls: seq<Declaration>, className: string): (r: Option<Declaration>)
    ensures r.Some? ==> r.value in decls && IsInstanceNamed(r.value, className)
    ensures r.None? <==> forall i :: 0 <= i < |decls| ==> !IsInstanceNamed(decls[i], className)
  {
    var i := LastInstanceIndex(decls, className, |decls|);
    if i == -1 then None else Some(decls[i])
  }

  predicate HasInstance(decls: seq<Declaration>, className: string)
  {
    InstanceOf(decls, className).Some?
  }

  /** `functionsMap[className]`: the names of the plain functions (not
      constructors) owned by `className`, in order. */
  function FunctionNames(decls: seq<Declaration>, className: string): (r: seq<string>)
    ensures forall f :: f in r <==>
      exists i :: 0 <= i < |decls| && decls[i].IsPlainFunction() && decls[i].className == className && decls[i].name == f
    decreases |decls|
  {
    if |decls| == 0 then []
    else
      var n := |decls|;
      var d := decls[n - 1];
      var r := FunctionNames(decls[..n - 1], className);
      assert forall i :: 0 <= i < n - 1 ==> decls[..n - 1][i] == decls[i];
      if d.IsPlainFunction() && d.className == className then r + [d.name] else r
  }

  /** A known type declares a plain function of that name. */
  predicate Declares(decls: seq<Declaration>, className: string, f: string)
  {
    HasInstance(decls, className) && f in FunctionNames(decls, className)
  }

  /** A parent type name without its generic arguments. */
  function RawType(t: string): (r: string)
    ensures !Contains(r, "<")
    ensures Contains(t, "<") ==> StartsWith(t, r + "<")
    ensures !Contains(t, "<") ==> r == t
  {
    if Contains(t, "<") then
      var r := Till(t, "<").value;
      assert r == t[..IndexOf(t, "<")];
      RawTypeLacks(t);
      r
    else t
  }

  lemma RawTypeLacks(t: string)
    requires Contains(t, "<")
    ensures !Contains(t[..IndexOf(t, "<")], "<")
  {
    var i := IndexOf(t, "<");
    PrefixBefore(t, "<", i);
  }

  function MapRaw(ts: seq<string>): (r: seq<string>)
    ensures |r| == |ts|
    ensures forall i :: 0 <= i < |ts| ==> r[i] == RawType(ts[i])
  {
    seq(|ts|, i requires 0 <= i < |ts| => RawType(ts[i]))
  }

  /** `getParents`: the extended type and then the implemented types, each
      once, with generic arguments cut off. An unknown type is an error. */
  function Parents(h: HackTables, decls: seq<Declaration>, className: string): (r: Result<seq<string>>)
    ensures !HasInstance(decls, className) ==> r.Err?
    ensures r.Ok? ==> forall p :: p in r.value ==> !Contains(p, "<")
    ensures r.Ok? ==>
      var d := InstanceOf(decls, className).value;
      ExtendedType(h, d).Ok? && ImplementedTypes(h, d).Ok? &&
      r.value == MapRaw(Dedup(ExtendedType(h, d).value.ToSeq() + ImplementedTypes(h, d).value))
  {
    match InstanceOf(decls, className)
    case None => Err("Unknown instance type: " + className)
    case Some(d) =>
      var extended := ExtendedType(h, d);
      if extended.Err? then Err(extended.msg)
      else
        var implemented := ImplementedTypes(h, d);
        if implemented.Err? then Err(implemented.msg)
        else Ok(MapRaw(Dedup(extended.value.ToSeq() + implemented.value)))
  }

  /** Every parent of a type ranks below it: the inheritance graph has no
      cycle, which the walk needs to end. */
  ghost predicate Ranked(h: HackTables, decls: seq<Declaration>, rank: string -> nat)
  {
    forall c :: Parents(h, decls, c).Ok? ==> forall p :: p in Parents(h, decls, c).value ==> rank(p) < rank(c)
  }

  /** `functionOverriden(className, functionName, checkCurrentClass)`. */
  function Overridden(h: HackTables, decls: seq<Declaration>, rank: string -> nat,
                      className: string, f: string, checkCurrent: bool): (r: Result<bool>)
    requires Ranked(h, decls, rank)
    ensures !HasInstance(decls, className) ==> r.Err?
    ensures checkCurrent && Declares(decls, className, f) ==> r == Ok(true)
    decreases rank(className), 1
  {
    if checkCurrent && !HasInstance(decls, className) then Err("No functions found for type: " + className)
    else if checkCurrent && f in FunctionNames(decls, className) then Ok(true)
    else
      var parents := Parents(h, decls, className);
      if parents.Err? then Err(parents.msg)
      else AnyOverridden(h, decls, rank, className, parents.value, f)
  }

  /** `getParents(className).any { … }`: parents are tried in order; the
      first that answers yes ends the walk, the first error ends it too. */
  function AnyOverridden(h: HackTables, decls: seq<Declaration>, rank: string -> nat,
                         className: string, parents: seq<string>, f: string): (r: Result<bool>)
    requires Ranked(h, decls, rank)
    requires forall p :: p in parents ==> rank(p) < rank(className)
    ensures parents == [] ==> r == Ok(false)
    decreases rank(className), 0, |parents|
  {
    if |parents| == 0 then Ok(false)
    else
      var first := Overridden(h, decls, rank, parents[0], f, true);
      if first.Err? then Err(first.msg)
      else if first.value then Ok(true)
      else AnyOverridden(h, decls, rank, className, parents[1..], f)
  }

  /** `functionOverriden(className, functionName)`: the type itself is not
      asked. */
  function FunctionOverridden(h: HackTables, decls: seq<Declaration>, rank: string -> nat,
                              className: string, f: string): (r: Result<bool>)
    requires Ranked(h, decls, rank)
    ensures r.Ok? ==> (r.value <==> Inherits(h, decls, rank, className, f))
  {
    OverriddenSound(h, decls, rank, className, f, false);
    Overridden(h, decls, rank, className, f, false)
  }

  /** `overridden()` of a function or constructor: a constructor never
      overrides, nor does a generated adapter; any other function asks the
      registry about its owning type. */
  function DeclarationOverridden(h: HackTables, decls: seq<Declaration>, rank: string -> nat,
                                 d: Declaration): (r: Result<bool>)
    requires Ranked(h, decls, rank)
    requires d.body.FunctionBody? || d.body.ConstructorBody?
    ensures d.body.ConstructorBody? ==> r == Ok(false)
    ensures r.Ok? ==>
      (r.value <==> d.body.FunctionBody? && !d.body.fun.generated && Inherits(h, decls, rank, d.className, d.name))
  {
    if d.body.ConstructorBody? then Ok(false)
    else if d.body.fun.generated then Ok(false)
    else FunctionOverridden(h, decls, rank, d.className, d.name)
  }

  /** Reference definition: some ancestor, reached through one or more
      parent steps, declares a plain function named `f`. */
  ghost predicate Inherits(h: HackTables, decls: seq<Declaration>, rank: string -> nat, className: string, f: string)
    requires Ranked(h, decls, rank)
    decreases rank(className)
  {
    Parents(h, decls, className).Ok? &&
    exists p :: p in Parents(h, decls, className).value &&
      (Declares(decls, p, f) || Inherits(h, decls, rank, p, f))
  }

  /** A successful walk answers yes exactly when the type (if asked) or some
      ancestor declares the function. */
  lemma {:induction false} OverriddenSound(h: HackTables, decls: seq<Declaration>, rank: string -> nat,
                                           className: string, f: string, checkCurrent: bool)
    requires Ranked(h, decls, rank)
    ensures var r := Overridden(h, decls, rank, className, f, checkCurrent);
      r.Ok? ==> (r.value <==> (checkCurrent && Declares(decls, className, f)) || Inherits(h, decls, rank, className, f))
    decreases rank(className), 1
  {
    var r := Overridden(h, decls, rank, className, f, checkCurrent);
    if r.Ok? && !(checkCurrent && f in FunctionNames(decls, className)) {
      var parents := Parents(h, decls, className).value;
      AnySound(h, decls, rank, className, parents, f);
    }
  }

  lemma {:induction false} AnySound(h: HackTables, decls: seq<Declaration>, rank: string -> nat,
                                    className: string, parents: seq<string>, f: string)
    requires Ranked(h, decls, rank)
    requires forall p :: p in parents ==> rank(p) < rank(className)
    ensures var r := AnyOverridden(h, decls, rank, className, parents, f);
      r.Ok? ==> (r.value <==> exists p :: p in parents && (Declares(decls, p, f) || Inherits(h, decls, rank, p, f)))
    decreases rank(className), 0, |parents|
  {
    var r := AnyOverridden(h, decls, rank, className, parents, f);
    if r.Ok? && |parents| > 0 {
      var p0 := parents[0];
      OverriddenSound(h, decls, rank, p0, f, true);
      var first := Overridden(h, decls, rank, p0, f, true);
      if !first.value {
        AnySound(h, decls, rank, className, parents[1..], f);
        assert forall p :: p in parents <==> p == p0 || p in parents[1..];
      }
    }
  }

  /** Asking about a type nobody declared is an error, whether or not the
      type itself is asked. */
  lemma UnknownType(h: HackTables, decls: seq<Declaration>, rank: string -> nat, className: string, f: string)
    requires Ranked(h, decls, rank)
    requires forall i :: 0 <= i < |decls| ==> decls[i].className != className
    ensures FunctionOverridden(h, decls, rank, className, f).Err?
  {
  }

  /** A type without parents overrides nothing, whatever it declares itself. */
  lemma NoParentsNoOverride(h: HackTables, decls: seq<Declaration>, rank: string -> nat, className: string, f: string)
    requires Ranked(h, decls, rank)
    requires Parents(h, decls, className) == Ok([])
    ensures FunctionOverridden(h, decls, rank, className, f) == Ok(false)
  {
  }
}
