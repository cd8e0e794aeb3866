/** The step from the list of declarations to generated files: a class is
    made up for each constructor no class block declares; every class,
    interface and enum gets a file; constructors and members are attached
    to the first file of their owning type; each file lists its constants
    and functions sorted by name, split into static and member parts. */
module Files {
  import opened Wrappers
  import opened Seqs
  import opened Ir
  import opened Params
  import opened Declarations
  import opened Order

  // ---------------------------------------------------------------------
  // synthetic classes

  predicate IsClass(d: Declaration) { d.body.ClassBody? }
  predicate IsConstructor(d: Declaration) { d.body.ConstructorBody? }

  /** The names of the declared classes. */
  function ClassNames(decls: seq<Declaration>): (r: seq<string>)
    ensures forall c :: c in r <==> exists d :: d in decls && IsClass(d) && d.className == c
  {
    var classes := Filter(decls, IsClass);
    var r := seq(|classes|, i requires 0 <= i < |classes| => classes[i].className);
    assert forall d :: d in classes ==> d.className in r by {
      forall d | d in classes
        ensures d.className in r
      {
        var i :| 0 <= i < |classes| && classes[i] == d;
        assert r[i] == d.className;
      }
    }
    r
  }

  /** `e` is the class made from the constructor at `j`, the first
      constructor of its type. */
  predicate MadeFromFirst(ds: seq<Declaration>, e: Declaration, j: int)
  {
    0 <= j < |ds| && IsConstructor(ds[j]) && e == ToClassDec(ds[j]) &&
    forall k :: 0 <= k < j ==> !(IsConstructor(ds[k]) && ds[k].className == e.className)
  }

  ghost predicate MadeFromConstructor(ds: seq<Declaration>, e: Declaration)
  {
    exists j :: MadeFromFirst(ds, e, j)
  }

  /** What the made-up classes `r` are, given the constructors `ds` and the
      type names already `known`. */
  ghost predicate Synthesis(ds: seq<Declaration>, known: seq<string>, r: seq<Declaration>)
  {
    (forall e :: e in r ==> IsClass(e) && e.className !in known) &&
    (forall i, j :: 0 <= i < j < |r| ==> r[i].className != r[j].className) &&
    (forall e :: e in r ==> MadeFromConstructor(ds, e)) &&
    (forall d :: d in ds && IsConstructor(d) ==> d.className in known || exists e :: e in r && e.className == d.className)
  }

  /** The additional classes: for each constructor, in order, whose type is
      not yet known, its `toClassDec()`; the type is then known. */
  function Synthesize(ds: seq<Declaration>, known: seq<string>): (r: seq<Declaration>)
    ensures forall e :: e in r ==> IsClass(e) && e.className !in known
    ensures forall i, j :: 0 <= i < j < |r| ==> r[i].className != r[j].className
    ensures forall e :: e in r ==> MadeFromConstructor(ds, e)
    ensures forall d :: d in ds && IsConstructor(d) ==> d.className in known || exists e :: e in r && e.className == d.className
    decreases |ds|
  {
    if |ds| == 0 then []
    else
      var d := ds[0];
      if IsConstructor(d) && d.className !in known then
        var rest := Synthesize(ds[1..], known + [d.className]);
        SynthesizeFirst(ds, known, rest);
        [ToClassDec(d)] + rest
      else
        var rest := Synthesize(ds[1..], known);
        SynthesizeSkip(ds, known, rest);
        rest
  }

  /** A class made from a first constructor of `ds[1..]` is made from a
      first constructor of `ds` when `ds[0]` is no constructor of its type. */
  lemma MadeFromShift(ds: seq<Declaration>, e: Declaration)
    requires |ds| > 0 && MadeFromConstructor(ds[1..], e)
    requires !(IsConstructor(ds[0]) && ds[0].className == e.className)
    ensures MadeFromConstructor(ds, e)
  {
    var j :| MadeFromFirst(ds[1..], e, j);
    assert forall k :: 0 < k < j + 1 ==> ds[k] == ds[1..][k - 1];
    assert MadeFromFirst(ds, e, j + 1);
  }

  lemma SynthesizeFirst(ds: seq<Declaration>, known: seq<string>, rest: seq<Declaration>)
    requires |ds| > 0 && IsConstructor(ds[0]) && ds[0].className !in known
    requires Synthesis(ds[1..], known + [ds[0].className], rest)
    ensures Synthesis(ds, known, [ToClassDec(ds[0])] + rest)
  {
    SynthesizeFirstClasses(ds, known, rest);
    SynthesizeFirstMade(ds, rest);
    SynthesizeFirstCovers(ds, known, rest);
  }

  lemma SynthesizeFirstClasses(ds: seq<Declaration>, known: seq<string>, rest: seq<Declaration>)
    requires |ds| > 0 && IsConstructor(ds[0]) && ds[0].className !in known
    requires forall e :: e in rest ==> IsClass(e) && e.className !in known + [ds[0].className]
    requires forall i, j :: 0 <= i < j < |rest| ==> rest[i].className != rest[j].className
    ensures var r := [ToClassDec(ds[0])] + rest;
      (forall e :: e in r ==> IsClass(e) && e.className !in known) &&
      (forall i, j :: 0 <= i < j < |r| ==> r[i].className != r[j].className)
  {
    var r := [ToClassDec(ds[0])] + rest;
    assert forall e :: e in r <==> e == r[0] || e in rest;
    assert forall j :: 0 < j < |r| ==> r[j] == rest[j - 1] && r[j] in rest;
  }

  lemma SynthesizeFirstMade(ds: seq<Declaration>, rest: seq<Declaration>)
    requires |ds| > 0 && IsConstructor(ds[0])
    requires forall e :: e in rest ==> e.className !in [ds[0].className] && MadeFromConstructor(ds[1..], e)
    ensures forall e :: e in [ToClassDec(ds[0])] + rest ==> MadeFromConstructor(ds, e)
  {
    var r := [ToClassDec(ds[0])] + rest;
    assert MadeFromFirst(ds, r[0], 0);
    forall e | e in r
      ensures MadeFromConstructor(ds, e)
    {
      if e != r[0] {
        assert e in rest;
        MadeFromShift(ds, e);
      }
    }
  }

  lemma SynthesizeFirstCovers(ds: seq<Declaration>, known: seq<string>, rest: seq<Declaration>)
    requires |ds| > 0 && IsConstructor(ds[0])
    requires forall d :: d in ds[1..] && IsConstructor(d) ==>
      d.className in known + [ds[0].className] || exists e :: e in rest && e.className == d.className
    ensures forall d :: d in ds && IsConstructor(d) ==>
      d.className in known || exists e :: e in [ToClassDec(ds[0])] + rest && e.className == d.className
  {
    var r := [ToClassDec(ds[0])] + rest;
    forall d | d in ds && IsConstructor(d)
      ensures d.className in known || exists e :: e in r && e.className == d.className
    {
      if d.className != ds[0].className {
        assert d in ds[1..];
        if e :| e in rest && e.className == d.className {
          assert e in r;
        }
      } else {
        assert r[0] in r;
      }
    }
  }

  lemma SynthesizeSkip(ds: seq<Declaration>, known: seq<string>, rest: seq<Declaration>)
    requires |ds| > 0 && !(IsConstructor(ds[0]) && ds[0].className !in known)
    requires Synthesis(ds[1..], known, rest)
    ensures Synthesis(ds, known, rest)
  {
    forall e | e in rest
      ensures MadeFromConstructor(ds, e)
    {
      MadeFromShift(ds, e);
    }
    forall d | d in ds && IsConstructor(d)
      ensures d.className in known || exists e :: e in rest && e.className == d.className
    {
      if d != ds[0] {
        assert d in ds[1..];
      }
    }
  }

  /** The declarations with the made-up classes appended. */
  function WithSyntheticClasses(decls: seq<Declaration>): (r: seq<Declaration>)
    ensures |r| >= |decls| && r[..|decls|] == decls
  {
    decls + Synthesize(decls, ClassNames(decls))
  }

  /** Afterwards every constructor's type has a class, and no made-up class
      shares its name with another class. */
  lemma EveryConstructorHasClass(decls: seq<Declaration>)
    ensures forall d :: d in decls && IsConstructor(d) ==>
              exists e :: e in WithSyntheticClasses(decls) && IsClass(e) && e.className == d.className
    ensures forall e, e' :: (e in Synthesize(decls, ClassNames(decls)) && e' in WithSyntheticClasses(decls) && IsClass(e') &&
                             e'.className == e.className) ==> e' == e
  {
    var extra := Synthesize(decls, ClassNames(decls));
    var all := WithSyntheticClasses(decls);
    forall d | d in decls && IsConstructor(d)
      ensures exists e :: e in all && IsClass(e) && e.className == d.className
    {
      if d.className in ClassNames(decls) {
        var e :| e in decls && IsClass(e) && e.className == d.className;
        assert e in all;
      } else {
        var e :| e in extra && e.className == d.className;
        assert e in all;
      }
    }
    forall e, e' | e in extra && e' in all && IsClass(e') && e'.className == e.className
      ensures e' == e
    {
      assert e.className !in ClassNames(decls);
      assert e' !in decls;
      assert e' in extra;
      var i :| 0 <= i < |extra| && extra[i] == e;
      var j :| 0 <= j < |extra| && extra[j] == e';
    }
  }

  // ---------------------------------------------------------------------
  // FileGenerator: files and their items

  /** The types that get a file: classes, then interfaces, then enums. */
  function Owners(decls: seq<Declaration>): (r: seq<Declaration>)
    ensures forall d :: d in r <==> d in decls && d.IsInstanceDec()
    ensures |Filter(decls, IsClass)| <= |r| && r[..|Filter(decls, IsClass)|] == Filter(decls, IsClass)
  {
    Filter(decls, IsClass) + Filter(decls, (d: Declaration) => d.body.InterfaceBody?) +
    Filter(decls, (d: Declaration) => d.body.EnumBody?)
  }

  /** The first of the first `n` owners named `c`, or -1. */
  function FirstOwner(owners: seq<Declaration>, n: nat, c: string): (r: int)
    requires n <= |owners|
    ensures -1 <= r < n
    ensures r != -1 ==> owners[r].className == c
    ensures forall k :: 0 <= k < n && (r == -1 || k < r) ==> owners[k].className != c
    decreases n
  {
    if n == 0 then -1
    else
      var r := FirstOwner(owners, n - 1, c);
      if r != -1 then r else if owners[n - 1].className == c then n - 1 else -1
  }

  /** The declarations `owners[i]` receives: those whose first owner among
      the first `n` is `i`, in order. */
  function Routed(ds: seq<Declaration>, owners: seq<Declaration>, n: nat, i: int): (r: seq<Declaration>)
    requires n <= |owners|
    ensures forall d :: d in r <==> d in ds && FirstOwner(owners, n, d.className) == i
  {
    Filter(ds, (d: Declaration) => FirstOwner(owners, n, d.className) == i)
  }

  /** `ds.forEach { first { it.className == className }.addItem(it) }`: the
      item lists of the files, grown one declaration at a time; a
      declaration without a file is an error. */
  function Place(items: seq<seq<Declaration>>, ds: seq<Declaration>, owners: seq<Declaration>, n: nat): (r: Result<seq<seq<Declaration>>>)
    requires |items| == |owners| && n <= |owners|
    ensures r.Ok? <==> forall d :: d in ds ==> FirstOwner(owners, n, d.className) != -1
    ensures r.Ok? ==> |r.value| == |items|
    decreases |ds|
  {
    if |ds| == 0 then Ok(items)
    else
      var i := FirstOwner(owners, n, ds[0].className);
      assert forall d :: d in ds <==> d == ds[0] || d in ds[1..];
      if i == -1 then Err("Collection contains no element matching the predicate.")
      else Place(items[i := items[i] + [ds[0]]], ds[1..], owners, n)
  }

  /** Each file ends up with exactly the declarations routed to it, in
      order. */
  lemma {:induction false} PlaceRouted(items: seq<seq<Declaration>>, ds: seq<Declaration>, owners: seq<Declaration>, n: nat)
    requires |items| == |owners| && n <= |owners|
    requires Place(items, ds, owners, n).Ok?
    ensures forall i :: 0 <= i < |items| ==> Place(items, ds, owners, n).value[i] == items[i] + Routed(ds, owners, n, i)
    decreases |ds|
  {
    if |ds| > 0 {
      var k := FirstOwner(owners, n, ds[0].className);
      var items' := items[k := items[k] + [ds[0]]];
      PlaceRouted(items', ds[1..], owners, n);
      forall i | 0 <= i < |items|
        ensures Place(items, ds, owners, n).value[i] == items[i] + Routed(ds, owners, n, i)
      {
        RoutedCons(ds, owners, n, i);
        if i == k {
          RegroupItems(items[i], ds[0], Routed(ds[1..], owners, n, i));
        }
      }
    }
  }

  /** The first declaration goes to its own file only. */
  lemma RoutedCons(ds: seq<Declaration>, owners: seq<Declaration>, n: nat, i: int)
    requires |ds| > 0 && n <= |owners|
    ensures Routed(ds, owners, n, i) ==
      (if FirstOwner(owners, n, ds[0].className) == i then [ds[0]] else []) + Routed(ds[1..], owners, n, i)
  {
  }

  lemma RegroupItems(xs: seq<Declaration>, d: Declaration, ys: seq<Declaration>)
    ensures xs + [d] + ys == xs + ([d] + ys)
  {
  }

  /** Neither a namespace, a type nor a constructor: what is attached to
      the type files. */
  predicate IsMember(d: Declaration)
  {
    !(d.body.NamespaceBody? || d.IsInstanceDec() || d.body.ConstructorBody?)
  }

  datatype GeneratedFile = GeneratedFile(owner: Declaration, items: seq<Declaration>)

  /** How many owners are classes: the class files come first. */
  function ClassCount(decls: seq<Declaration>): (r: nat)
    ensures r <= |Owners(decls)|
  {
    |Filter(decls, IsClass)|
  }

  /** Every constructor's type has a class file and every member's type
      has a file. */
  predicate AllPlaced(decls: seq<Declaration>)
  {
    var owners := Owners(decls);
    (forall d :: d in Filter(decls, IsConstructor) ==> FirstOwner(owners, ClassCount(decls), d.className) != -1) &&
    (forall d :: d in Filter(decls, IsMember) ==> FirstOwner(owners, |owners|, d.className) != -1)
  }

  /** What the file of owner `i` holds: its constructors, then its other
      members, each in declaration order. */
  function FileItems(decls: seq<Declaration>, i: int): seq<Declaration>
  {
    var owners := Owners(decls);
    Routed(Filter(decls, IsConstructor), owners, ClassCount(decls), i) + Routed(Filter(decls, IsMember), owners, |owners|, i)
  }

  /** `FileGenerator`'s `init`: constructors go to the first class file of
      their type, every other member to the first class, interface or enum
      file of its type. */
  function Group(decls: seq<Declaration>): (r: Result<seq<GeneratedFile>>)
    ensures r.Ok? <==> AllPlaced(decls)
    ensures r.Ok? ==> |r.value| == |Owners(decls)|
    ensures r.Ok? ==> forall i :: 0 <= i < |r.value| ==>
      r.value[i].owner == Owners(decls)[i] && r.value[i].items == FileItems(decls, i)
  {
    var owners := Owners(decls);
    var items := PlaceAll(owners, ClassCount(decls), Filter(decls, IsConstructor), Filter(decls, IsMember));
    if items.Err? then Err(items.msg)
    else Ok(seq(|owners|, i requires 0 <= i < |owners| => GeneratedFile(owners[i], items.value[i])))
  }

  /** The constructors placed among the first `nClasses` owners, then the
      members placed among all owners. */
  function PlaceAll(owners: seq<Declaration>, nClasses: nat, ctors: seq<Declaration>, members: seq<Declaration>)
    : (r: Result<seq<seq<Declaration>>>)
    requires nClasses <= |owners|
    ensures r.Ok? <==> (forall d :: d in ctors ==> FirstOwner(owners, nClasses, d.className) != -1) &&
                       (forall d :: d in members ==> FirstOwner(owners, |owners|, d.className) != -1)
    ensures r.Ok? ==> |r.value| == |owners|
    ensures r.Ok? ==> forall i :: 0 <= i < |owners| ==>
      r.value[i] == Routed(ctors, owners, nClasses, i) + Routed(members, owners, |owners|, i)
  {
    var empty := seq(|owners|, i => []);
    var withCtors := Place(empty, ctors, owners, nClasses);
    if withCtors.Err? then Err(withCtors.msg)
    else
      PlaceRouted(empty, ctors, owners, nClasses);
      var all := Place(withCtors.value, members, owners, |owners|);
      if all.Err? then Err(all.msg)
      else
        PlaceRouted(withCtors.value, members, owners, |owners|);
        assert forall i :: 0 <= i < |owners| ==> empty[i] + Routed(ctors, owners, nClasses, i) == Routed(ctors, owners, nClasses, i);
        all
  }

  // ---------------------------------------------------------------------
  // GeneratedFile: sorted constants and functions

  predicate IsConst(d: Declaration) { d.body.ConstBody? }
  predicate IsStaticConst(d: Declaration) { d.body.ConstBody? && d.body.constStatic }
  predicate IsMemberConst(d: Declaration) { d.body.ConstBody? && !d.body.constStatic }
  predicate IsStaticFunction(d: Declaration) { d.body.FunctionBody? && d.body.fun.isStatic }
  predicate IsMemberFunction(d: Declaration) { d.body.FunctionBody? && !d.body.fun.isStatic }

  /** `consts`: the constants, sorted by name. */
  function Consts(items: seq<Declaration>): (r: seq<Declaration>)
    ensures multiset(r) == multiset(Filter(items, IsConst))
    ensures SortedByName(r)
  {
    SortSorted(Filter(items, IsConst));
    SortByName(Filter(items, IsConst))
  }

  /** `functions`: the functions that are not constructors, sorted by name. */
  function Functions(items: seq<Declaration>): (r: seq<Declaration>)
    ensures multiset(r) == multiset(Filter(items, (d: Declaration) => d.IsPlainFunction()))
    ensures SortedByName(r)
  {
    SortSorted(Filter(items, (d: Declaration) => d.IsPlainFunction()));
    SortByName(Filter(items, (d: Declaration) => d.IsPlainFunction()))
  }

  /** What `equals` compares for two functions: owner, name and
      `parametersString(false)`. */
  function SignatureKey(d: Declaration): (string, string, string)
    requires d.body.FunctionBody?
  {
    (d.className, d.name, ParametersString(d.body.fun.parameters, false, d.body.fun.generated))
  }

  predicate AllFunctions(fs: seq<Declaration>)
  {
    forall d :: d in fs ==> d.body.FunctionBody?
  }

  /** Some function in `fs` has signature key `key`. */
  predicate HasKey(fs: seq<Declaration>, key: (string, string, string))
    requires AllFunctions(fs)
  {
    exists i :: 0 <= i < |fs| && SignatureKey(fs[i]) == key
  }

  /** `toSet()` on functions: the first function of each signature key. */
  function DedupByKey(fs: seq<Declaration>): (r: seq<Declaration>)
    requires AllFunctions(fs)
    ensures forall d :: d in r ==> d in fs
    ensures AllFunctions(r)
    ensures forall i, j :: 0 <= i < j < |r| ==> SignatureKey(r[i]) != SignatureKey(r[j])
    ensures forall i :: 0 <= i < |fs| ==> HasKey(r, SignatureKey(fs[i]))
    decreases |fs|
  {
    if |fs| == 0 then []
    else
      var n := |fs|;
      var init := fs[..n - 1];
      var r := DedupByKey(init);
      var last := fs[n - 1];
      assert forall i :: 0 <= i < n - 1 ==> fs[i] == init[i];
      if HasKey(r, SignatureKey(last)) then r
      else
        DedupByKeySnoc(r, last);
        r + [last]
  }

  /** No function before position `j` shares the key of `fs[j]`. */
  predicate FirstOfKey(fs: seq<Declaration>, j: int)
    requires AllFunctions(fs) && 0 <= j < |fs|
  {
    forall k :: 0 <= k < j ==> SignatureKey(fs[k]) != SignatureKey(fs[j])
  }

  /** One more function is kept exactly when its key is new, and it goes
      last: the insertion order of `toSet()`. */
  lemma DedupByKeyStep(fs: seq<Declaration>, x: Declaration)
    requires AllFunctions(fs) && x.body.FunctionBody?
    ensures AllFunctions(fs + [x])
    ensures DedupByKey(fs + [x]) ==
      if HasKey(DedupByKey(fs), SignatureKey(x)) then DedupByKey(fs) else DedupByKey(fs) + [x]
  {
    assert (fs + [x])[..|fs|] == fs;
  }

  /** A last function whose key the earlier ones lack is first of it. */
  lemma FirstOfKeyNew(fs: seq<Declaration>)
    requires AllFunctions(fs) && |fs| > 0
    requires AllFunctions(fs[..|fs| - 1])
    requires !HasKey(DedupByKey(fs[..|fs| - 1]), SignatureKey(fs[|fs| - 1]))
    ensures FirstOfKey(fs, |fs| - 1)
  {
    var init := fs[..|fs| - 1];
    forall k | 0 <= k < |fs| - 1
      ensures SignatureKey(fs[k]) != SignatureKey(fs[|fs| - 1])
    {
      assert fs[k] == init[k];
      assert HasKey(DedupByKey(init), SignatureKey(init[k]));
    }
  }

  /** `x` is a function of `fs` that is the first of its key there: it
      occurs no later than any function with that key. */
  predicate IsFirstOfKey(fs: seq<Declaration>, x: Declaration)
    requires AllFunctions(fs)
  {
    x in fs && forall k :: 0 <= k < |fs| && SignatureKey(fs[k]) == SignatureKey(x) ==> x in fs[..k + 1]
  }

  /** Each element of `r` is the first function of its key in `fs`. */
  predicate KeptFirsts(fs: seq<Declaration>, r: seq<Declaration>)
    requires AllFunctions(fs)
  {
    forall i :: 0 <= i < |r| ==> IsFirstOfKey(fs, r[i])
  }

  /** A position of `x` in `s`. */
  lemma PositionOf(s: seq<Declaration>, x: Declaration) returns (j: int)
    requires x in s
    ensures 0 <= j < |s| && s[j] == x
  {
    j :| 0 <= j < |s| && s[j] == x;
  }

  /** An element before position `n` is in the prefix of length `n`. */
  lemma InPrefix(s: seq<Declaration>, j: int, n: int)
    requires 0 <= j < n <= |s|
    ensures s[j] in s[..n]
  {
    assert s[..n][j] == s[j];
  }

  /** Appending a function keeps every earlier first the first. */
  lemma IsFirstOfKeyPrefix(fs: seq<Declaration>, x: Declaration)
    requires AllFunctions(fs) && |fs| > 0 && AllFunctions(fs[..|fs| - 1])
    requires IsFirstOfKey(fs[..|fs| - 1], x)
    ensures IsFirstOfKey(fs, x)
  {
    var init := fs[..|fs| - 1];
    forall k | 0 <= k < |fs| && SignatureKey(fs[k]) == SignatureKey(x)
      ensures x in fs[..k + 1]
    {
      var j: int;
      if k < |init| {
        assert init[k] == fs[k];
        j := PositionOf(init[..k + 1], x);
        assert init[..k + 1][j] == init[j];
      } else {
        j := PositionOf(init, x);
      }
      assert fs[j] == init[j];
      InPrefix(fs, j, k + 1);
    }
  }

  /** Extending `fs` keeps the earlier firsts first. */
  lemma KeptFirstsPrefix(fs: seq<Declaration>, r: seq<Declaration>)
    requires AllFunctions(fs) && |fs| > 0 && AllFunctions(fs[..|fs| - 1])
    requires KeptFirsts(fs[..|fs| - 1], r)
    ensures KeptFirsts(fs, r)
  {
    forall i | 0 <= i < |r|
      ensures IsFirstOfKey(fs, r[i])
    {
      IsFirstOfKeyPrefix(fs, r[i]);
    }
  }

  /** A new last key adds its function as a first. */
  lemma KeptFirstsNew(fs: seq<Declaration>, r: seq<Declaration>)
    requires AllFunctions(fs) && |fs| > 0 && AllFunctions(fs[..|fs| - 1])
    requires KeptFirsts(fs, r)
    requires !HasKey(DedupByKey(fs[..|fs| - 1]), SignatureKey(fs[|fs| - 1]))
    ensures KeptFirsts(fs, r + [fs[|fs| - 1]])
  {
    FirstOfKeyNew(fs);
    var x := fs[|fs| - 1];
    forall k | 0 <= k < |fs| && SignatureKey(fs[k]) == SignatureKey(x)
      ensures x in fs[..k + 1]
    {
      assert k == |fs| - 1;
      assert fs[..k + 1][k] == x;
    }
    assert IsFirstOfKey(fs, x);
    var r' := r + [x];
    forall i | 0 <= i < |r'|
      ensures IsFirstOfKey(fs, r'[i])
    {
      if i < |r| {
        assert r'[i] == r[i];
      }
    }
  }

  /** Every kept function is the first of its key. */
  lemma {:induction false} DedupByKeyFirsts(fs: seq<Declaration>)
    requires AllFunctions(fs)
    ensures KeptFirsts(fs, DedupByKey(fs))
    decreases |fs|
  {
    if |fs| > 0 {
      var init := fs[..|fs| - 1];
      var last := fs[|fs| - 1];
      assert fs == init + [last];
      DedupByKeyFirsts(init);
      DedupByKeyStep(init, last);
      KeptFirstsPrefix(fs, DedupByKey(init));
      if !HasKey(DedupByKey(init), SignatureKey(last)) {
        KeptFirstsNew(fs, DedupByKey(init));
      }
    } else {
      assert DedupByKey(fs) == [];
    }
  }

  /** Keeping the first function of each key keeps a sorted list sorted. */
  lemma {:induction false} DedupByKeySorted(fs: seq<Declaration>)
    requires AllFunctions(fs) && SortedByName(fs)
    ensures SortedByName(DedupByKey(fs))
    decreases |fs|
  {
    if |fs| > 0 {
      var n := |fs|;
      var init := fs[..n - 1];
      var last := fs[n - 1];
      assert fs == init + [last];
      DedupByKeySorted(init);
      DedupByKeyStep(init, last);
      var r := DedupByKey(init);
      if !HasKey(r, SignatureKey(last)) {
        var r' := r + [last];
        forall i, j | 0 <= i < j < |r'|
          ensures NameLe(r'[i], r'[j])
        {
          if j == |r| {
            assert r'[i] == r[i] && r[i] in init;
            var k :| 0 <= k < |init| && init[k] == r[i];
            assert fs[k] == r[i];
          } else {
            assert r'[i] == r[i] && r'[j] == r[j];
          }
        }
      }
    }
  }

  /** A function with a new key is appended. */
  lemma DedupByKeySnoc(r: seq<Declaration>, last: Declaration)
    requires AllFunctions(r) && last.body.FunctionBody?
    requires forall i, j :: 0 <= i < j < |r| ==> SignatureKey(r[i]) != SignatureKey(r[j])
    requires !HasKey(r, SignatureKey(last))
    ensures AllFunctions(r + [last])
    ensures forall i, j :: 0 <= i < j < |r + [last]| ==> SignatureKey((r + [last])[i]) != SignatureKey((r + [last])[j])
    ensures forall k :: HasKey(r, k) ==> HasKey(r + [last], k)
    ensures HasKey(r + [last], SignatureKey(last))
  {
    var r' := r + [last];
    assert forall i :: 0 <= i < |r| ==> r'[i] == r[i];
    assert r'[|r|] == last;
  }

  /** `staticDeclarations`: the static constants, then the static functions
      with one per signature key. */
  function StaticDeclarations(items: seq<Declaration>): (r: seq<Declaration>)
    ensures forall d :: d in r ==> d in items && (IsStaticConst(d) || IsStaticFunction(d))
    ensures forall d :: d in items && IsStaticConst(d) ==> d in r
    ensures forall d :: d in items && IsStaticFunction(d) ==> exists e :: e in r && IsStaticFunction(e) && SignatureKey(e) == SignatureKey(d)
    ensures ConstsFirst(r, IsStaticConst, IsStaticFunction)
    ensures FirstsKept(Filter(Functions(items), IsStaticFunction), r, IsStaticFunction)
  {
    var consts := Filter(Consts(items), IsStaticConst);
    var functions := Filter(Functions(items), IsStaticFunction);
    ConstsMembers(items);
    FunctionsMembers(items);
    OrderedParts(items, IsStaticConst, IsStaticFunction);
    FirstsKeptParts(consts, functions, IsStaticConst, IsStaticFunction);
    consts + DedupByKey(functions)
  }

  /** Every function of `r` is the first function of its signature key in
      the qualifying, name-sorted functions `fs`. */
  predicate FirstsKept(fs: seq<Declaration>, r: seq<Declaration>, isFunction: Declaration -> bool)
  {
    AllFunctions(fs) && forall i :: 0 <= i < |r| && isFunction(r[i]) ==> IsFirstOfKey(fs, r[i])
  }

  /** Putting constants in front of the de-duplicated functions keeps every
      survivor the first of its key. */
  lemma FirstsKeptParts(consts: seq<Declaration>, fs: seq<Declaration>,
                        isConst: Declaration -> bool, isFunction: Declaration -> bool)
    requires AllFunctions(fs)
    requires forall i :: 0 <= i < |consts| ==> isConst(consts[i])
    requires forall d :: isConst(d) ==> !isFunction(d)
    ensures FirstsKept(fs, consts + DedupByKey(fs), isFunction)
  {
    DedupByKeyFirsts(fs);
    var r := consts + DedupByKey(fs);
    forall i | 0 <= i < |r| && isFunction(r[i])
      ensures IsFirstOfKey(fs, r[i])
    {
      if i < |consts| {
        assert false;
      } else {
        assert r[i] == DedupByKey(fs)[i - |consts|];
      }
    }
  }

  /** `content()`: the member constants, then the member functions with one
      per signature key. */
  function MemberDeclarations(items: seq<Declaration>): (r: seq<Declaration>)
    ensures forall d :: d in r ==> d in items && (IsMemberConst(d) || IsMemberFunction(d))
    ensures forall d :: d in items && IsMemberConst(d) ==> d in r
    ensures forall d :: d in items && IsMemberFunction(d) ==> exists e :: e in r && IsMemberFunction(e) && SignatureKey(e) == SignatureKey(d)
    ensures ConstsFirst(r, IsMemberConst, IsMemberFunction)
    ensures FirstsKept(Filter(Functions(items), IsMemberFunction), r, IsMemberFunction)
  {
    var consts := Filter(Consts(items), IsMemberConst);
    var functions := Filter(Functions(items), IsMemberFunction);
    ConstsMembers(items);
    FunctionsMembers(items);
    OrderedParts(items, IsMemberConst, IsMemberFunction);
    FirstsKeptParts(consts, functions, IsMemberConst, IsMemberFunction);
    consts + DedupByKey(functions)
  }

  /** The constants come first, then the functions, each part sorted by name. */
  predicate ConstsFirst(r: seq<Declaration>, isConst: Declaration -> bool, isFunction: Declaration -> bool)
  {
    exists k :: 0 <= k <= |r| &&
      (forall i :: 0 <= i < k ==> isConst(r[i])) && (forall i :: k <= i < |r| ==> isFunction(r[i])) &&
      SortedByName(r[..k]) && SortedByName(r[k..])
  }

  lemma OrderedParts(items: seq<Declaration>, isConst: Declaration -> bool, isFunction: Declaration -> bool)
    requires forall d :: isFunction(d) ==> d.body.FunctionBody?
    ensures AllFunctions(Filter(Functions(items), isFunction))
    ensures ConstsFirst(Filter(Consts(items), isConst) + DedupByKey(Filter(Functions(items), isFunction)), isConst, isFunction)
  {
    var consts := Filter(Consts(items), isConst);
    var functions := Filter(Functions(items), isFunction);
    FilterSorted(Consts(items), isConst);
    FilterSorted(Functions(items), isFunction);
    DedupByKeySorted(functions);
    var kept := DedupByKey(functions);
    assert forall i :: 0 <= i < |kept| ==> isFunction(kept[i]) by {
      assert forall i :: 0 <= i < |kept| ==> kept[i] in kept;
    }
    PartsFirst(consts, kept, isConst, isFunction);
  }

  lemma PartsFirst(consts: seq<Declaration>, kept: seq<Declaration>,
                   isConst: Declaration -> bool, isFunction: Declaration -> bool)
    requires forall i :: 0 <= i < |consts| ==> isConst(consts[i])
    requires forall i :: 0 <= i < |kept| ==> isFunction(kept[i])
    requires SortedByName(consts) && SortedByName(kept)
    ensures ConstsFirst(consts + kept, isConst, isFunction)
  {
    var r := consts + kept;
    var k := |consts|;
    assert r[..k] == consts && r[k..] == kept;
    assert forall i :: k <= i < |r| ==> r[i] == kept[i - k];
  }

  lemma ConstsMembers(items: seq<Declaration>)
    ensures forall d :: d in Consts(items) <==> d in items && IsConst(d)
  {
    assert forall d :: d in Consts(items) <==> d in multiset(Consts(items));
  }

  lemma FunctionsMembers(items: seq<Declaration>)
    ensures forall d :: d in Functions(items) <==> d in items && d.IsPlainFunction()
  {
    assert forall d :: d in Functions(items) <==> d in multiset(Functions(items));
  }

  /** A sub-list kept by a filter stays sorted. */
  lemma {:induction false} FilterSorted(ds: seq<Declaration>, p: Declaration -> bool)
    requires SortedByName(ds)
    ensures SortedByName(Filter(ds, p))
    decreases |ds|
  {
    if |ds| > 0 {
      FilterSorted(ds[1..], p);
      var rest := Filter(ds[1..], p);
      if p(ds[0]) {
        var r := [ds[0]] + rest;
        forall i, j | 0 <= i < j < |r|
          ensures NameLe(r[i], r[j])
        {
          if i == 0 {
            assert r[j] in ds[1..] by { assert r[j] == rest[j - 1]; }
            var k :| 0 <= k < |ds[1..]| && ds[1..][k] == r[j];
            assert r[j] == ds[k + 1];
          } else {
            assert r[i] == rest[i - 1] && r[j] == rest[j - 1];
          }
        }
      }
    }
  }

  /** The static and member constants split the constants between them,
      each part in name order. */
  lemma ConstPartition(items: seq<Declaration>)
    ensures multiset(Filter(Consts(items), IsStaticConst)) + multiset(Filter(Consts(items), IsMemberConst)) == multiset(Filter(items, IsConst))
    ensures SortedByName(Filter(Consts(items), IsStaticConst)) && SortedByName(Filter(Consts(items), IsMemberConst))
  {
    var cs := Consts(items);
    assert forall d :: d in cs ==> IsConst(d) by {
      forall d | d in cs ensures IsConst(d) {
        assert d in multiset(cs);
        assert d in Filter(items, IsConst);
      }
    }
    FilterPartitionWithin(cs, IsStaticConst, IsMemberConst, IsConst);
    FilterSorted(cs, IsStaticConst);
    FilterSorted(cs, IsMemberConst);
  }

  /** The static and member functions split the functions between them,
      each part in name order. */
  lemma FunctionPartition(items: seq<Declaration>)
    ensures multiset(Filter(Functions(items), IsStaticFunction)) + multiset(Filter(Functions(items), IsMemberFunction)) ==
            multiset(Filter(items, (d: Declaration) => d.IsPlainFunction()))
    ensures SortedByName(Filter(Functions(items), IsStaticFunction)) && SortedByName(Filter(Functions(items), IsMemberFunction))
  {
    var fs := Functions(items);
    var plain := (d: Declaration) => d.IsPlainFunction();
    assert forall d :: d in fs ==> plain(d) by {
      forall d | d in fs ensures plain(d) {
        assert d in multiset(fs);
        assert d in Filter(items, plain);
      }
    }
    FilterPartitionWithin(fs, IsStaticFunction, IsMemberFunction, plain);
    FilterSorted(fs, IsStaticFunction);
    FilterSorted(fs, IsMemberFunction);
  }

  /** Two conditions that split a kind split every list of that kind. */
  lemma {:induction false} FilterPartitionWithin(ds: seq<Declaration>, p: Declaration -> bool, q: Declaration -> bool,
                                                 kind: Declaration -> bool)
    requires forall d :: d in ds ==> kind(d)
    requires forall d :: kind(d) ==> (p(d) <==> !q(d))
    ensures multiset(Filter(ds, p)) + multiset(Filter(ds, q)) == multiset(ds)
    decreases |ds|
  {
    if |ds| > 0 {
      FilterPartitionWithin(ds[1..], p, q, kind);
      assert ds == [ds[0]] + ds[1..];
      assert ds[0] in ds;
    }
  }
}
