/** `sortedBy { it.name }`: Kotlin's string order (character by character,
    a proper prefix first) and the stable sort by declaration name. */
module Order {
  import opened Ir

  /** `a < b` in `String.compareTo`. */
  predicate Less(a: string, b: string)
    decreases |a|
  {
    if |a| == 0 then |b| > 0
    else |b| > 0 && (a[0] < b[0] || (a[0] == b[0] && Less(a[1..], b[1..])))
  }

  lemma {:induction false} LessIrreflexive(a: string)
    ensures !Less(a, a)
    decreases |a|
  {
    if |a| > 0 {
      LessIrreflexive(a[1..]);
    }
  }

  lemma {:induction false} LessTotal(a: string, b: string)
    ensures Less(a, b) || a == b || Less(b, a)
    decreases |a|
  {
    if |a| > 0 && |b| > 0 && a[0] == b[0] {
      LessTotal(a[1..], b[1..]);
      if a[1..] == b[1..] {
        assert a == [a[0]] + a[1..] && b == [b[0]] + b[1..];
      }
    }
  }

  lemma {:induction false} LessTransitive(a: string, b: string, c: string)
    requires Less(a, b) && Less(b, c)
    ensures Less(a, c)
    decreases |a|
  {
    if |a| > 0 && a[0] == b[0] && b[0] == c[0] {
      LessTransitive(a[1..], b[1..], c[1..]);
    }
  }

  /** Not after, in the order of names. */
  predicate NameLe(d: Declaration, e: Declaration)
  {
    !Less(e.name, d.name)
  }

  predicate SortedByName(ds: seq<Declaration>)
  {
    forall i, j :: 0 <= i < j < |ds| ==> NameLe(ds[i], ds[j])
  }

  /** The declarations named `n`, in order. */
  function Named(ds: seq<Declaration>, n: string): (r: seq<Declaration>)
    ensures |r| <= |ds|
  {
    if |ds| == 0 then []
    else (if ds[0].name == n then [ds[0]] else []) + Named(ds[1..], n)
  }

  /** `d` goes before the first declaration whose name is not smaller. */
  function Insert(d: Declaration, ds: seq<Declaration>): (r: seq<Declaration>)
    ensures |r| == |ds| + 1
  {
    if |ds| == 0 then [d]
    else if !Less(ds[0].name, d.name) then [d] + ds
    else [ds[0]] + Insert(d, ds[1..])
  }

  /** Inserting adds `d` and keeps everything else. */
  lemma {:induction false} InsertPermutes(d: Declaration, ds: seq<Declaration>)
    ensures multiset(Insert(d, ds)) == multiset(ds) + multiset{d}
    decreases |ds|
  {
    if |ds| > 0 && Less(ds[0].name, d.name) {
      InsertPermutes(d, ds[1..]);
      assert ds == [ds[0]] + ds[1..];
    }
  }

  /** Insertion sort, stable: equal names keep their order. */
  function SortByName(ds: seq<Declaration>): (r: seq<Declaration>)
    ensures multiset(r) == multiset(ds)
    ensures |r| == |ds|
  {
    if |ds| == 0 then []
    else
      var rest := SortByName(ds[1..]);
      InsertPermutes(ds[0], rest);
      assert ds == [ds[0]] + ds[1..];
      Insert(ds[0], rest)
  }

  /** Every member of an insertion is `d` or came from `ds`. */
  lemma {:induction false} InsertMembers(d: Declaration, ds: seq<Declaration>, x: Declaration)
    requires x in Insert(d, ds)
    ensures x == d || x in ds
    decreases |ds|
  {
    if |ds| > 0 && Less(ds[0].name, d.name) && x != ds[0] {
      InsertMembers(d, ds[1..], x);
    }
  }

  /** `d` goes first when no name in `ds` is smaller than its own. */
  lemma InsertFront(d: Declaration, ds: seq<Declaration>)
    requires SortedByName(ds) && |ds| > 0 && !Less(ds[0].name, d.name)
    ensures SortedByName([d] + ds)
  {
    forall k | 0 <= k < |ds|
      ensures NameLe(d, ds[k])
    {
      if k > 0 && Less(ds[k].name, d.name) {
        LessTotal(ds[k].name, ds[0].name);
        if Less(ds[0].name, ds[k].name) {
          LessTransitive(ds[0].name, ds[k].name, d.name);
        }
      }
    }
    var r := [d] + ds;
    assert forall i, j :: 0 < i < j < |r| ==> r[i] == ds[i - 1] && r[j] == ds[j - 1];
  }

  /** A head that is not after anything of a sorted tail keeps it sorted. */
  lemma SortedCons(x: Declaration, rest: seq<Declaration>)
    requires SortedByName(rest)
    requires forall y :: y in rest ==> NameLe(x, y)
    ensures SortedByName([x] + rest)
  {
    var r := [x] + rest;
    forall i, j | 0 <= i < j < |r|
      ensures NameLe(r[i], r[j])
    {
      assert r[j] == rest[j - 1];
      if i > 0 {
        assert r[i] == rest[i - 1];
      }
    }
  }

  lemma {:induction false} InsertSorted(d: Declaration, ds: seq<Declaration>)
    requires SortedByName(ds)
    ensures SortedByName(Insert(d, ds))
    decreases |ds|
  {
    if |ds| > 0 {
      if !Less(ds[0].name, d.name) {
        InsertFront(d, ds);
      } else {
        var rest := Insert(d, ds[1..]);
        assert SortedByName(ds[1..]) by {
          assert forall i :: 0 <= i < |ds| - 1 ==> ds[1..][i] == ds[i + 1];
        }
        InsertSorted(d, ds[1..]);
        forall x | x in rest
          ensures NameLe(ds[0], x)
        {
          InsertMembers(d, ds[1..], x);
          if x == d {
            if Less(d.name, ds[0].name) {
              LessTransitive(d.name, ds[0].name, d.name);
              LessIrreflexive(d.name);
            }
          } else {
            var k :| 0 <= k < |ds[1..]| && ds[1..][k] == x;
            assert x == ds[k + 1];
          }
        }
        SortedCons(ds[0], rest);
      }
    }
  }

  /** The result of sorting is ordered by name. */
  lemma {:induction false} SortSorted(ds: seq<Declaration>)
    ensures SortedByName(SortByName(ds))
    decreases |ds|
  {
    if |ds| > 0 {
      SortSorted(ds[1..]);
      InsertSorted(ds[0], SortByName(ds[1..]));
    }
  }

  function NamedOne(d: Declaration, n: string): (r: seq<Declaration>)
  {
    if d.name == n then [d] else []
  }

  lemma NamedCons(d: Declaration, ds: seq<Declaration>, n: string)
    ensures Named([d] + ds, n) == NamedOne(d, n) + Named(ds, n)
  {
    assert ([d] + ds)[1..] == ds;
  }

  lemma {:induction false} InsertNamed(d: Declaration, ds: seq<Declaration>, n: string)
    ensures Named(Insert(d, ds), n) == NamedOne(d, n) + Named(ds, n)
    decreases |ds|
  {
    if |ds| > 0 && Less(ds[0].name, d.name) {
      var rest := Insert(d, ds[1..]);
      InsertNamed(d, ds[1..], n);
      NamedCons(ds[0], rest, n);
      NamedCons(ds[0], ds[1..], n);
      assert ds == [ds[0]] + ds[1..];
      if d.name == n {
        LessIrreflexive(n);
        assert NamedOne(ds[0], n) == [];
      } else {
        assert NamedOne(d, n) == [];
      }
    } else if |ds| > 0 {
      NamedCons(d, ds, n);
    } else {
      NamedCons(d, [], n);
    }
  }

  /** Sorting is stable: the declarations of any one name keep their
      relative order. */
  lemma {:induction false} SortStable(ds: seq<Declaration>, n: string)
    ensures Named(SortByName(ds), n) == Named(ds, n)
    decreases |ds|
  {
    if |ds| > 0 {
      SortStable(ds[1..], n);
      InsertNamed(ds[0], SortByName(ds[1..]), n);
    }
  }
}
