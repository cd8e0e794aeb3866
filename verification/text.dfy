/** The Kotlin/JVM string primitives the generator is built from: `indexOf`,
    `lastIndexOf`, `startsWith`, `endsWith`, `contains`, `split`,
    `joinToString`, `replace` and `trim`, on `seq<char>`. */
module Text {

  /** `t` occurs in `s` starting at position `k`. */
  predicate OccursAt(s: string, t: string, k: int)
  {
    0 <= k && k + |t| <= |s| && s[k..k + |t|] == t
  }

  predicate StartsWith(s: string, prefix: string)
  {
    |prefix| <= |s| && s[..|prefix|] == prefix
  }

  predicate EndsWith(s: string, suffix: string)
  {
    |suffix| <= |s| && s[|s| - |suffix|..] == suffix
  }

  /** JVM `s.indexOf(t, from)`: the first occurrence of `t` at or after `from`,
      or -1 (an empty `t` past the end is found at `|s|`). */
  function IndexOfFrom(s: string, t: string, from: nat): (r: int)
    ensures r == -1 || OccursAt(s, t, r)
    ensures r == -1 ==> forall k :: from <= k ==> !OccursAt(s, t, k)
    ensures r != -1 && (from <= |s| || |t| > 0) ==> from <= r
    ensures forall k :: from <= k < r ==> !OccursAt(s, t, k)
    decreases |s| + 1 - from
  {
    if from + |t| > |s| then
      (if |t| == 0 then |s| else -1)
    else if s[from..from + |t|] == t then
      from
    else
      IndexOfFrom(s, t, from + 1)
  }

  function IndexOf(s: string, t: string): (r: int)
  {
    IndexOfFrom(s, t, 0)
  }

  /** The last occurrence of `t` starting at or before `k`, or -1. */
  function LastIndexOfUpTo(s: string, t: string, k: int): (r: int)
    ensures r == -1 || (OccursAt(s, t, r) && r <= k)
    ensures forall j :: r < j <= k ==> !OccursAt(s, t, j)
    decreases k + 1
  {
    if k < 0 then -1
    else if OccursAt(s, t, k) then k
    else LastIndexOfUpTo(s, t, k - 1)
  }

  /** JVM `s.lastIndexOf(t)`. */
  function LastIndexOf(s: string, t: string): (r: int)
    ensures r == -1 || OccursAt(s, t, r)
    ensures r == -1 ==> forall j :: !OccursAt(s, t, j)
    ensures forall j :: r < j ==> !OccursAt(s, t, j)
  {
    LastIndexOfUpTo(s, t, |s| - |t|)
  }

  predicate Contains(s: string, t: string)
  {
    IndexOf(s, t) != -1
  }

  lemma ContainsIff(s: string, t: string)
    ensures Contains(s, t) <==> exists k :: OccursAt(s, t, k)
  {
    if !Contains(s, t) {
      assert forall k :: 0 <= k ==> !OccursAt(s, t, k);
    }
  }

  lemma OccursInPrefix(s: string, t: string, k: int, n: nat)
    requires n <= |s|
    requires OccursAt(s[..n], t, k)
    ensures OccursAt(s, t, k)
  {
    assert s[..n][k..k + |t|] == s[k..k + |t|];
  }

  lemma OccursInSuffix(s: string, t: string, k: int, n: nat)
    requires n <= |s|
    requires OccursAt(s[n..], t, k)
    ensures OccursAt(s, t, n + k)
  {
    assert s[n..][k..k + |t|] == s[n + k..n + k + |t|];
  }

  /** Nothing before the first occurrence contains it. */
  lemma PrefixBefore(s: string, t: string, i: int)
    requires i == IndexOf(s, t) && i != -1 && |t| > 0
    ensures !Contains(s[..i], t)
  {
    if Contains(s[..i], t) {
      ContainsIff(s[..i], t);
      var k :| OccursAt(s[..i], t, k);
      assert k < i;
      assert s[..i][k..k + |t|] == s[k..k + |t|];
      assert OccursAt(s, t, k);
      ContainsIff(s, t);
    }
  }

  /** Kotlin `s.split(d)` for a non-empty delimiter: cut at every occurrence,
      left to right, keeping empty pieces (trailing ones included). Joining
      the pieces back with `d` gives `s` again. */
  function Split(s: string, d: string): (r: seq<string>)
    requires |d| > 0
    ensures |r| >= 1
    ensures Join(r, d) == s
    decreases |s|
  {
    var i := IndexOf(s, d);
    if i == -1 then
      [s]
    else
      assert s == s[..i] + d + s[i + |d|..] by {
        assert s[i..i + |d|] == d;
        assert s == s[..i] + s[i..i + |d|] + s[i + |d|..];
      }
      [s[..i]] + Split(s[i + |d|..], d)
  }

  /** Kotlin `joinToString(d)`. */
  function Join(ps: seq<string>, d: string): (r: string)
    decreases |ps|
  {
    if |ps| == 0 then ""
    else if |ps| == 1 then ps[0]
    else ps[0] + d + Join(ps[1..], d)
  }

  lemma SplitFirstPiece(s: string, d: string)
    requires |d| > 0
    ensures IndexOf(s, d) == -1 ==> Split(s, d) == [s]
    ensures IndexOf(s, d) != -1 ==> Split(s, d)[0] == s[..IndexOf(s, d)]
  {
  }

  /** No piece of a split contains the delimiter, and no piece is longer than
      the input; there is more than one piece exactly when `s` contains `d`. */
  lemma {:induction false} SplitPieces(s: string, d: string)
    requires |d| > 0
    ensures forall p :: p in Split(s, d) ==> !Contains(p, d) && |p| <= |s|
    ensures |Split(s, d)| == 1 <==> !Contains(s, d)
    decreases |s|
  {
    var i := IndexOf(s, d);
    if i != -1 {
      var head := s[..i];
      assert !Contains(head, d) by {
        if Contains(head, d) {
          ContainsIff(head, d);
          var k :| OccursAt(head, d, k);
          OccursInPrefix(s, d, k, i);
        }
      }
      SplitPieces(s[i + |d|..], d);
      assert Split(s, d) == [head] + Split(s[i + |d|..], d);
    }
  }

  /** With a one-character delimiter, splitting `a + d + rest` cuts off `a`
      first whenever `a` does not contain `d`. */
  lemma {:induction false} SplitCons(a: string, d: string, rest: string)
    requires |d| == 1
    requires !Contains(a, d)
    ensures Split(a + d + rest, d) == [a] + Split(rest, d)
  {
    var s := a + d + rest;
    assert OccursAt(s, d, |a|) by { assert s[|a|..|a| + |d|] == d; }
    var i := IndexOf(s, d);
    assert i != -1 && i <= |a|;
    if i < |a| {
      assert a[i..i + |d|] == s[i..i + |d|];
      assert OccursAt(a, d, i);
      ContainsIff(a, d);
      assert false;
    }
    assert s[..i] == a;
    assert s[i + |d|..] == rest;
  }

  lemma SplitHead(a: string, d: string, rest: string)
    requires |d| == 1
    requires !Contains(a, d)
    ensures Split(a + d + rest, d)[0] == a
  {
    SplitCons(a, d, rest);
  }

  /** Splitting is the inverse of joining pieces that do not hold the
      (one-character) delimiter. */
  lemma {:induction false} SplitJoin(ps: seq<string>, d: string)
    requires |d| == 1 && |ps| >= 1
    requires forall i :: 0 <= i < |ps| ==> !Contains(ps[i], d)
    ensures Split(Join(ps, d), d) == ps
    decreases |ps|
  {
    if |ps| == 1 {
      SplitFirstPiece(ps[0], d);
    } else {
      SplitCons(ps[0], d, Join(ps[1..], d));
      SplitJoin(ps[1..], d);
    }
  }

  /** A text free of the first character of `t` has no occurrence of `t`
      starting inside it. */
  lemma NoLeadNoOccurrence(a: string, t: string, b: string)
    requires |t| > 0 && NoChar(a, t[0])
    ensures forall k :: 0 <= k < |a| ==> !OccursAt(a + b, t, k)
  {
    forall k | 0 <= k < |a|
      ensures !OccursAt(a + b, t, k)
    {
      assert (a + b)[k] == a[k] != t[0];
      assert k + |t| <= |a + b| ==> (a + b)[k..k + |t|][0] == (a + b)[k];
    }
  }

  /** When `a` lacks the first character of `t`, the first `t` in
      `a + t + b` is the one right after `a`. */
  lemma FirstAfterLead(a: string, t: string, b: string)
    requires |t| > 0 && NoChar(a, t[0])
    ensures IndexOf(a + t + b, t) == |a|
  {
    var s := a + t + b;
    assert s == a + (t + b);
    assert OccursAt(s, t, |a|) by { assert s[|a|..|a| + |t|] == t; }
    NoLeadNoOccurrence(a, t, t + b);
  }

  /** Splitting is the inverse of joining pieces that lack the first
      character of the delimiter, whatever the delimiter's length. */
  lemma {:induction false} SplitJoinLead(ps: seq<string>, d: string)
    requires |d| > 0 && |ps| >= 1
    requires forall i :: 0 <= i < |ps| ==> NoChar(ps[i], d[0])
    ensures Split(Join(ps, d), d) == ps
    decreases |ps|
  {
    if |ps| == 1 {
      NoLeadNoOccurrence(ps[0], d, "");
      assert ps[0] + "" == ps[0];
      assert IndexOf(ps[0], d) == -1;
    } else {
      var rest := Join(ps[1..], d);
      var s := ps[0] + d + rest;
      FirstAfterLead(ps[0], d, rest);
      assert s[..|ps[0]|] == ps[0];
      assert s[|ps[0]| + |d|..] == rest;
      SplitJoinLead(ps[1..], d);
    }
  }

  /** With a one-character delimiter, a last piece without the delimiter
      becomes the last piece of the split. */
  lemma {:induction false} SplitSnoc(a: string, d: string, m: string)
    requires |d| == 1
    requires !Contains(m, d)
    ensures Split(a + d + m, d) == Split(a, d) + [m]
    decreases |a|
  {
    var i := IndexOf(a, d);
    if i == -1 {
      SplitCons(a, d, m);
      SplitFirstPiece(m, d);
      SplitFirstPiece(a, d);
    } else {
      SplitAt(a, d, i);
      SplitSnoc(a[i + 1..], d, m);
      SplitSnocStep(a, d, m, a[..i], a[i + 1..]);
    }
  }

  /** The step of `SplitSnoc`: a first piece `a0` in front of a rest for
      which the property holds. */
  lemma SplitSnocStep(a: string, d: string, m: string, a0: string, a1: string)
    requires |d| == 1 && a == a0 + d + a1 && !Contains(a0, d)
    requires Split(a1 + d + m, d) == Split(a1, d) + [m]
    ensures Split(a + d + m, d) == Split(a, d) + [m]
  {
    var tail := a1 + d + m;
    var whole := a + d + m;
    Regroup(a0, d, a1, m);
    SplitCons(a0, d, tail);
    SplitCons(a0, d, a1);
    RegroupPieces(a0, Split(a1, d), m);
  }

  lemma Regroup(a0: string, d: string, a1: string, m: string)
    ensures a0 + d + a1 + d + m == a0 + d + (a1 + d + m)
  {
  }

  lemma RegroupPieces(a0: string, ps: seq<string>, m: string)
    ensures [a0] + (ps + [m]) == [a0] + ps + [m]
  {
  }

  /** Cutting at the first delimiter. */
  lemma SplitAt(a: string, d: string, i: int)
    requires |d| == 1 && i == IndexOf(a, d) && i != -1
    ensures a == a[..i] + d + a[i + 1..]
    ensures !Contains(a[..i], d)
  {
    assert a[i..i + 1] == d;
    PrefixBefore(a, d, i);
  }

  /** The number of positions holding `c`. */
  function Count(s: string, c: char): nat
    decreases |s|
  {
    if |s| == 0 then 0 else (if s[0] == c then 1 else 0) + Count(s[1..], c)
  }

  lemma {:induction false} CountConcat(a: string, b: string, c: char)
    ensures Count(a + b, c) == Count(a, c) + Count(b, c)
    decreases |a|
  {
    if |a| > 0 {
      assert (a + b)[1..] == a[1..] + b;
      CountConcat(a[1..], b, c);
    } else {
      assert a + b == b;
    }
  }

  lemma {:induction false} CountAbsent(s: string, c: char)
    requires !Contains(s, [c])
    ensures Count(s, c) == 0
    decreases |s|
  {
    if |s| > 0 {
      assert s[0..1] == [s[0]];
      assert !OccursAt(s, [c], 0);
      assert !Contains(s[1..], [c]) by {
        if Contains(s[1..], [c]) {
          ContainsIff(s[1..], [c]);
          var k :| OccursAt(s[1..], [c], k);
          OccursInSuffix(s, [c], k, 1);
          ContainsIff(s, [c]);
        }
      }
      CountAbsent(s[1..], c);
    }
  }

  /** Splitting at a character gives one piece more than it has occurrences. */
  lemma {:induction false} SplitCount(s: string, c: char)
    ensures |Split(s, [c])| == Count(s, c) + 1
    decreases |s|
  {
    var d := [c];
    var i := IndexOf(s, d);
    if i == -1 {
      CountAbsent(s, c);
    } else {
      var s0 := s[..i];
      var s1 := s[i + 1..];
      assert s == s0 + d + s1 by { assert s[i..i + 1] == d; }
      assert !Contains(s0, d) by {
        if Contains(s0, d) {
          ContainsIff(s0, d);
          var k :| OccursAt(s0, d, k);
          OccursInPrefix(s, d, k, i);
        }
      }
      SplitCons(s0, d, s1);
      SplitCount(s1, c);
      CountAbsent(s0, c);
      CountConcat(s0 + d, s1, c);
      CountConcat(s0, d, c);
    }
  }

  /** Joining one more piece appends the delimiter and that piece. */
  lemma {:induction false} JoinSnoc(ps: seq<string>, x: string, d: string)
    requires |ps| >= 1
    ensures Join(ps + [x], d) == Join(ps, d) + d + x
    decreases |ps|
  {
    if |ps| > 1 {
      assert (ps + [x])[1..] == ps[1..] + [x];
      JoinSnoc(ps[1..], x, d);
    }
  }

  /** The joined text ends with the last piece, preceded by the delimiter
      when there is more than one piece. */
  lemma JoinLast(ps: seq<string>, d: string)
    requires |ps| >= 1
    ensures |ps| == 1 ==> Join(ps, d) == ps[0]
    ensures |ps| >= 2 ==> Join(ps, d) == Join(ps[..|ps| - 1], d) + d + ps[|ps| - 1]
    ensures EndsWith(Join(ps, d), ps[|ps| - 1])
  {
    if |ps| >= 2 {
      assert ps == ps[..|ps| - 1] + [ps[|ps| - 1]];
      JoinSnoc(ps[..|ps| - 1], ps[|ps| - 1], d);
    }
  }

  /** Kotlin `s.replace(a, b)` for non-empty `a`: every occurrence, left to
      right, without overlaps. */
  function Replace(s: string, a: string, b: string): (r: string)
    requires |a| > 0
  {
    Join(Split(s, a), b)
  }

  lemma ReplaceAbsent(s: string, a: string, b: string)
    requires |a| > 0
    requires !Contains(s, a)
    ensures Replace(s, a, b) == s
  {
  }

  lemma ReplaceSelf(s: string, a: string)
    requires |a| > 0
    ensures Replace(s, a, a) == s
  {
  }

  /** `c` does not occur anywhere in `s`. */
  predicate NoChar(s: string, c: char)
  {
    forall i :: 0 <= i < |s| ==> s[i] != c
  }

  lemma NoCharLacks(s: string, c: char)
    requires NoChar(s, c)
    ensures !Contains(s, [c])
  {
    assert forall k :: OccursAt(s, [c], k) ==> s[k..k + 1][0] == s[k];
    ContainsIff(s, [c]);
  }

  /** Joining pieces free of `c` with a separator free of `c` gives text free of `c`. */
  lemma {:induction false} JoinNoChar(ps: seq<string>, d: string, c: char)
    requires NoChar(d, c) && forall i :: 0 <= i < |ps| ==> NoChar(ps[i], c)
    ensures NoChar(Join(ps, d), c)
    decreases |ps|
  {
    if |ps| > 1 {
      JoinNoChar(ps[1..], d, c);
      var rest := Join(ps[1..], d);
      assert Join(ps, d) == ps[0] + d + rest;
      forall k | 0 <= k < |ps[0] + d + rest|
        ensures (ps[0] + d + rest)[k] != c
      {
        if k < |ps[0]| { assert (ps[0] + d + rest)[k] == ps[0][k]; }
        else if k < |ps[0]| + |d| { assert (ps[0] + d + rest)[k] == d[k - |ps[0]|]; }
        else { assert (ps[0] + d + rest)[k] == rest[k - |ps[0]| - |d|]; }
      }
    }
  }

  /** Kotlin `Char.isWhitespace` on the JVM: the control characters
      U+0009..U+000D and U+001C..U+001F, and every space, line or paragraph
      separator of Unicode (including the non-breaking spaces). */
  predicate IsWhitespace(c: char)
  {
    ('\U{9}' <= c <= '\U{D}') || ('\U{1C}' <= c <= '\U{20}')
    || c == '\U{A0}' || c == '\U{1680}' || ('\U{2000}' <= c <= '\U{200A}')
    || c == '\U{2028}' || c == '\U{2029}' || c == '\U{202F}' || c == '\U{205F}' || c == '\U{3000}'
  }

  function TrimStart(s: string): (r: string)
    ensures |r| <= |s| && r == s[|s| - |r|..]
    ensures |r| > 0 ==> !IsWhitespace(r[0])
    ensures forall i :: 0 <= i < |s| - |r| ==> IsWhitespace(s[i])
    decreases |s|
  {
    if |s| > 0 && IsWhitespace(s[0]) then TrimStart(s[1..]) else s
  }

  function TrimEnd(s: string): (r: string)
    ensures |r| <= |s| && r == s[..|r|]
    ensures |r| > 0 ==> !IsWhitespace(r[|r| - 1])
    ensures forall i :: |r| <= i < |s| ==> IsWhitespace(s[i])
    decreases |s|
  {
    if |s| > 0 && IsWhitespace(s[|s| - 1]) then TrimEnd(s[..|s| - 1]) else s
  }

  /** Kotlin `String.trim()`. */
  function Trim(s: string): (r: string)
  {
    TrimEnd(TrimStart(s))
  }

  function Last<T>(xs: seq<T>): T
    requires |xs| > 0
  {
    xs[|xs| - 1]
  }
}
