/** The `StringUtil` object: substring extraction between markers, each
    failing when a marker is missing (or when the markers are out of order,
    where the JVM `substring` call would throw). */
module StringUtil {
  import opened Wrappers
  import opened Text

  /** `between(str, start, end, firstEnd)`: the text after the first `start`
      and before the first (`firstEnd`) or last `end`. */
  function Between(str: string, start: string, end: string, firstEnd: bool): (r: Result<string>)
    ensures r.Ok? <==>
      var i := IndexOf(str, start);
      var j := if firstEnd then IndexOf(str, end) else LastIndexOf(str, end);
      i != -1 && j != -1 && i + |start| <= j
    ensures r.Ok? ==>
      var i := IndexOf(str, start);
      OccursAt(str, start, i) &&
      (forall k :: 0 <= k < i ==> !OccursAt(str, start, k)) &&
      OccursAt(str, end, i + |start| + |r.value|) &&
      r.value == str[i + |start|..i + |start| + |r.value|]
    ensures r.Ok? ==>
      var j := if firstEnd then IndexOf(str, end) else LastIndexOf(str, end);
      IndexOf(str, start) + |start| + |r.value| == j
  {
    var startIndex := IndexOf(str, start);
    if startIndex == -1 then Err("String '" + str + "' doesn't contains '" + start + "'")
    else
      var endIndex := if firstEnd then IndexOf(str, end) else LastIndexOf(str, end);
      if endIndex == -1 then Err("String '" + str + "' doesn't contains '" + end + "'")
      else if endIndex < startIndex + |start| then Err("substring: begin index exceeds end index")
      else Ok(str[startIndex + |start|..endIndex])
  }

  /** `hardBetween(str, start, end)`: `str` with the prefix `start` and the
      suffix `end` removed; fails unless `str` starts with `start` and ends
      with `end` (and the two do not overlap). */
  function HardBetween(str: string, start: string, end: string): (r: Result<string>)
    ensures r.Ok? <==> StartsWith(str, start) && EndsWith(str, end) && |start| + |end| <= |str|
    ensures r.Ok? ==> start + r.value + end == str
  {
    if !StartsWith(str, start) then Err("String '" + str + "' not started from '" + start + "'")
    else if !EndsWith(str, end) then Err("String '" + str + "' not ended with '" + end + "'")
    else if |str| - |end| < |start| then Err("substring: begin index exceeds end index")
    else
      var r := str[|start|..|str| - |end|];
      assert str == str[..|start|] + r + str[|str| - |end|..];
      Ok(r)
  }

  /** Wrapping a text in the two markers and unwrapping it again is the identity. */
  lemma HardBetweenRoundTrip(start: string, body: string, end: string)
    ensures HardBetween(start + body + end, start, end) == Ok(body)
  {
    var s := start + body + end;
    assert s[..|start|] == start;
    assert s[|s| - |end|..] == end;
    assert s[|start|..|s| - |end|] == body;
  }

  /** `till(str, end)`: the text before the first `end`. */
  function Till(str: string, end: string): (r: Result<string>)
    ensures r.Ok? <==> Contains(str, end)
    ensures r.Ok? ==> StartsWith(str, r.value + end) && r.value == str[..IndexOf(str, end)]
  {
    var endIndex := IndexOf(str, end);
    if endIndex == -1 then Err("String '" + str + "' doesn't contains '" + end + "'")
    else
      assert str[..endIndex + |end|] == str[..endIndex] + end by {
        assert str[endIndex..endIndex + |end|] == end;
      }
      Ok(str[..endIndex])
  }

  /** `from(str, start)`: the text after the last `start`. */
  function From(str: string, start: string): (r: Result<string>)
    ensures r.Ok? <==> LastIndexOf(str, start) != -1
    ensures r.Ok? ==> EndsWith(str, start + r.value) && |str| == LastIndexOf(str, start) + |start| + |r.value|
  {
    var startIndex := LastIndexOf(str, start);
    if startIndex == -1 then Err("String '" + str + "' doesn't contains '" + start + "'")
    else
      assert str[startIndex..] == start + str[startIndex + |start|..] by {
        assert str[startIndex..startIndex + |start|] == start;
      }
      Ok(str[startIndex + |start|..])
  }

  /** `from2(str, start)`: the text after the first `start`. */
  function From2(str: string, start: string): (r: Result<string>)
    ensures r.Ok? <==> Contains(str, start)
    ensures r.Ok? ==> EndsWith(str, start + r.value) && |str| == IndexOf(str, start) + |start| + |r.value|
  {
    var startIndex := IndexOf(str, start);
    if startIndex == -1 then Err("String '" + str + "' doesn't contains '" + start + "'")
    else
      assert str[startIndex..] == start + str[startIndex + |start|..] by {
        assert str[startIndex..startIndex + |start|] == start;
      }
      Ok(str[startIndex + |start|..])
  }

  /** When `a` lacks the first character of `end`, `till` stops right
      after `a`. */
  lemma TillLead(a: string, end: string, b: string)
    requires |end| > 0 && NoChar(a, end[0])
    ensures Till(a + end + b, end) == Ok(a)
  {
    FirstAfterLead(a, end, b);
    assert (a + end + b)[..|a|] == a;
  }

  /** When `a` lacks the first character of `start`, `from2` gives what
      follows that first `start`. */
  lemma From2Lead(a: string, start: string, b: string)
    requires |start| > 0 && NoChar(a, start[0])
    ensures From2(a + start + b, start) == Ok(b)
  {
    FirstAfterLead(a, start, b);
    assert (a + start + b)[|a| + |start|..] == b;
  }
}
