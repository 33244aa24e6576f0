/** Wildcard matching of client group parameters (server/cgroups/group.go).

    Case folding is a parameter `lower`, so the results hold for whatever
    strings.ToLower does to text outside ASCII. */
module Wildcards {

  /** Reference meaning of a pattern: `*` stands for any string, every other
      character for itself. */
  ghost predicate Glob(p: string, v: string)
    decreases |p|
  {
    if p == "" then v == ""
    else if p[0] == '*' then exists k :: 0 <= k <= |v| && Glob(p[1..], v[k..])
    else v != "" && v[0] == p[0] && Glob(p[1..], v[1..])
  }

  // --- The library calls the matcher makes --------------------------------------

  predicate OccursAt(v: string, part: string, i: nat) {
    i + |part| <= |v| && v[i..i + |part|] == part
  }

  predicate HasPrefix(v: string, part: string) {
    OccursAt(v, part, 0)
  }

  predicate HasSuffix(v: string, part: string) {
    |part| <= |v| && OccursAt(v, part, |v| - |part|)
  }

  /** strings.Index: the leftmost occurrence, or -1. */
  function Index(v: string, part: string): (r: int)
    ensures -1 <= r <= |v|
    ensures r >= 0 ==> OccursAt(v, part, r) && forall i :: 0 <= i < r ==> !OccursAt(v, part, i)
    ensures r == -1 ==> forall i :: 0 <= i <= |v| ==> !OccursAt(v, part, i)
  {
    IndexFrom(v, part, 0)
  }

  function IndexFrom(v: string, part: string, from: nat): (r: int)
    requires from <= |v| + 1
    ensures r == -1 || from <= r <= |v|
    ensures r >= 0 ==> OccursAt(v, part, r) && forall i :: from <= i < r ==> !OccursAt(v, part, i)
    ensures r == -1 ==> forall i :: from <= i <= |v| ==> !OccursAt(v, part, i)
    decreases |v| + 1 - from
  {
    if from > |v| then -1
    else if OccursAt(v, part, from) then from
    else IndexFrom(v, part, from + 1)
  }

  predicate Literal(s: string) {
    '*' !in s
  }

  function Join(parts: seq<string>): string
    requires parts != []
  {
    if |parts| == 1 then parts[0] else parts[0] + "*" + Join(parts[1..])
  }

  /** strings.Split on the wildcard: the one way to write `s` as literal parts
      joined by wildcards. */
  function Split(s: string): (parts: seq<string>)
    ensures parts != [] && Join(parts) == s
    ensures forall i :: 0 <= i < |parts| ==> Literal(parts[i])
    ensures |parts| >= 2 <==> '*' in s
  {
    if s == "" then [""]
    else
      var rest := Split(s[1..]);
      assert s == [s[0]] + s[1..];
      JoinMore(s[0], rest);
      if s[0] == '*' then [""] + rest else [[s[0]] + rest[0]] + rest[1..]
  }

  /** One more wildcard, or one more character, in front of joined parts. */
  lemma JoinMore(c: char, rest: seq<string>)
    requires rest != []
    ensures Join([""] + rest) == "*" + Join(rest)
    ensures Join([[c] + rest[0]] + rest[1..]) == [c] + Join(rest)
  {
    hide Join;
    JoinIs("", rest);
    JoinChar(c, rest[0], rest[1..]);
    assert [rest[0]] + rest[1..] == rest;
    assert "" + "*" == "*";
  }

  lemma JoinChar(c: char, first: string, rest: seq<string>)
    ensures Join([[c] + first] + rest) == [c] + Join([first] + rest)
  {
    if rest == [] {
      assert [[c] + first] + rest == [[c] + first] && [first] + rest == [first];
    } else {
      JoinIs([c] + first, rest);
      JoinIs(first, rest);
      hide Join;
      var tail := "*" + Join(rest);
      assert [c] + first + "*" + Join(rest) == [c] + (first + tail);
      assert first + "*" + Join(rest) == first + tail;
    }
  }

  lemma JoinIs(first: string, rest: seq<string>)
    requires rest != []
    ensures Join([first] + rest) == first + "*" + Join(rest)
  {
    assert ([first] + rest)[1..] == rest;
  }

  // --- Parts against the reference meaning --------------------------------------

  /** `v` is: any string, parts[0], any string, parts[1], ..., the last part. */
  ghost predicate Spread(parts: seq<string>, v: string)
    requires parts != []
    decreases |parts|
  {
    exists k :: 0 <= k <= |v| && SpreadFrom(parts, v, k)
  }

  ghost predicate SpreadFrom(parts: seq<string>, v: string, k: nat)
    requires parts != [] && k <= |v|
    decreases |parts|, 0
  {
    && OccursAt(v, parts[0], k)
    && var end := k + |parts[0]|;
       if |parts| == 1 then end == |v| else Spread(parts[1..], v[end..])
  }

  lemma {:induction false} GlobLiteral(p: string, q: string, v: string)
    requires Literal(p)
    ensures Glob(p + q, v) <==> HasPrefix(v, p) && Glob(q, v[|p|..])
  {
    if p == "" {
      assert p + q == q && v[0..] == v;
    } else {
      assert (p + q)[0] == p[0] && (p + q)[1..] == p[1..] + q;
      if v != "" {
        GlobLiteral(p[1..], q, v[1..]);
        assert HasPrefix(v, p) <==> v[0] == p[0] && HasPrefix(v[1..], p[1..]) by {
          if HasPrefix(v, p) {
            assert v[1..][..|p| - 1] == v[..|p|][1..];
          }
          if v[0] == p[0] && HasPrefix(v[1..], p[1..]) {
            assert v[..|p|] == [v[0]] + v[1..][..|p| - 1];
          }
        }
        if HasPrefix(v, p) {
          assert v[1..][|p[1..]|..] == v[|p|..];
        }
      }
    }
  }

  lemma {:induction false} GlobSpread(parts: seq<string>, v: string)
    requires parts != [] && forall i :: 0 <= i < |parts| ==> Literal(parts[i])
    ensures Glob("*" + Join(parts), v) <==> Spread(parts, v)
    decreases |parts|
  {
    var p := "*" + Join(parts);
    assert p[1..] == Join(parts);
    forall k | 0 <= k <= |v|
      ensures Glob(Join(parts), v[k..]) <==> SpreadFrom(parts, v, k)
    {
      GlobJoin(parts, v[k..]);
      assert OccursAt(v, parts[0], k) <==> HasPrefix(v[k..], parts[0]);
      if OccursAt(v, parts[0], k) {
        assert v[k..][|parts[0]|..] == v[k + |parts[0]|..];
      }
    }
  }

  /** A whole pattern: the first part at the front, the rest spread after it. */
  lemma {:induction false} GlobJoin(parts: seq<string>, v: string)
    requires parts != [] && forall i :: 0 <= i < |parts| ==> Literal(parts[i])
    ensures Glob(Join(parts), v) <==>
              HasPrefix(v, parts[0]) &&
              if |parts| == 1 then |v| == |parts[0]| else Spread(parts[1..], v[|parts[0]|..])
    decreases |parts|, 0
  {
    if |parts| == 1 {
      GlobLiteral(parts[0], "", v);
      assert parts[0] + "" == parts[0];
    } else {
      var rest := "*" + Join(parts[1..]);
      assert Join(parts) == parts[0] + rest;
      GlobLiteral(parts[0], rest, v);
      if HasPrefix(v, parts[0]) {
        GlobSpread(parts[1..], v[|parts[0]|..]);
      }
    }
  }

  /** A longer value can only help: the extra front goes into the first gap. */
  lemma SpreadMonotone(parts: seq<string>, v: string, i: nat, j: nat)
    requires parts != [] && i <= j <= |v| && Spread(parts, v[j..])
    ensures Spread(parts, v[i..])
  {
    var k :| 0 <= k <= |v[j..]| && SpreadFrom(parts, v[j..], k);
    var k' := j - i + k;
    assert v[j..][k..k + |parts[0]|] == v[i..][k'..k' + |parts[0]|];
    assert v[j..][k + |parts[0]|..] == v[i..][k' + |parts[0]|..];
    assert SpreadFrom(parts, v[i..], k');
  }

  lemma SpreadSkipsTo(parts: seq<string>, v: string, i: nat)
    requires |parts| >= 2 && i <= |v| && OccursAt(v, parts[0], i)
    requires forall k :: 0 <= k < i ==> !OccursAt(v, parts[0], k)
    requires Spread(parts, v)
    ensures Spread(parts[1..], v[i + |parts[0]|..])
  {
    var k :| 0 <= k <= |v| && SpreadFrom(parts, v, k);
    FromMeans(parts, v, k);
    FitsAt(v, parts[0], i);
    hide Spread, SpreadFrom, OccursAt;
    SpreadMonotone(parts[1..], v, i + |parts[0]|, k + |parts[0]|);
  }

  lemma FitsAt(v: string, part: string, i: nat)
    requires OccursAt(v, part, i)
    ensures i + |part| <= |v|
  {}

  lemma FromMeans(parts: seq<string>, v: string, k: nat)
    requires |parts| >= 2 && k <= |v| && SpreadFrom(parts, v, k)
    ensures OccursAt(v, parts[0], k) && k + |parts[0]| <= |v| && Spread(parts[1..], v[k + |parts[0]|..])
  {
    hide Spread;
  }

  /** Taking the leftmost occurrence of the next part loses nothing. */
  lemma LeftmostIsBest(parts: seq<string>, v: string, i: nat)
    requires |parts| >= 2 && i <= |v| && OccursAt(v, parts[0], i)
    requires forall k :: 0 <= k < i ==> !OccursAt(v, parts[0], k)
    ensures Spread(parts, v) <==> Spread(parts[1..], v[i + |parts[0]|..])
  {
    if Spread(parts, v) {
      SpreadSkipsTo(parts, v, i);
    }
    if Spread(parts[1..], v[i + |parts[0]|..]) {
      assert SpreadFrom(parts, v, i);
    }
  }

  lemma GlobLiteralWhole(p: string, v: string)
    requires Literal(p)
    ensures Glob(p, v) <==> p == v
  {
    GlobLiteral(p, "", v);
    assert p + "" == p;
  }

  lemma SpreadOfOne(part: string, v: string)
    ensures Spread([part], v) <==> HasSuffix(v, part)
  {
    if HasSuffix(v, part) {
      assert SpreadFrom([part], v, |v| - |part|);
    }
  }

  /** The end of a value with the suffix has it too, if it is long enough. */
  lemma SuffixOfTail(v: string, part: string, n: nat)
    requires n <= |v| && HasSuffix(v, part)
    ensures HasSuffix(v[n..], part) <==> Index(v[n..], part) != -1
  {
    var r := v[n..];
    if Index(r, part) != -1 {
      assert r[|r| - |part|..] == v[|v| - |part|..];
    }
    if HasSuffix(r, part) {
      assert OccursAt(r, part, |r| - |part|);
    }
  }

  lemma {:induction false} SpreadHasSuffix(parts: seq<string>, v: string)
    requires parts != [] && Spread(parts, v)
    ensures HasSuffix(v, parts[|parts| - 1])
    decreases |parts|
  {
    if |parts| == 1 {
      assert parts == [parts[0]];
      SpreadOfOne(parts[0], v);
    } else {
      var k :| 0 <= k <= |v| && SpreadFrom(parts, v, k);
      var t := v[k + |parts[0]|..];
      var last := parts[|parts| - 1];
      assert parts[1..][|parts[1..]| - 1] == last;
      SpreadHasSuffix(parts[1..], t);
      assert t[|t| - |last|..] == v[|v| - |last|..];
    }
  }

  /** One turn of the matching loop after the first part. */
  lemma GreedyStep(parts: seq<string>, v: string)
    requires parts != []
    requires HasSuffix(v, parts[|parts| - 1]) <==> Index(v, parts[|parts| - 1]) != -1
    ensures
      var i := Index(v, parts[0]);
      Spread(parts, v) <==>
        i != -1 && (|parts| == 1 || Spread(parts[1..], v[i + |parts[0]|..]))
  {
    var i := Index(v, parts[0]);
    if |parts| == 1 {
      assert parts == [parts[0]];
      SpreadOfOne(parts[0], v);
    } else if i != -1 {
      LeftmostIsBest(parts, v, i);
    }
  }

  /** Both ends of a value that matches carry the outer parts. */
  lemma MatchHasEnds(parts: seq<string>, v: string)
    requires |parts| >= 2 && forall i :: 0 <= i < |parts| ==> Literal(parts[i])
    requires Glob(Join(parts), v)
    ensures HasPrefix(v, parts[0]) && HasSuffix(v, parts[|parts| - 1])
  {
    GlobJoin(parts, v);
    var t, last := v[|parts[0]|..], parts[|parts| - 1];
    assert parts[1..][|parts[1..]| - 1] == last;
    SpreadHasSuffix(parts[1..], t);
    assert t[|t| - |last|..] == v[|v| - |last|..];
  }

  lemma IndexOfPrefix(v: string, part: string)
    requires HasPrefix(v, part)
    ensures Index(v, part) == 0
  {}

  /** The wildcard branch of Param.matches. */
  method MatchesParts(parts: seq<string>, whole: string) returns (ok: bool)
    requires |parts| >= 2 && forall i :: 0 <= i < |parts| ==> Literal(parts[i])
    ensures ok <==> Glob(Join(parts), whole)
  {
    hide Glob, Spread, Join, OccursAt, HasPrefix, HasSuffix, Index;
    var value, last := whole, parts[|parts| - 1];
    if !HasPrefix(value, parts[0]) || !HasSuffix(value, last) {
      if Glob(Join(parts), whole) {
        MatchHasEnds(parts, whole);
      }
      return false;
    }
    GlobJoin(parts, whole);
    IndexOfPrefix(whole, parts[0]);
    ghost var used := 0;
    for n := 0 to |parts|
      invariant 0 <= used <= |whole| && value == whole[used..]
      invariant n == 0 ==> used == 0
      invariant 0 < n < |parts| ==> (Glob(Join(parts), whole) <==> Spread(parts[n..], value))
      invariant n == |parts| ==> Glob(Join(parts), whole)
    {
      var i := Index(value, parts[n]);
      if n > 0 {
        SuffixOfTail(whole, last, used);
        GreedyStep(parts[n..], value);
        assert parts[n..][1..] == parts[n + 1..];
      }
      if i == -1 {
        return false;
      }
      IndexFits(value, parts[n]);
      used := used + i + |parts[n]|;
      value := value[i + |parts[n]|..];
    }
    return true;
  }

  lemma IndexFits(v: string, part: string)
    ensures Index(v, part) != -1 ==> Index(v, part) + |part| <= |v|
  {}

  /** Param.matches: the greedy matcher decides the reference meaning. */
  method Matches(lower: string -> string, param: string, arg: string) returns (ok: bool)
    ensures ok <==> Glob(lower(param), lower(arg))
  {
    var str, value := lower(param), lower(arg);
    if '*' in str {
      ok := MatchesParts(Split(str), value);
    } else {
      GlobLiteralWhole(str, value);
      ok := str == value;
    }
  }
}
