/** Group parameters and tag filters built on the wildcard matcher
    (server/cgroups/group.go). */
module GroupTags {
  import opened Wildcards
  import opened Options
  import opened Sequences

  ghost predicate Hits(lower: string -> string, param: string, values: seq<string>) {
    exists v :: v in values && Glob(lower(param), lower(v))
  }

  /** ParamValues.MatchesOneOf; an absent list matches everything. */
  method MatchesOneOf(lower: string -> string, p: Option<seq<string>>, values: seq<string>) returns (ok: bool)
    ensures ok <==>
              || p.None?
              || (p.value == [] && values == [])
              || exists param :: param in p.value && Hits(lower, param, values)
  {
    hide Glob;
    if p.None? || (|p.value| == 0 && |values| == 0) {
      return true;
    }
    for i := 0 to |p.value|
      invariant forall k :: 0 <= k < i ==> !Hits(lower, p.value[k], values)
    {
      for j := 0 to |values|
        invariant forall k :: 0 <= k < j ==> !Glob(lower(p.value[i]), lower(values[k]))
      {
        var hit := Matches(lower, p.value[i], values[j]);
        if hit {
          assert values[j] in values && p.value[i] in p.value;
          assert Hits(lower, p.value[i], values);
          return true;
        }
      }
    }
    return false;
  }

  /** The JSON text of a tag filter, by how it decodes. */
  datatype RawTags =
    | NoText
    | ObjectOf(lists: map<string, seq<string>>)
    | ListOf(items: seq<string>)
    | OtherJson

  datatype Parsed = Filter(operator: string, operands: seq<string>) | BadFilter

  function TheKey(m: map<string, seq<string>>): (k: string)
    requires |m| == 1
    ensures k in m && m.Keys == {k}
  {
    var k :| k in m;
    assert |m.Keys - {k}| == 0;
    assert m.Keys == {k};
    k
  }

  /** ParseTag. */
  function ParseTag(lower: string -> string, p: RawTags): (r: Parsed)
    ensures r.Filter? <==>
              || (p.ListOf? && p.items != [])
              || (p.ObjectOf? && |p.lists| == 1
                  && forall k :: k in p.lists ==> lower(k) in {"and", "or"} && p.lists[k] != [])
    ensures r.Filter? && p.ListOf? ==> r == Filter("or", p.items)
    ensures r.Filter? && p.ObjectOf? ==> r.operator in p.lists && r.operands == p.lists[r.operator]
  {
    match p
    case ObjectOf(m) =>
      if |m| != 1 then BadFilter
      else if lower(TheKey(m)) !in {"and", "or"} || m[TheKey(m)] == [] then BadFilter
      else Filter(TheKey(m), m[TheKey(m)])
    case ListOf(items) => if items == [] then BadFilter else Filter("or", items)
    case NoText => BadFilter
    case OtherJson => BadFilter
  }

  ghost predicate AllHit(lower: string -> string, operands: seq<string>, values: seq<string>) {
    forall o :: o in operands ==> Hits(lower, o, values)
  }

  ghost predicate AnyHit(lower: string -> string, operands: seq<string>, values: seq<string>) {
    exists o :: o in operands && Hits(lower, o, values)
  }

  /** What a filter is meant to say: "and" and "or" in any spelling ParseTag
      admits, every operand or at least one. */
  ghost predicate Intended(lower: string -> string, f: Parsed, values: seq<string>)
    requires f.Filter?
  {
    if lower(f.operator) == "and" then AllHit(lower, f.operands, values) else AnyHit(lower, f.operands, values)
  }

  lemma CountDecides(m: set<string>, operands: seq<string>)
    requires m <= ElementsOf(operands)
    ensures |m| == |operands| <==> m == ElementsOf(operands) && Distinct(operands)
  {
    CardinalityOfElements(operands);
    var rest := ElementsOf(operands) - m;
    assert m + rest == ElementsOf(operands);
    assert |m| + |rest| == |ElementsOf(operands)|;
  }

  /** The operands some value matches: the keys of MatchesRawTags' map. */
  method MatchedOperands(lower: string -> string, operands: seq<string>, values: seq<string>)
    returns (matches: set<string>)
    ensures matches == set o | o in operands && Hits(lower, o, values)
  {
    hide Glob;
    matches := {};
    for i := 0 to |values|
      invariant forall o :: o in matches <==> o in operands && Hits(lower, o, values[..i])
    {
      ghost var before := matches;
      for j := 0 to |operands|
        invariant forall o :: o in matches <==>
                    o in before || (o in operands[..j] && Glob(lower(o), lower(values[i])))
      {
        var operand := operands[j];
        assert operands[..j + 1] == operands[..j] + [operand];
        if operand in matches {
          continue;
        }
        var hit := Matches(lower, operand, values[i]);
        if hit {
          matches := matches + {operand};
        }
      }
      assert operands[..|operands|] == operands;
      HitsSnoc(lower, values, i);
    }
    assert values[..|values|] == values;
  }

  lemma HitsSnoc(lower: string -> string, values: seq<string>, i: nat)
    requires i < |values|
    ensures forall o :: Hits(lower, o, values[..i + 1]) <==>
              Hits(lower, o, values[..i]) || Glob(lower(o), lower(values[i]))
  {
    hide Glob;
    assert values[..i + 1] == values[..i] + [values[i]];
    assert values[i] in values[..i + 1];
  }

  lemma AllHitIffAllMatched(lower: string -> string, operands: seq<string>, values: seq<string>, m: set<string>)
    requires m == set o | o in operands && Hits(lower, o, values)
    ensures AllHit(lower, operands, values) <==> m == ElementsOf(operands)
  {
    hide Glob, Hits;
    if m == ElementsOf(operands) {
      forall o | o in operands ensures Hits(lower, o, values) {
        assert o in ElementsOf(operands);
      }
    }
  }

  lemma AnyHitIffSomeMatched(lower: string -> string, operands: seq<string>, values: seq<string>, m: set<string>)
    requires m == set o | o in operands && Hits(lower, o, values)
    ensures AnyHit(lower, operands, values) <==> |m| > 0
  {
    hide Glob, Hits;
    if AnyHit(lower, operands, values) {
      var o :| o in operands && Hits(lower, o, values);
      assert o in m;
    }
  }

  /** What MatchesRawTags answers: it counts the operands that some value matches. */
  ghost predicate Selects(lower: string -> string, p: Option<RawTags>, values: seq<string>) {
    || p.None?
    || (p.value == NoText && values == [])
    || (var f := ParseTag(lower, p.value);
        f.Filter? &&
        var matched := set o | o in f.operands && Hits(lower, o, values);
        (f.operator == "and" && |matched| == |f.operands|) || (f.operator == "or" && |matched| > 0))
  }

  /** MatchesRawTags. The operator is compared as written, and "and" compares
      the number of matched operands with the length of the list, so the code
      says what the filter means exactly when the operator is in lower case and
      an "and" list names no operand twice. */
  method MatchesRawTags(lower: string -> string, p: Option<RawTags>, values: seq<string>) returns (ok: bool)
    requires lower("and") == "and" && lower("or") == "or"
    ensures ok <==> Selects(lower, p, values)
    ensures p.None? || (p.value == NoText && values == []) ==> ok
    ensures p.Some? && !(p.value == NoText && values == []) ==>
              var f := ParseTag(lower, p.value);
              (ok <==> && f.Filter?
                       && Intended(lower, f, values)
                       && f.operator in {"and", "or"}
                       && (f.operator == "and" ==> Distinct(f.operands)))
  {
    hide Glob, Hits, ParseTag;
    if p.None? || (p.value.NoText? && |values| == 0) {
      return true;
    }
    var f := ParseTag(lower, p.value);
    if f.BadFilter? {
      return false;
    }
    var matches := MatchedOperands(lower, f.operands, values);
    CountDecides(matches, f.operands);
    if f.operator == "and" {
      ok := |matches| == |f.operands|;
      AllHitIffAllMatched(lower, f.operands, values, matches);
      assert ok <==> Intended(lower, f, values) && Distinct(f.operands);
    } else if f.operator == "or" {
      ok := |matches| > 0;
      AnyHitIffSomeMatched(lower, f.operands, values, matches);
      assert |"or"| == 2 && |"and"| == 3 && lower(f.operator) == "or";
      assert ok <==> Intended(lower, f, values);
    } else {
      ok := false;
    }
  }

  lemma OneTag(lower: string -> string, operator: string, operands: seq<string>, tag: string)
    requires lower(operator) in {"and", "or"} && operands != [] && Literal(lower(tag))
    ensures
      ParseTag(lower, ObjectOf(map[operator := operands])) == Filter(operator, operands) && Hits(lower, tag, [tag])
  {
    assert TheKey(map[operator := operands]) == operator;
    GlobLiteralWhole(lower(tag), lower(tag));
    assert tag in [tag];
  }

  /** An "and" filter that names a tag twice refuses a client that has the tag. */
  lemma RepeatedOperandRefuses(lower: string -> string, tag: string)
    requires lower("and") == "and" && Literal(lower(tag))
    ensures
      var p := ObjectOf(map["and" := [tag, tag]]);
      ParseTag(lower, p).Filter? && Intended(lower, ParseTag(lower, p), [tag]) && !Selects(lower, Some(p), [tag])
  {
    hide Glob, Hits;
    OneTag(lower, "and", [tag, tag], tag);
    assert (set o | o in [tag, tag] && Hits(lower, o, [tag])) == {tag};
  }

  /** So does every filter whose operator is not written in lower case. */
  lemma UpperCaseOperatorRefuses(lower: string -> string, operator: string, tag: string)
    requires lower(operator) in {"and", "or"} && operator !in {"and", "or"} && Literal(lower(tag))
    ensures
      var p := ObjectOf(map[operator := [tag]]);
      ParseTag(lower, p).Filter? && Intended(lower, ParseTag(lower, p), [tag]) && !Selects(lower, Some(p), [tag])
  {
    hide Glob, Hits;
    OneTag(lower, operator, [tag], tag);
  }
}
