/**
 * Substitution rules and the list-of-parts representation shared by both
 * substitution routines of the evaluation function: a Python list whose elements are either
 * literal text or the integer index of the rule whose replacement goes there.
 */
module Rules {

  /** One substitution pair `(pattern, replacement)`. */
  datatype Rule = Rule(pattern: string, replacement: string)

  /** The sort key of a rule list: rules are ordered by descending pattern length. */
  function PatternLength(r: Rule): nat
  {
    |r.pattern|
  }

  /** The patterns of a rule list, in list order. */
  function Patterns(rules: seq<Rule>): (ps: seq<string>)
    ensures |ps| == |rules|
    ensures forall k :: 0 <= k < |rules| ==> ps[k] == rules[k].pattern
  {
    seq(|rules|, k requires 0 <= k < |rules| => rules[k].pattern)
  }

  /** The two rule lists have the same patterns, rule by rule. */
  predicate SamePatterns(rules: seq<Rule>, other: seq<Rule>)
  {
    |rules| == |other| && forall k :: 0 <= k < |rules| ==> rules[k].pattern == other[k].pattern
  }

  lemma PatternsAgree(rules: seq<Rule>, other: seq<Rule>)
    requires Patterns(rules) == Patterns(other)
    ensures SamePatterns(rules, other)
  {
    forall k | 0 <= k < |rules|
      ensures rules[k].pattern == other[k].pattern
    {
      assert Patterns(rules)[k] == Patterns(other)[k];
    }
  }

  /** Python's `s.startswith(p, i)`. */
  predicate StartsAt(s: string, p: string, i: nat)
  {
    i + |p| <= |s| && forall m :: 0 <= m < |p| ==> s[i + m] == p[m]
  }

  /**
   * `s` has exactly the characters of `t`. Worked examples are proved for
   * every such `s` and only then applied to the literal `t`, which keeps the
   * verifier from evaluating every function of the model on the literal.
   */
  predicate Spells(s: string, t: string)
  {
    |s| == |t| && forall m :: 0 <= m < |t| ==> s[m] == t[m]
  }

  /** A pattern whose first character differs from the one at `i` does not start there. */
  lemma FirstCharacterDiffers(s: string, p: string, i: nat)
    requires i < |s| && 0 < |p| && s[i] != p[0]
    ensures !StartsAt(s, p, i)
  {
  }

  /** An element of the work list: literal text, or the index of a rule whose replacement is still to be spliced in. */
  datatype Part = Text(text: string) | Slot(rule: nat)

  /** Every placeholder in `parts` refers to one of the first `n` rules. */
  predicate SlotsBelow(parts: seq<Part>, n: nat)
  {
    forall m :: 0 <= m < |parts| && parts[m].Slot? ==> parts[m].rule < n
  }

  /** The string obtained by replacing every placeholder by its rule's replacement and concatenating. */
  function Expand(parts: seq<Part>, rules: seq<Rule>): string
    requires SlotsBelow(parts, |rules|)
  {
    if parts == [] then ""
    else
      (match parts[0]
       case Text(t) => t
       case Slot(k) => rules[k].replacement)
      + Expand(parts[1..], rules)
  }

  /** Python's `"".join(parts)` on a list that holds only text. */
  function Join(parts: seq<Part>): string
    requires forall m :: 0 <= m < |parts| ==> parts[m].Text?
  {
    if parts == [] then "" else parts[0].text + Join(parts[1..])
  }

  lemma {:induction false} ExpandAppend(a: seq<Part>, b: seq<Part>, rules: seq<Rule>)
    requires SlotsBelow(a, |rules|) && SlotsBelow(b, |rules|)
    ensures SlotsBelow(a + b, |rules|)
    ensures Expand(a + b, rules) == Expand(a, rules) + Expand(b, rules)
  {
    if a == [] {
      assert a + b == b;
    } else {
      assert (a + b)[1..] == a[1..] + b;
      ExpandAppend(a[1..], b, rules);
    }
  }

  lemma ExpandPushText(parts: seq<Part>, t: string, rules: seq<Rule>)
    requires SlotsBelow(parts, |rules|)
    ensures SlotsBelow(parts + [Text(t)], |rules|)
    ensures Expand(parts + [Text(t)], rules) == Expand(parts, rules) + t
  {
    assert Expand([Text(t)], rules) == t;
    ExpandAppend(parts, [Text(t)], rules);
  }

  lemma ExpandPushSlot(parts: seq<Part>, k: nat, rules: seq<Rule>)
    requires SlotsBelow(parts, |rules|) && k < |rules|
    ensures SlotsBelow(parts + [Slot(k)], |rules|)
    ensures Expand(parts + [Slot(k)], rules) == Expand(parts, rules) + rules[k].replacement
  {
    assert Expand([Slot(k)], rules) == rules[k].replacement;
    ExpandAppend(parts, [Slot(k)], rules);
  }

  lemma AppendAssociates<T>(a: seq<T>, b: seq<T>, c: seq<T>)
    ensures a + (b + c) == (a + b) + c
  {
  }

  /** Splicing a rule's replacement text over its own placeholder leaves the expansion unchanged. */
  lemma {:induction false} ExpandFillSlot(parts: seq<Part>, m: nat, rules: seq<Rule>)
    requires SlotsBelow(parts, |rules|)
    requires m < |parts| && parts[m].Slot?
    ensures SlotsBelow(parts[m := Text(rules[parts[m].rule].replacement)], |rules|)
    ensures Expand(parts[m := Text(rules[parts[m].rule].replacement)], rules) == Expand(parts, rules)
  {
    if m > 0 {
      var filled := parts[m := Text(rules[parts[m].rule].replacement)];
      assert filled[1..] == parts[1..][m - 1 := Text(rules[parts[m].rule].replacement)];
      ExpandFillSlot(parts[1..], m - 1, rules);
    }
  }

  lemma {:induction false} JoinIsExpand(parts: seq<Part>, rules: seq<Rule>)
    requires forall m :: 0 <= m < |parts| ==> parts[m].Text?
    ensures SlotsBelow(parts, |rules|)
    ensures Join(parts) == Expand(parts, rules)
  {
    if parts != [] {
      JoinIsExpand(parts[1..], rules);
    }
  }

  /**
   * The closing loop of both `substitute` routines: every placeholder is
   * overwritten in place by its rule's replacement, then the list is joined.
   */
  method FillPlaceholders(parts: seq<Part>, rules: seq<Rule>) returns (r: string)
    requires SlotsBelow(parts, |rules|)
    ensures r == Expand(parts, rules)
  {
    var filled := parts;
    var m := 0;
    while m < |filled|
      invariant m <= |filled|
      invariant SlotsBelow(filled, |rules|)
      invariant Expand(filled, rules) == Expand(parts, rules)
      invariant forall j :: 0 <= j < m ==> filled[j].Text?
    {
      if filled[m].Slot? {
        ExpandFillSlot(filled, m, rules);
        filled := filled[m := Text(rules[filled[m].rule].replacement)];
      }
      m := m + 1;
    }
    JoinIsExpand(filled, rules);
    r := Join(filled);
  }
}
