/**
 * Splitting one substitution string into passes (app/evaluation.py, the
 * parsing loop inside `evaluation_function`). A substitution string is a
 * sequence of parenthesised rules such as `('m','metre') ('s','second') |
 * ('metre','length')`. Each group's text is read as one rule. A new pass
 * starts after a group when a '|' lies between its closing ')' and the
 * character before the next '('. Every pass is then sorted by descending
 * pattern length.
 *
 * Python's `eval` of a group's text is a reader given as a parameter. It
 * yields `None` where `eval` raises a SyntaxError or TypeError.
 */
module Passes {
  import opened Wrappers
  import opened Rules
  import opened Sorting
  import Parentheses
  import RuleByRule

  /** The two ways a configuration fails: the source's exception, or a loop that never ends. */
  datatype ConfigError = NotWrittenCorrectly | NeverTerminates | ConcatenationTypeError

  type Reader = string -> Option<Rule>

  /** `sub_substitutions.sort(key=lambda x: -len(x[0]))`. */
  function SortPass(rules: seq<Rule>): seq<Rule>
  {
    SortByKeyDesc(rules, PatternLength)
  }

  /** Python's `s.find(p, lo, hi)`: a match of `p` inside `s[lo:hi]`, as a position of `s`, or -1. */
  function FindWithin(s: string, p: string, lo: nat, hi: nat): int
    requires hi <= |s|
  {
    RuleByRule.Find(s[..hi], p, lo)
  }

  /** The text `eval` receives for the group opened at `index`: `s[index+1:index_match]`, with -1 read as Python does. */
  function GroupText(s: string, index: nat, close: int): string
    requires index < |s| && close < |s|
  {
    if close < 0 then RuleByRule.Slice(s, index + 1, |s| - 1)
    else RuleByRule.Slice(s, index + 1, close)
  }

  /**
   * The loop from the group opened at `index` on, with `sub` the rules of the
   * pass in progress and `done` the passes already closed.
   */
  function ParseFrom(s: string, read: Reader, index: nat, sub: seq<Rule>, done: seq<seq<Rule>>)
    : Result<seq<seq<Rule>>, ConfigError>
    requires index < |s|
    decreases |s| + 1 - index, 1
  {
    var close := Parentheses.MatchingParenthesis(s, index);
    match read(GroupText(s, index, close))
    case None => Err(NotWrittenCorrectly)
    case Some(rule) =>
      if close == -1 then Err(NeverTerminates)
      else
        var next := RuleByRule.Find(s, "(", close + 1);
        if next > -1 && FindWithin(s, "|", close + 1, next - 1) > -1 then
          Continue(s, read, next, [], done + [SortPass(sub + [rule])])
        else
          Continue(s, read, next, sub + [rule], done)
  }

  /** The loop's test `while index > -1`: at -1 the pass in progress is sorted and closed. */
  function Continue(s: string, read: Reader, index: int, sub: seq<Rule>, done: seq<seq<Rule>>)
    : Result<seq<seq<Rule>>, ConfigError>
    requires -1 <= index < |s|
    decreases if index < 0 then 0 else |s| + 1 - index, 2
  {
    if index == -1 then Ok(done + [SortPass(sub)]) else ParseFrom(s, read, index, sub, done)
  }

  /** The passes of one substitution string: one empty pass when it holds no '('. */
  function ParsePasses(s: string, read: Reader): Result<seq<seq<Rule>>, ConfigError>
  {
    Continue(s, read, RuleByRule.Find(s, "(", 0), [], [])
  }

  /** The parsing loop of the source, with its `index`, `sub_substitutions` and `substitutions`. */
  method SplitPasses(s: string, read: Reader) returns (r: Result<seq<seq<Rule>>, ConfigError>)
    ensures r == ParsePasses(s, read)
  {
    var substitutions: seq<seq<Rule>> := [];
    var sub: seq<Rule> := [];
    var index := RuleByRule.Find(s, "(", 0);
    while index > -1
      invariant -1 <= index < |s|
      invariant ParsePasses(s, read) == Continue(s, read, index, sub, substitutions)
      decreases if index < 0 then 0 else |s| + 1 - index
    {
      var close := Parentheses.FindMatchingParenthesis(s, index);
      var rule := read(GroupText(s, index, close));
      if rule.None? {
        return Err(NotWrittenCorrectly);
      }
      if close == -1 {
        return Err(NeverTerminates);
      }
      var next := RuleByRule.Find(s, "(", close + 1);
      if next > -1 && FindWithin(s, "|", close + 1, next - 1) > -1 {
        StepClosesPass(s, read, index, sub, substitutions, close, rule.value, next);
      } else {
        StepExtendsPass(s, read, index, sub, substitutions, close, rule.value, next);
      }
      sub := sub + [rule.value];
      index := next;
      if index > -1 && FindWithin(s, "|", close + 1, index - 1) > -1 {
        substitutions := substitutions + [SortPass(sub)];
        sub := [];
      }
    }
    return Ok(substitutions + [SortPass(sub)]);
  }

  /** One turn of the loop, for a group that closes and is read: the pass in progress grows. */
  lemma {:induction false} StepExtendsPass(s: string, read: Reader, index: nat, sub: seq<Rule>, done: seq<seq<Rule>>,
                                           close: int, rule: Rule, next: int)
    requires index < |s| && close == Parentheses.MatchingParenthesis(s, index) && close != -1
    requires read(GroupText(s, index, close)) == Some(rule)
    requires next == RuleByRule.Find(s, "(", close + 1)
    requires next == -1 || FindWithin(s, "|", close + 1, next - 1) == -1
    ensures ParseFrom(s, read, index, sub, done) == Continue(s, read, next, sub + [rule], done)
  {
  }

  /** One turn of the loop, for a group followed by a '|': the pass in progress is closed. */
  lemma {:induction false} StepClosesPass(s: string, read: Reader, index: nat, sub: seq<Rule>, done: seq<seq<Rule>>,
                                          close: int, rule: Rule, next: int)
    requires index < |s| && close == Parentheses.MatchingParenthesis(s, index) && close != -1
    requires read(GroupText(s, index, close)) == Some(rule)
    requires next == RuleByRule.Find(s, "(", close + 1) && next > -1
    requires FindWithin(s, "|", close + 1, next - 1) > -1
    ensures ParseFrom(s, read, index, sub, done) == Continue(s, read, next, [], done + [SortPass(sub + [rule])])
  {
  }

  // ---------------------------------------------------------------------------
  // Properties
  // ---------------------------------------------------------------------------

  predicate AllSorted(passes: seq<seq<Rule>>)
  {
    forall i :: 0 <= i < |passes| ==> SortedDesc(passes[i], PatternLength)
  }

  lemma SortPassSorted(rules: seq<Rule>)
    ensures SortedDesc(SortPass(rules), PatternLength)
    ensures multiset(SortPass(rules)) == multiset(rules)
  {
    SortOrders(rules, PatternLength);
    SortPermutes(rules, PatternLength);
  }

  lemma {:induction false} ParseFromSorted(s: string, read: Reader, index: nat, sub: seq<Rule>, done: seq<seq<Rule>>)
    requires index < |s| && AllSorted(done)
    ensures ParseFrom(s, read, index, sub, done).Ok? ==> AllSorted(ParseFrom(s, read, index, sub, done).value)
    decreases |s| - index
  {
    var close := Parentheses.MatchingParenthesis(s, index);
    var rule := read(GroupText(s, index, close));
    if rule.Some? && close != -1 {
      var next := RuleByRule.Find(s, "(", close + 1);
      SortPassSorted(sub + [rule.value]);
      var closed := done + [SortPass(sub + [rule.value])];
      assert AllSorted(closed) by {
        forall i | 0 <= i < |closed|
          ensures SortedDesc(closed[i], PatternLength)
        {
          if i < |done| {
            assert closed[i] == done[i];
          }
        }
      }
      if next != -1 {
        if FindWithin(s, "|", close + 1, next - 1) > -1 {
          ParseFromSorted(s, read, next, [], closed);
        } else {
          ParseFromSorted(s, read, next, sub + [rule.value], done);
        }
      }
    }
  }

  /** Every pass is sorted longest pattern first, so the longest possible match is substituted first. */
  lemma PassesAreSorted(s: string, read: Reader)
    requires ParsePasses(s, read).Ok?
    ensures AllSorted(ParsePasses(s, read).value)
  {
    if RuleByRule.Find(s, "(", 0) != -1 {
      ParseFromSorted(s, read, RuleByRule.Find(s, "(", 0), [], []);
    } else {
      SortPassSorted([]);
    }
  }

  /** A '|' found inside a window of `s` is a '|' of `s`. */
  lemma FindWithinFindsBar(s: string, lo: nat, hi: nat)
    requires hi <= |s| && FindWithin(s, "|", lo, hi) > -1
    ensures RuleByRule.Find(s, "|", 0) != -1
  {
    var j := FindWithin(s, "|", lo, hi);
    RuleByRule.FindIsFirstMatch(s[..hi], "|", lo);
    assert StartsAt(s[..hi], "|", j);
    assert s[..hi][j + 0] == "|"[0];
    assert StartsAt(s, "|", j);
    RuleByRule.FindIsFirstMatch(s, "|", 0);
  }

  lemma {:induction false} ParseFromWithoutBar(s: string, read: Reader, index: nat, sub: seq<Rule>, done: seq<seq<Rule>>)
    requires index < |s| && RuleByRule.Find(s, "|", 0) == -1
    ensures ParseFrom(s, read, index, sub, done).Ok? ==> |ParseFrom(s, read, index, sub, done).value| == |done| + 1
    decreases |s| - index
  {
    var close := Parentheses.MatchingParenthesis(s, index);
    var rule := read(GroupText(s, index, close));
    if rule.Some? && close != -1 {
      var next := RuleByRule.Find(s, "(", close + 1);
      if next != -1 {
        if FindWithin(s, "|", close + 1, next - 1) > -1 {
          FindWithinFindsBar(s, close + 1, next - 1);
        } else {
          ParseFromWithoutBar(s, read, next, sub + [rule.value], done);
        }
      }
    }
  }

  /** A substitution string without '|' is one pass. */
  lemma NoBarMeansOnePass(s: string, read: Reader)
    requires RuleByRule.Find(s, "|", 0) == -1 && ParsePasses(s, read).Ok?
    ensures |ParsePasses(s, read).value| == 1
  {
    if RuleByRule.Find(s, "(", 0) != -1 {
      ParseFromWithoutBar(s, read, RuleByRule.Find(s, "(", 0), [], []);
    }
  }

  /**
   * A group with no matching ')' whose text is still read sends the source's
   * scan back to the first '(' of the string, at or before the group: the
   * same groups are read again in the same order, so the loop never ends.
   */
  lemma UnclosedGroupRestartsScan(s: string, index: nat)
    requires index < |s| && s[index] == '(' && Parentheses.MatchingParenthesis(s, index) == -1
    ensures var restart := RuleByRule.Find(s, "(", Parentheses.MatchingParenthesis(s, index) + 1);
            restart == RuleByRule.Find(s, "(", 0) && 0 <= restart <= index
  {
    assert StartsAt(s, "(", index);
    RuleByRule.FindIsFirstMatch(s, "(", 0);
  }

  // ---------------------------------------------------------------------------
  // Which rules go into which pass
  // ---------------------------------------------------------------------------

  /** One group read by the loop: its rule, and whether a '|' in the window after it closes its pass. */
  datatype Group = Group(rule: Rule, closesPass: bool)

  /**
   * The groups read from the one opened at `index` on, along the chain of
   * `find('(')` calls: each group ends at its matching ')', and the next one
   * opens at the first '(' after that.
   */
  function GroupsFrom(s: string, read: Reader, index: nat): Result<seq<Group>, ConfigError>
    requires index < |s|
    decreases |s| - index
  {
    var close := Parentheses.MatchingParenthesis(s, index);
    match read(GroupText(s, index, close))
    case None => Err(NotWrittenCorrectly)
    case Some(rule) =>
      if close == -1 then Err(NeverTerminates)
      else
        var next := RuleByRule.Find(s, "(", close + 1);
        if next == -1 then Ok([Group(rule, false)])
        else Cons(Group(rule, FindWithin(s, "|", close + 1, next - 1) > -1), GroupsFrom(s, read, next))
  }

  /** A group in front of the groups read after it, or the error met there. */
  function Cons(g: Group, later: Result<seq<Group>, ConfigError>): Result<seq<Group>, ConfigError>
  {
    match later
    case Err(e) => Err(e)
    case Ok(rest) => Ok([g] + rest)
  }

  /** The groups of a whole substitution string, from its first '('. */
  function GroupReads(s: string, read: Reader): Result<seq<Group>, ConfigError>
  {
    var first := RuleByRule.Find(s, "(", 0);
    if first == -1 then Ok([]) else GroupsFrom(s, read, first)
  }

  /** The rules of the groups, in reading order. */
  function RulesOf(gs: seq<Group>): seq<Rule>
  {
    if gs == [] then [] else [gs[0].rule] + RulesOf(gs[1..])
  }

  /** The number of groups followed by a '|'. */
  function Splits(gs: seq<Group>): nat
  {
    if gs == [] then 0 else (if gs[0].closesPass then 1 else 0) + Splits(gs[1..])
  }

  /** The position of the first group that closes its pass, or `|gs|` when none does. */
  function FirstSplit(gs: seq<Group>): (j: nat)
    ensures j <= |gs|
    ensures j < |gs| ==> gs[j].closesPass
    ensures forall m :: 0 <= m < j ==> !gs[m].closesPass
  {
    if gs == [] || gs[0].closesPass then 0 else 1 + FirstSplit(gs[1..])
  }

  /** The groups' rules cut after every group that closes its pass. */
  function Segments(gs: seq<Group>): (segs: seq<seq<Rule>>)
    ensures |segs| > 0
    decreases |gs|
  {
    var j := FirstSplit(gs);
    if j == |gs| then [RulesOf(gs)] else [RulesOf(gs[..j + 1])] + Segments(gs[j + 1..])
  }

  /** Every pass sorted. */
  function SortAll(segs: seq<seq<Rule>>): seq<seq<Rule>>
  {
    seq(|segs|, i requires 0 <= i < |segs| => SortPass(segs[i]))
  }

  /** The rules of a list of passes, pass after pass. */
  function Flatten(passes: seq<seq<Rule>>): seq<Rule>
  {
    if passes == [] then [] else passes[0] + Flatten(passes[1..])
  }

  /** The segments, with `sub` in front of the first one. */
  function PrependFirst(sub: seq<Rule>, segs: seq<seq<Rule>>): seq<seq<Rule>>
    requires |segs| > 0
  {
    [sub + segs[0]] + segs[1..]
  }

  /** A group that closes its pass makes a segment of its own rule. */
  lemma SegmentsOfSplit(gs: seq<Group>)
    requires gs != [] && gs[0].closesPass
    ensures Segments(gs) == [[gs[0].rule]] + Segments(gs[1..])
  {
    assert FirstSplit(gs) == 0;
    assert gs[..1][0] == gs[0] && gs[..1][1..] == [];
    assert RulesOf(gs[..1]) == [gs[0].rule] + RulesOf(gs[..1][1..]) == [gs[0].rule];
  }

  /** A group that does not close its pass joins the segment after it. */
  lemma SegmentsOfJoin(gs: seq<Group>)
    requires gs != [] && !gs[0].closesPass
    ensures Segments(gs) == PrependFirst([gs[0].rule], Segments(gs[1..]))
  {
    var rest := gs[1..];
    var j := FirstSplit(rest);
    assert FirstSplit(gs) == j + 1;
    if j < |rest| {
      assert gs[..j + 2][1..] == rest[..j + 1];
      assert gs[j + 2..] == rest[j + 1..];
    }
  }

  lemma PrependNothing(segs: seq<seq<Rule>>)
    requires |segs| > 0
    ensures PrependFirst([], segs) == segs
  {
    assert [] + segs[0] == segs[0];
    assert [segs[0]] + segs[1..] == segs;
  }

  lemma PrependTwice(sub: seq<Rule>, r: Rule, segs: seq<seq<Rule>>)
    requires |segs| > 0
    ensures PrependFirst(sub, PrependFirst([r], segs)) == PrependFirst(sub + [r], segs)
  {
    assert sub + ([r] + segs[0]) == (sub + [r]) + segs[0];
    assert PrependFirst([r], segs)[1..] == segs[1..];
  }

  lemma SortAllAppend(a: seq<seq<Rule>>, b: seq<seq<Rule>>)
    ensures SortAll(a + b) == SortAll(a) + SortAll(b)
  {
  }

  /** The last group: a pass in progress `sub` ends with its rule and is sorted. */
  lemma SegmentsOfLast(sub: seq<Rule>, r: Rule)
    ensures SortAll(PrependFirst(sub, Segments([Group(r, false)]))) == [SortPass(sub + [r])]
  {
    var gs := [Group(r, false)];
    SegmentsOfJoin(gs);
    assert gs[1..] == [];
    assert Segments(gs[1..]) == [[]];
    var none: seq<Rule> := [];
    assert [r] + none == [r] && [none][1..] == [];
    assert PrependFirst([r], [[]]) == [[r]];
    assert PrependFirst(sub, Segments(gs)) == [sub + [r]];
  }

  /** A group followed by a '|': the pass in progress ends with its rule, and the later groups start afresh. */
  lemma SegmentsAfterSplit(sub: seq<Rule>, r: Rule, rest: seq<Group>, done: seq<seq<Rule>>)
    ensures (done + [SortPass(sub + [r])]) + SortAll(PrependFirst([], Segments(rest)))
            == done + SortAll(PrependFirst(sub, Segments([Group(r, true)] + rest)))
  {
    var gs := [Group(r, true)] + rest;
    assert gs[1..] == rest;
    var later := Segments(rest);
    SegmentsOfSplit(gs);
    PrependNothing(later);
    assert PrependFirst(sub, Segments(gs)) == [sub + [r]] + later;
    SortAllAppend([sub + [r]], later);
    assert SortAll([sub + [r]]) == [SortPass(sub + [r])];
  }

  /** A group with no '|' after it: its rule joins the pass in progress. */
  lemma SegmentsAfterJoin(sub: seq<Rule>, r: Rule, rest: seq<Group>)
    ensures PrependFirst(sub + [r], Segments(rest)) == PrependFirst(sub, Segments([Group(r, false)] + rest))
  {
    var gs := [Group(r, false)] + rest;
    assert gs[1..] == rest;
    SegmentsOfJoin(gs);
    PrependTwice(sub, r, Segments(rest));
  }

  /** The chain of groups, one group at a time: the last group before no further '('. */
  lemma GroupsFromLast(s: string, read: Reader, index: nat, close: int, r: Rule)
    requires index < |s| && close == Parentheses.MatchingParenthesis(s, index) && close != -1
    requires read(GroupText(s, index, close)) == Some(r)
    requires RuleByRule.Find(s, "(", close + 1) == -1
    ensures GroupsFrom(s, read, index) == Ok([Group(r, false)])
  {
  }

  /** The chain of groups, one group at a time: a group followed by another. */
  lemma GroupsFromNext(s: string, read: Reader, index: nat, close: int, r: Rule, next: int)
    requires index < |s| && close == Parentheses.MatchingParenthesis(s, index) && close != -1
    requires read(GroupText(s, index, close)) == Some(r)
    requires next == RuleByRule.Find(s, "(", close + 1) && next != -1
    ensures GroupsFrom(s, read, index) == Cons(Group(r, FindWithin(s, "|", close + 1, next - 1) > -1), GroupsFrom(s, read, next))
  {
  }

  /**
   * From any group on, the loop returns the passes already closed followed by
   * the sorted segments of the groups still to read, with the pass in
   * progress in front of the first one; or the error of the first group that
   * cannot be read or is never closed.
   */
  lemma {:induction false} ParseFromGroups(s: string, read: Reader, index: nat, sub: seq<Rule>, done: seq<seq<Rule>>)
    requires index < |s|
    ensures GroupsFrom(s, read, index).Err? ==> ParseFrom(s, read, index, sub, done) == Err(GroupsFrom(s, read, index).error)
    ensures GroupsFrom(s, read, index).Ok? ==>
              ParseFrom(s, read, index, sub, done) == Ok(done + SortAll(PrependFirst(sub, Segments(GroupsFrom(s, read, index).value))))
    decreases |s| - index
  {
    var close := Parentheses.MatchingParenthesis(s, index);
    var rule := read(GroupText(s, index, close));
    if rule.Some? && close != -1 {
      var r := rule.value;
      var next := RuleByRule.Find(s, "(", close + 1);
      if next == -1 {
        GroupsFromLast(s, read, index, close, r);
        StepExtendsPass(s, read, index, sub, done, close, r, next);
        SegmentsOfLast(sub, r);
      } else {
        GroupsFromNext(s, read, index, close, r, next);
        if FindWithin(s, "|", close + 1, next - 1) > -1 {
          StepClosesPass(s, read, index, sub, done, close, r, next);
          ParseFromGroups(s, read, next, [], done + [SortPass(sub + [r])]);
          if GroupsFrom(s, read, next).Ok? {
            SegmentsAfterSplit(sub, r, GroupsFrom(s, read, next).value, done);
          }
        } else {
          StepExtendsPass(s, read, index, sub, done, close, r, next);
          ParseFromGroups(s, read, next, sub + [r], done);
          if GroupsFrom(s, read, next).Ok? {
            SegmentsAfterJoin(sub, r, GroupsFrom(s, read, next).value);
          }
        }
      }
    }
  }

  /**
   * The passes of a substitution string are the groups read along the
   * `find('(')` chain, cut after every group followed by a '|' in its window,
   * each cut sorted; an error is the first group's error.
   */
  lemma PassesFollowGroups(s: string, read: Reader)
    ensures GroupReads(s, read).Err? ==> ParsePasses(s, read) == Err(GroupReads(s, read).error)
    ensures GroupReads(s, read).Ok? ==> ParsePasses(s, read) == Ok(SortAll(Segments(GroupReads(s, read).value)))
  {
    var first := RuleByRule.Find(s, "(", 0);
    if first == -1 {
      assert GroupReads(s, read) == Ok([]);
      assert Segments([]) == [[]];
      assert SortAll([[]]) == [] + [SortPass([])];
    } else {
      ParseFromGroups(s, read, first, [], []);
      assert ParsePasses(s, read) == ParseFrom(s, read, first, [], []);
      if GroupsFrom(s, read, first).Ok? {
        var segs := Segments(GroupsFrom(s, read, first).value);
        PrependNothing(segs);
        assert [] + SortAll(segs) == SortAll(segs);
      }
    }
  }

  /** Cutting neither loses, repeats nor reorders a rule. */
  lemma {:induction false} SegmentsCover(gs: seq<Group>)
    ensures Flatten(Segments(gs)) == RulesOf(gs)
    decreases |gs|
  {
    if gs != [] {
      var r := gs[0].rule;
      var later := Segments(gs[1..]);
      SegmentsCover(gs[1..]);
      if gs[0].closesPass {
        SegmentsOfSplit(gs);
        assert ([[r]] + later)[1..] == later;
      } else {
        SegmentsOfJoin(gs);
        assert PrependFirst([r], later)[1..] == later[1..];
        assert Flatten(later) == later[0] + Flatten(later[1..]);
      }
    }
  }

  /** There is one pass more than there are '|' that close one. */
  lemma {:induction false} SegmentsCount(gs: seq<Group>)
    ensures |Segments(gs)| == Splits(gs) + 1
    decreases |gs|
  {
    if gs != [] {
      SegmentsCount(gs[1..]);
      if gs[0].closesPass {
        SegmentsOfSplit(gs);
      } else {
        SegmentsOfJoin(gs);
      }
    }
  }

  lemma {:induction false} SortAllPermutes(segs: seq<seq<Rule>>)
    ensures multiset(Flatten(SortAll(segs))) == multiset(Flatten(segs))
    decreases |segs|
  {
    if segs != [] {
      SortAllPermutes(segs[1..]);
      assert SortAll(segs)[1..] == SortAll(segs[1..]);
      SortPermutes(segs[0], PatternLength);
    }
  }

  /**
   * A string that parses holds exactly the rules read from its groups, spread
   * over one pass per '|' plus one; pass `i` is the `i`-th cut, sorted.
   */
  lemma PassesHoldTheGroups(s: string, read: Reader)
    requires ParsePasses(s, read).Ok?
    ensures GroupReads(s, read).Ok?
    ensures var gs := GroupReads(s, read).value; var ps := ParsePasses(s, read).value;
            && |ps| == |Segments(gs)| == Splits(gs) + 1
            && (forall i :: 0 <= i < |ps| ==> ps[i] == SortPass(Segments(gs)[i]))
            && multiset(Flatten(ps)) == multiset(RulesOf(gs))
  {
    PassesFollowGroups(s, read);
    var gs := GroupReads(s, read).value;
    SegmentsCount(gs);
    SegmentsCover(gs);
    SortAllPermutes(Segments(gs));
  }

  // ---------------------------------------------------------------------------
  // Examples: where a '|' starts a new pass
  // ---------------------------------------------------------------------------

  /** A pass of one rule is already sorted. */
  lemma SortSingle(r: Rule)
    ensures SortPass([r]) == [r]
  {
    assert SortByKeyDesc([r], PatternLength) == Insert(r, SortByKeyDesc([], PatternLength), PatternLength);
  }

  /** In `(a) | (bb)`, the first group is read and the '|' before the next group closes its pass. */
  lemma SpacedFirstGroup(s: string, read: Reader, a: Rule)
    requires Spells(s, "(a) | (bb)") && read(s[1..2]) == Some(a)
    ensures ParsePasses(s, read) == Continue(s, read, 6, [], [[a]])
  {
    RuleByRule.FindCharacter(s, "(", 0, 0);
    Parentheses.FlatGroupCloses(s, 0, 2);
    assert GroupText(s, 0, 2) == s[1..2];
    RuleByRule.FindCharacter(s, "(", 3, 6);
    RuleByRule.FindCharacter(s[..5], "|", 3, 4);
    StepClosesPass(s, read, 0, [], [], 2, a, 6);
    SortSingle(a);
    assert [] + [SortPass([] + [a])] == [[a]];
  }

  /** In `(a) | (bb)`, the second group is read and ends the string. */
  lemma SpacedSecondGroup(s: string, read: Reader, a: Rule, b: Rule)
    requires Spells(s, "(a) | (bb)") && read(s[7..9]) == Some(b)
    ensures Continue(s, read, 6, [], [[a]]) == Ok([[a], [b]])
  {
    Parentheses.FlatGroupCloses(s, 6, 9);
    assert GroupText(s, 6, 9) == s[7..9];
    StepExtendsPass(s, read, 6, [], [[a]], 9, b, -1);
    SortSingle(b);
    assert [[a]] + [SortPass([] + [b])] == [[a], [b]];
  }

  /** With a space on each side, `(a) | (bb)` is two passes. */
  lemma SpacedBarSplits(read: Reader, a: Rule, b: Rule)
    requires read("a") == Some(a) && read("bb") == Some(b)
    ensures ParsePasses("(a) | (bb)", read) == Ok([[a], [b]])
  {
    var s := "(a) | (bb)";
    assert s[1..2] == "a" && s[7..9] == "bb";
    SpacedFirstGroup(s, read, a);
    SpacedSecondGroup(s, read, a, b);
  }

  /** In `(a)|(bb)`, the first group is read and the '|' lies outside the searched window. */
  lemma TightFirstGroup(s: string, read: Reader, a: Rule)
    requires Spells(s, "(a)|(bb)") && read(s[1..2]) == Some(a)
    ensures ParsePasses(s, read) == Continue(s, read, 4, [a], [])
  {
    RuleByRule.FindCharacter(s, "(", 0, 0);
    Parentheses.FlatGroupCloses(s, 0, 2);
    assert GroupText(s, 0, 2) == s[1..2];
    RuleByRule.FindCharacter(s, "(", 3, 4);
    assert FindWithin(s, "|", 3, 3) == -1;
    StepExtendsPass(s, read, 0, [], [], 2, a, 4);
    assert [] + [a] == [a];
  }

  /** A one-character pattern sorts after a two-character one. */
  lemma SortTwo(a: Rule, b: Rule)
    requires |a.pattern| == 1 && |b.pattern| == 2
    ensures SortPass([a, b]) == [b, a]
  {
    assert [a, b][1..] == [b];
    SortSingle(b);
    assert Insert(a, [b], PatternLength) == [b] + Insert(a, [], PatternLength);
  }

  /** In `(a)|(bb)`, the second group joins the first one's pass, which is sorted. */
  lemma TightSecondGroup(s: string, read: Reader, a: Rule, b: Rule)
    requires Spells(s, "(a)|(bb)") && read(s[5..7]) == Some(b)
    requires |a.pattern| == 1 && |b.pattern| == 2
    ensures Continue(s, read, 4, [a], []) == Ok([[b, a]])
  {
    Parentheses.FlatGroupCloses(s, 4, 7);
    assert GroupText(s, 4, 7) == s[5..7];
    StepExtendsPass(s, read, 4, [a], [], 7, b, -1);
    SortTwo(a, b);
    assert [a] + [b] == [a, b];
    assert [] + [[b, a]] == [[b, a]];
  }

  /**
   * Written `(a)|(bb)`, the '|' sits just before the next '(' and lies
   * outside the searched window: one pass, sorted longest pattern first.
   */
  lemma TightBarDoesNotSplit(read: Reader, a: Rule, b: Rule)
    requires read("a") == Some(a) && read("bb") == Some(b)
    requires |a.pattern| == 1 && |b.pattern| == 2
    ensures ParsePasses("(a)|(bb)", read) == Ok([[b, a]])
  {
    var s := "(a)|(bb)";
    assert s[1..2] == "a" && s[5..7] == "bb";
    TightFirstGroup(s, read, a);
    TightSecondGroup(s, read, a, b);
  }
}
