/**
 * `substitute` of app/evaluation.py: rules are applied one after the other to
 * a work list of text pieces and placeholders. For each rule every remaining
 * text piece is cut at every (possibly overlapping) occurrence of the pattern,
 * and the rule's placeholder goes where each occurrence was; the new list is
 * kept only when it is at least as long as the old one. At the end every
 * placeholder is replaced by its rule's replacement and the list is joined.
 */
module RuleByRule {
  import opened Rules

  /** Python's `s.find(p, start)`: the first position from `start` on where `p` occurs, or -1. */
  function Find(s: string, p: string, start: nat): (r: int)
    ensures r == -1 || (start <= r && r + |p| <= |s|)
    decreases |s| + 1 - start
  {
    if start + |p| > |s| then -1
    else if StartsAt(s, p, start) then start
    else Find(s, p, start + 1)
  }

  /**
   * The positions the source collects with `find(p)` and then `find(p, i + 1)`:
   * every occurrence of `p` from `from` on, overlapping ones included, in order.
   */
  function Occurrences(s: string, p: string, from: nat): (locs: seq<nat>)
    decreases |s| + 1 - from
  {
    var i := Find(s, p, from);
    if i == -1 then [] else [i] + Occurrences(s, p, i + 1)
  }

  /** Occurrences counted from `from` are those counted from the first one on. */
  lemma {:induction false} FindIsFirstMatch(s: string, p: string, start: nat)
    ensures Find(s, p, start) == -1 <==> forall i :: start <= i ==> !StartsAt(s, p, i)
    ensures Find(s, p, start) != -1 ==> StartsAt(s, p, Find(s, p, start))
    ensures forall i :: start <= i && (Find(s, p, start) == -1 || i < Find(s, p, start)) ==> !StartsAt(s, p, i)
    decreases |s| + 1 - start
  {
    if start + |p| <= |s| && !StartsAt(s, p, start) {
      FindIsFirstMatch(s, p, start + 1);
    }
  }

  /** A one-character pattern is found at the first position from `start` that holds its character. */
  lemma FindCharacter(s: string, p: string, start: nat, k: nat)
    requires |p| == 1 && start <= k < |s| && s[k] == p[0]
    requires forall m :: start <= m < k ==> s[m] != p[0]
    ensures Find(s, p, start) == k
  {
    FindIsFirstMatch(s, p, start);
    assert StartsAt(s, p, k);
    forall m | start <= m < k
      ensures !StartsAt(s, p, m)
    {
      FirstCharacterDiffers(s, p, m);
    }
  }

  /** A one-character pattern whose character does not occur from `start` on is not found. */
  lemma NoCharacterFrom(s: string, p: string, start: nat)
    requires |p| == 1 && forall m :: start <= m < |s| ==> s[m] != p[0]
    ensures Find(s, p, start) == -1
  {
    FindIsFirstMatch(s, p, start);
    forall m | start <= m
      ensures !StartsAt(s, p, m)
    {
      if m < |s| {
        FirstCharacterDiffers(s, p, m);
      }
    }
  }

  lemma OccurrencesSkip(s: string, p: string, from: nat)
    requires Find(s, p, from) != -1
    ensures Find(s, p, Find(s, p, from)) == Find(s, p, from)
    ensures Occurrences(s, p, from) == Occurrences(s, p, Find(s, p, from))
  {
    FindIsFirstMatch(s, p, from);
  }

  /** The collected positions are exactly the occurrences from `from` on, in increasing order. */
  lemma {:induction false} OccurrencesAreAllMatches(s: string, p: string, from: nat)
    ensures forall m :: 0 <= m < |Occurrences(s, p, from)| ==>
              from <= Occurrences(s, p, from)[m] && StartsAt(s, p, Occurrences(s, p, from)[m])
    ensures forall m, n :: 0 <= m < n < |Occurrences(s, p, from)| ==>
              Occurrences(s, p, from)[m] < Occurrences(s, p, from)[n]
    ensures forall i :: from <= i && StartsAt(s, p, i) ==> i in Occurrences(s, p, from)
    decreases |s| + 1 - from
  {
    var i := Find(s, p, from);
    FindIsFirstMatch(s, p, from);
    if i != -1 {
      OccurrencesAreAllMatches(s, p, i + 1);
    }
  }

  /** Python's slice `s[lo:hi]` for bounds that are not negative: both are cut down to `|s|`, and it is empty unless `lo < hi`. */
  function Slice(s: string, lo: nat, hi: nat): string
  {
    if lo < hi && lo < |s| then s[lo..if hi < |s| then hi else |s|] else ""
  }

  /**
   * The pieces one text part is cut into by rule `k` at the positions
   * `locs[m..]`, continuing from position `j`: the text before each occurrence (only when
   * the occurrence is not at position 0), the placeholder, and finally the
   * text after the last occurrence when there is any.
   */
  function Cut(part: string, p: string, k: nat, locs: seq<nat>, m: nat, j: nat): (pieces: seq<Part>)
    requires m <= |locs|
    ensures |pieces| >= |locs| - m
    decreases |locs| - m
  {
    if m == |locs| then (if j < |part| then [Text(part[j..])] else [])
    else
      (if locs[m] > 0 then [Text(Slice(part, j, locs[m]))] else [])
      + [Slot(k)]
      + Cut(part, p, k, locs, m + 1, locs[m] + |p|)
  }

  /** What rule `k` with pattern `p` makes of one element of the work list. */
  function Image(part: Part, p: string, k: nat): (pieces: seq<Part>)
    ensures part.Slot? ==> pieces == [part]
  {
    match part
    case Slot(_) => [part]
    case Text(t) => TextImage(t, p, k, 1)
  }

  /**
   * The pieces of a text part: it is cut at all occurrences of `p`. The
   * definition takes one step of recursion on `d` (it is only ever called
   * with `d == 1`) so that the verifier expands a text's pieces where a proof
   * is about them, and not each time a work list is mentioned.
   */
  function TextImage(t: string, p: string, k: nat, d: nat): seq<Part>
    decreases d
  {
    if d == 0 then Cut(t, p, k, Occurrences(t, p, 0), 0, 0) else TextImage(t, p, k, d - 1)
  }

  /** The list `new_string` that rule `k` builds from the work list. */
  function StepParts(parts: seq<Part>, p: string, k: nat): (next: seq<Part>)
    ensures parts == [] ==> next == []
  {
    if parts == [] then []
    else StepParts(parts[..|parts| - 1], p, k) + Image(parts[|parts| - 1], p, k)
  }

  /** Rule `k` rewrites a list element by element. */
  lemma StepPartsPush(parts: seq<Part>, x: Part, p: string, k: nat)
    ensures StepParts(parts + [x], p, k) == StepParts(parts, p, k) + Image(x, p, k)
  {
    assert (parts + [x])[..|parts|] == parts;
  }

  /** Every placeholder that rule `k` puts in is its own. */
  predicate SlotsOf(pieces: seq<Part>, k: nat)
  {
    forall m :: 0 <= m < |pieces| && pieces[m].Slot? ==> pieces[m].rule == k
  }

  lemma {:induction false} CutPlacesOwnSlots(part: string, p: string, k: nat, locs: seq<nat>, m: nat, j: nat)
    requires m <= |locs|
    ensures SlotsOf(Cut(part, p, k, locs, m, j), k)
    decreases |locs| - m
  {
    if m < |locs| {
      CutPlacesOwnSlots(part, p, k, locs, m + 1, locs[m] + |p|);
    }
  }

  /** A text element becomes text and placeholders of rule `k`; a placeholder is kept as it is. */
  lemma ImagePlacesOwnSlots(part: Part, p: string, k: nat)
    ensures part.Text? ==> SlotsOf(Image(part, p, k), k)
  {
    if part.Text? {
      CutPlacesOwnSlots(part.text, p, k, Occurrences(part.text, p, 0), 0, 0);
    }
  }

  /** After rule `k`, every placeholder belongs to one of the first `k + 1` rules. */
  lemma {:induction false} StepKeepsSlotsBelow(parts: seq<Part>, p: string, k: nat)
    requires SlotsBelow(parts, k)
    ensures SlotsBelow(StepParts(parts, p, k), k + 1)
  {
    if parts != [] {
      var init := parts[..|parts| - 1];
      var last := parts[|parts| - 1];
      assert SlotsBelow(init, k);
      StepKeepsSlotsBelow(init, p, k);
      ImagePlacesOwnSlots(last, p, k);
      var image := Image(last, p, k);
      assert SlotsBelow(image, k + 1) by {
        if last.Slot? {
          assert last.rule < k;
        }
      }
    }
  }

  /**
   * The length guard of the source: the list rewritten for rule `k` replaces
   * the old one only when it is not shorter.
   */
  function GuardedStep(before: seq<Part>, p: string, k: nat): seq<Part>
  {
    var after := StepParts(before, p, k);
    if |after| >= |before| then after else before
  }

  /**
   * The work list after the first `n` rules. As with `TextImage`, the
   * definition sits one step of recursion on `d` away, in `AppliedAt`; a
   * proof that needs it calls `AppliedStart` or `AppliedUnfolds`.
   */
  function Applied(s: string, rules: seq<Rule>, n: nat): (parts: seq<Part>)
    requires n <= |rules|
    decreases n, 2
  {
    AppliedAt(s, rules, n, 1)
  }

  function AppliedAt(s: string, rules: seq<Rule>, n: nat, d: nat): (parts: seq<Part>)
    requires n <= |rules|
    decreases n, d
  {
    if d > 0 then AppliedAt(s, rules, n, d - 1)
    else if n == 0 then [Text(s)]
    else GuardedStep(Applied(s, rules, n - 1), rules[n - 1].pattern, n - 1)
  }

  lemma SamePatternAt(rules: seq<Rule>, other: seq<Rule>, k: nat)
    requires SamePatterns(rules, other) && k < |rules|
    ensures k < |other| && rules[k].pattern == other[k].pattern
  {
  }

  /** Before any rule, the work list is the whole string. */
  lemma AppliedStart(s: string, rules: seq<Rule>)
    ensures Applied(s, rules, 0) == [Text(s)]
  {
    assert Applied(s, rules, 0) == AppliedAt(s, rules, 0, 0);
  }

  /** One step of `Applied`, as an equation between terms. */
  lemma AppliedUnfolds(s: string, rules: seq<Rule>, n: nat)
    requires 0 < n <= |rules|
    ensures Applied(s, rules, n) == GuardedStep(Applied(s, rules, n - 1), rules[n - 1].pattern, n - 1)
  {
    assert Applied(s, rules, n) == AppliedAt(s, rules, n, 0);
  }

  /** After the first `n` rules, every placeholder belongs to one of them. */
  lemma {:induction false} AppliedSlotsBelow(s: string, rules: seq<Rule>, n: nat)
    requires n <= |rules|
    ensures SlotsBelow(Applied(s, rules, n), n)
    decreases n
  {
    if n == 0 {
      AppliedStart(s, rules);
    } else {
      AppliedUnfolds(s, rules, n);
      AppliedSlotsBelow(s, rules, n - 1);
      StepKeepsSlotsBelow(Applied(s, rules, n - 1), rules[n - 1].pattern, n - 1);
    }
  }

  /** The string `substitute(s, rules)` returns. */
  function RuleByRuleRewrite(s: string, rules: seq<Rule>): string
  {
    AppliedSlotsBelow(s, rules, |rules|);
    Expand(Applied(s, rules, |rules|), rules)
  }

  // ---------------------------------------------------------------------------
  // The loops of the source
  // ---------------------------------------------------------------------------

  /** The `while i > -1` loop collecting `substitution_locations`. */
  method FindAll(part: string, p: string) returns (locs: seq<nat>)
    ensures locs == Occurrences(part, p, 0)
  {
    locs := [];
    var i := Find(part, p, 0);
    if i != -1 {
      OccurrencesSkip(part, p, 0);
    }
    while i > -1
      invariant -1 <= i <= |part|
      invariant i == -1 ==> locs == Occurrences(part, p, 0)
      invariant i != -1 ==> Find(part, p, i) == i && locs + Occurrences(part, p, i) == Occurrences(part, p, 0)
      decreases if i == -1 then 0 else |part| + 2 - i
    {
      var from := i + 1;
      assert Occurrences(part, p, i) == [i] + Occurrences(part, p, from);
      AppendAssociates(locs, [i], Occurrences(part, p, from));
      locs := locs + [i];
      assert locs + Occurrences(part, p, from) == Occurrences(part, p, 0);
      i := Find(part, p, from);
      if i != -1 {
        OccurrencesSkip(part, p, from);
      } else {
        assert Occurrences(part, p, from) == [];
      }
    }
  }

  /** The `for i in substitution_locations` loop and the tail after it, for one text part. */
  method CutText(part: string, p: string, k: nat, locs: seq<nat>) returns (pieces: seq<Part>)
    ensures pieces == Cut(part, p, k, locs, 0, 0)
  {
    pieces := [];
    var j: nat := 0;
    for n := 0 to |locs|
      invariant pieces + Cut(part, p, k, locs, n, j) == Cut(part, p, k, locs, 0, 0)
    {
      var i := locs[n];
      if i > 0 {
        pieces := pieces + [Text(Slice(part, j, i))];
      }
      pieces := pieces + [Slot(k)];
      j := i + |p|;
    }
    if j < |part| {
      pieces := pieces + [Text(part[j..])];
    }
  }

  /** The work one text part gets from rule `k`: its occurrences are collected, then it is cut at them. */
  method SplitText(part: string, p: string, k: nat) returns (pieces: seq<Part>)
    ensures pieces == Image(Text(part), p, k)
  {
    var locs := FindAll(part, p);
    pieces := CutText(part, p, k, locs);
  }

  /** The `for part in string` loop for rule `k`. */
  method ApplyRule(parts: seq<Part>, p: string, k: nat) returns (next: seq<Part>)
    ensures next == StepParts(parts, p, k)
  {
    next := [];
    for m := 0 to |parts|
      invariant next == StepParts(parts[..m], p, k)
    {
      assert parts[..m + 1][..m] == parts[..m];
      if parts[m].Slot? {
        next := next + [parts[m]];
      } else {
        var pieces := SplitText(parts[m].text, p, k);
        next := next + pieces;
      }
    }
    assert parts[..|parts|] == parts;
  }

  /** app/evaluation.py `substitute` on a string. */
  method Substitute(s: string, rules: seq<Rule>) returns (r: string)
    ensures r == RuleByRuleRewrite(s, rules)
  {
    var parts := [Text(s)];
    AppliedStart(s, rules);
    for k := 0 to |rules|
      invariant parts == Applied(s, rules, k)
    {
      AppliedStep(s, rules, k + 1);
      var next := ApplyRule(parts, rules[k].pattern, k);
      if |next| >= |parts| {
        parts := next;
      }
    }
    AppliedSlotsBelow(s, rules, |rules|);
    r := FillPlaceholders(parts, rules);
  }

  // ---------------------------------------------------------------------------
  // Properties
  // ---------------------------------------------------------------------------

  /** Only the patterns decide where placeholders go. */
  lemma {:induction false} AppliedIgnoresReplacements(s: string, rules: seq<Rule>, other: seq<Rule>, n: nat)
    requires SamePatterns(rules, other) && n <= |rules|
    ensures Applied(s, rules, n) == Applied(s, other, n)
    decreases n
  {
    if n > 0 {
      AppliedIgnoresReplacements(s, rules, other, n - 1);
      SamePatternAt(rules, other, n - 1);
      AppliedUnfolds(s, rules, n);
      AppliedUnfolds(s, other, n);
    } else {
      AppliedStart(s, rules);
      AppliedStart(s, other);
    }
  }


  /**
   * Replacement texts are only spliced in at the end, so no rule ever finds
   * its pattern inside another rule's replacement: rewriting with any other
   * replacements is expanding the same work list.
   */
  lemma ReplacementsAreNotRescanned(s: string, rules: seq<Rule>, other: seq<Rule>)
    requires Patterns(rules) == Patterns(other)
    ensures SlotsBelow(Applied(s, rules, |rules|), |other|)
    ensures RuleByRuleRewrite(s, other) == Expand(Applied(s, rules, |rules|), other)
  {
    AppliedSlotsBelow(s, rules, |rules|);
    PatternsAgree(rules, other);
    AppliedIgnoresReplacements(s, rules, other, |rules|);
  }

  /** The rule indices of the placeholders in `parts` that belong to the first `n` rules, in order. */
  function EarlierSlots(parts: seq<Part>, n: nat): seq<nat>
  {
    if parts == [] then []
    else
      EarlierSlots(parts[..|parts| - 1], n)
      + (match parts[|parts| - 1]
         case Slot(r) => if r < n then [r] else []
         case Text(_) => [])
  }

  lemma {:induction false} EarlierSlotsAppend(a: seq<Part>, b: seq<Part>, n: nat)
    ensures EarlierSlots(a + b, n) == EarlierSlots(a, n) + EarlierSlots(b, n)
    decreases |b|
  {
    if b == [] {
      assert a + b == a;
    } else {
      assert (a + b)[..|a + b| - 1] == a + b[..|b| - 1];
      EarlierSlotsAppend(a, b[..|b| - 1], n);
    }
  }

  lemma {:induction false} NoEarlierSlots(parts: seq<Part>, n: nat)
    requires forall m :: 0 <= m < |parts| && parts[m].Slot? ==> parts[m].rule >= n
    ensures EarlierSlots(parts, n) == []
  {
    if parts != [] {
      NoEarlierSlots(parts[..|parts| - 1], n);
    }
  }

  /** A rule never removes, adds or reorders the placeholders of the rules before it. */
  lemma {:induction false} StepKeepsEarlierSlots(parts: seq<Part>, p: string, k: nat, n: nat)
    requires n <= k
    ensures EarlierSlots(StepParts(parts, p, k), n) == EarlierSlots(parts, n)
  {
    if parts != [] {
      var last := parts[|parts| - 1];
      StepKeepsEarlierSlots(parts[..|parts| - 1], p, k, n);
      EarlierSlotsAppend(StepParts(parts[..|parts| - 1], p, k), Image(last, p, k), n);
      if last.Slot? {
        assert EarlierSlots([last], n) == EarlierSlots(parts, n)[|EarlierSlots(parts[..|parts| - 1], n)|..];
      } else {
        ImagePlacesOwnSlots(last, p, k);
        NoEarlierSlots(Image(last, p, k), n);
      }
    }
  }

  /**
   * Once the first `n` rules have placed their placeholders, the later rules
   * leave exactly those placeholders, in the same order, in the work list.
   */
  lemma {:induction false} PlacedSlotsPersist(s: string, rules: seq<Rule>, n: nat, m: nat)
    requires n <= m <= |rules|
    ensures EarlierSlots(Applied(s, rules, m), n) == EarlierSlots(Applied(s, rules, n), n)
    decreases m
  {
    if m > n {
      PlacedSlotsPersist(s, rules, n, m - 1);
      AppliedKeepsEarlierSlots(s, rules, n, m);
    }
  }

  /** Rule `m - 1` keeps the placeholders of the first `n` rules, whether or not the length guard keeps its list. */
  lemma AppliedKeepsEarlierSlots(s: string, rules: seq<Rule>, n: nat, m: nat)
    requires n < m <= |rules|
    ensures EarlierSlots(Applied(s, rules, m), n) == EarlierSlots(Applied(s, rules, m - 1), n)
  {
    AppliedUnfolds(s, rules, m);
    GuardKeepsEarlierSlots(Applied(s, rules, m - 1), rules[m - 1].pattern, m - 1, n);
  }

  lemma GuardKeepsEarlierSlots(before: seq<Part>, p: string, k: nat, n: nat)
    requires n <= k
    ensures EarlierSlots(GuardedStep(before, p, k), n) == EarlierSlots(before, n)
  {
    StepKeepsEarlierSlots(before, p, k, n);
  }

  /** One step of `Applied`: rule `n - 1` rewrites the list, unless the length guard keeps the old one. */
  lemma AppliedStep(s: string, rules: seq<Rule>, n: nat)
    requires 0 < n <= |rules|
    ensures var before := Applied(s, rules, n - 1);
            var after := StepParts(before, rules[n - 1].pattern, n - 1);
            Applied(s, rules, n) == if |after| >= |before| then after else before
  {
    AppliedUnfolds(s, rules, n);
  }

  /** A rule applied to a text nobody has touched yet gives that text's image, unless the image is empty. */
  lemma TextStep(s: string, rules: seq<Rule>, n: nat)
    requires 0 < n <= |rules| && Applied(s, rules, n - 1) == [Text(s)]
    ensures var image := Image(Text(s), rules[n - 1].pattern, n - 1);
            Applied(s, rules, n) == if image == [] then [Text(s)] else image
  {
    AppliedStep(s, rules, n);
    assert [Text(s)][..0] == [];
  }

  /** A rule whose pattern is not found leaves a still untouched string as it is. */
  lemma RuleNotFoundKeepsText(s: string, rules: seq<Rule>, n: nat)
    requires 0 < n <= |rules| && Applied(s, rules, n - 1) == [Text(s)]
    requires Find(s, rules[n - 1].pattern, 0) == -1
    ensures Applied(s, rules, n) == [Text(s)]
  {
    TextStep(s, rules, n);
    assert Occurrences(s, rules[n - 1].pattern, 0) == [];
  }

  lemma {:induction false} AppliedWithoutOccurrence(s: string, rules: seq<Rule>, n: nat)
    requires n <= |rules|
    requires forall k :: 0 <= k < n ==> Find(s, rules[k].pattern, 0) == -1
    ensures Applied(s, rules, n) == [Text(s)]
    decreases n
  {
    if n > 0 {
      AppliedWithoutOccurrence(s, rules, n - 1);
      RuleNotFoundKeepsText(s, rules, n);
    }
  }

  /**
   * A string in which no pattern is found is returned unchanged (by
   * `FindIsFirstMatch`, -1 means the pattern starts nowhere in it).
   */
  lemma NoOccurrenceIsIdentity(s: string, rules: seq<Rule>)
    requires forall k :: 0 <= k < |rules| ==> Find(s, rules[k].pattern, 0) == -1
    ensures RuleByRuleRewrite(s, rules) == s
  {
    AppliedWithoutOccurrence(s, rules, |rules|);
    assert Expand([Text(s)], rules) == s + Expand([], rules);
  }

  // ---------------------------------------------------------------------------
  // Worked examples
  // ---------------------------------------------------------------------------

  /** A text that is exactly the pattern becomes the single placeholder of the rule. */
  lemma TextIsPattern(t: string, p: string, k: nat)
    requires StartsAt(t, p, 0) && |t| == |p| > 0
    ensures Image(Text(t), p, k) == [Slot(k)]
  {
    assert Find(t, p, 1) == -1;
    assert Occurrences(t, p, 0) == [0];
    assert [0][1..] == [];
  }

  /** A text that is exactly the pattern of rule `n - 1` becomes that rule's placeholder. */
  lemma WholeTextMatched(s: string, rules: seq<Rule>, n: nat)
    requires 0 < n <= |rules| && Applied(s, rules, n - 1) == [Text(s)]
    requires StartsAt(s, rules[n - 1].pattern, 0) && |s| == |rules[n - 1].pattern| > 0
    ensures Applied(s, rules, n) == [Slot(n - 1)]
  {
    TextIsPattern(s, rules[n - 1].pattern, n - 1);
    TextStep(s, rules, n);
  }

  /** Placeholders are passed through by every rule. */
  lemma {:induction false} SlotsPassThrough(parts: seq<Part>, p: string, k: nat)
    requires forall m :: 0 <= m < |parts| ==> parts[m].Slot?
    ensures StepParts(parts, p, k) == parts
  {
    if parts != [] {
      SlotsPassThrough(parts[..|parts| - 1], p, k);
    }
  }

  /** Once only placeholders are left, no later rule changes the work list. */
  lemma OnlySlotsLeft(s: string, rules: seq<Rule>, n: nat)
    requires n < |rules|
    requires forall m :: 0 <= m < |Applied(s, rules, n)| ==> Applied(s, rules, n)[m].Slot?
    ensures Applied(s, rules, n + 1) == Applied(s, rules, n)
  {
    SlotsPassThrough(Applied(s, rules, n), rules[n].pattern, n);
    AppliedStep(s, rules, n + 1);
  }

  /** A non-empty text in which `p` is not found is kept whole. */
  lemma UnfoundTextKept(t: string, p: string, k: nat)
    requires t != "" && Find(t, p, 0) == -1
    ensures Image(Text(t), p, k) == [Text(t)]
  {
    assert Occurrences(t, p, 0) == [];
    assert t[0..] == t;
  }

  /** A placeholder, or a non-empty text in which `p` is not found. */
  predicate Unfound(x: Part, p: string)
  {
    x.Slot? || (x.text != "" && Find(x.text, p, 0) == -1)
  }

  /** Placeholders, and non-empty texts in which `p` is not found, are passed through by the rule. */
  lemma {:induction false} UnfoundPatternKeepsParts(parts: seq<Part>, p: string, k: nat)
    requires forall m :: 0 <= m < |parts| ==> Unfound(parts[m], p)
    ensures StepParts(parts, p, k) == parts
  {
    if parts != [] {
      var init := parts[..|parts| - 1];
      var last := parts[|parts| - 1];
      UnfoundPatternKeepsParts(init, p, k);
      if last.Text? {
        UnfoundTextKept(last.text, p, k);
      }
      assert init + [last] == parts;
      StepPartsPush(init, last, p, k);
    }
  }

  /** The result, once the final work list is known. */
  lemma RewriteOf(s: string, rules: seq<Rule>, parts: seq<Part>)
    requires Applied(s, rules, |rules|) == parts
    ensures SlotsBelow(parts, |rules|)
    ensures RuleByRuleRewrite(s, rules) == Expand(parts, rules)
  {
    AppliedSlotsBelow(s, rules, |rules|);
  }

  lemma OverlappingImage(s: string)
    requires Spells(s, "aaa")
    ensures Image(Text(s), "aa", 0) == [Slot(0), Text(""), Slot(0)]
  {
    assert StartsAt(s, "aa", 0) && StartsAt(s, "aa", 1);
    assert Find(s, "aa", 2) == -1;
    assert Find(s, "aa", 1) == 1;
    assert Occurrences(s, "aa", 1) == [1];
    assert Occurrences(s, "aa", 0) == [0, 1];
    assert Slice(s, 2, 1) == "";
    assert Cut(s, "aa", 0, [0, 1], 1, 2) == [Text(""), Slot(0)];
  }

  lemma OverlappingOccurrencesOn(s: string)
    requires Spells(s, "aaa")
    ensures RuleByRuleRewrite(s, [Rule("aa", "X")]) == "XX"
  {
    var rules := [Rule("aa", "X")];
    OverlappingImage(s);
    TextStep(s, rules, 1);
    RewriteOf(s, rules, [Slot(0), Text(""), Slot(0)]);
  }

  /** Occurrences overlap: in "aaa" the pattern "aa" is found at 0 and at 1, giving "XX". */
  lemma OverlappingOccurrencesExample()
    ensures RuleByRuleRewrite("aaa", [Rule("aa", "X")]) == "XX"
  {
    OverlappingOccurrencesOn("aaa");
  }

  function QuirkRules(): seq<Rule>
  {
    [Rule("ab", "X"), Rule("c", "Y")]
  }

  lemma QuirkOccurrences(s: string)
    requires Spells(s, "ababc")
    ensures Occurrences(s, "ab", 0) == [0, 2]
  {
    assert StartsAt(s, "ab", 0) && StartsAt(s, "ab", 2);
    FirstCharacterDiffers(s, "ab", 1);
    FirstCharacterDiffers(s, "ab", 3);
    assert Find(s, "ab", 4) == -1;
    assert Find(s, "ab", 3) == -1;
    assert Find(s, "ab", 1) == 2;
    assert Occurrences(s, "ab", 3) == [];
    assert Occurrences(s, "ab", 1) == [2];
  }

  lemma QuirkFirstImage(s: string)
    requires Spells(s, "ababc")
    ensures Image(Text(s), "ab", 0) == [Slot(0), Text(""), Slot(0), Text(s[4..])]
  {
    QuirkOccurrences(s);
    assert Slice(s, 2, 2) == "";
    assert Cut(s, "ab", 0, [0, 2], 1, 2) == [Text(""), Slot(0), Text(s[4..])];
  }

  lemma QuirkSecondRule(t: string)
    requires Spells(t, "c")
    ensures StepParts([Slot(0), Text(""), Slot(0), Text(t)], "c", 1) == [Slot(0), Slot(0), Slot(1)]
  {
    assert Find("", "c", 0) == -1;
    assert Image(Text(""), "c", 1) == [];
    TextIsPattern(t, "c", 1);
    var parts := [Slot(0), Text(""), Slot(0)];
    assert parts[..2][..1][..0] == [];
    assert StepParts(parts, "c", 1) == [Slot(0), Slot(0)];
    StepPartsPush(parts, Text(t), "c", 1);
    assert parts + [Text(t)] == [Slot(0), Text(""), Slot(0), Text(t)];
  }

  lemma QuirkApplied(s: string)
    requires Spells(s, "ababc")
    ensures Applied(s, QuirkRules(), 2) == [Slot(0), Text(""), Slot(0), Text(s[4..])]
  {
    QuirkFirstImage(s);
    TextStep(s, QuirkRules(), 1);
    QuirkSecondRule(s[4..]);
    AppliedStep(s, QuirkRules(), 2);
  }

  lemma QuirkExpansion(t: string)
    requires Spells(t, "c")
    ensures Expand([Slot(0), Text(""), Slot(0), Text(t)], QuirkRules()) == "XXc"
  {
    var parts := [Slot(0), Text(""), Slot(0)];
    ExpandPushText(parts, t, QuirkRules());
    assert parts + [Text(t)] == [Slot(0), Text(""), Slot(0), Text(t)];
    assert t == "c";
  }

  lemma LengthGuardOn(s: string)
    requires Spells(s, "ababc")
    ensures RuleByRuleRewrite(s, QuirkRules()) == "XXc"
  {
    QuirkApplied(s);
    RewriteOf(s, QuirkRules(), [Slot(0), Text(""), Slot(0), Text(s[4..])]);
    QuirkExpansion(s[4..]);
  }

  /**
   * The length guard: the second rule turns four pieces into three (the empty
   * text between the two "ab" placeholders disappears), so its result is
   * thrown away and the "c" is never replaced.
   */
  lemma LengthGuardDropsRuleExample()
    ensures RuleByRuleRewrite("ababc", QuirkRules()) == "XXc"
  {
    LengthGuardOn("ababc");
  }

  /** The pass `('ab','e') ('a','d') ('c','e')`, longest pattern first. */
  function SharedPrefixRules(): seq<Rule>
  {
    [Rule("ab", "e"), Rule("a", "d"), Rule("c", "e")]
  }

  lemma SharedPrefixOnAb(s: string)
    requires Spells(s, "ab")
    ensures RuleByRuleRewrite(s, SharedPrefixRules()) == "e"
  {
    var rules := SharedPrefixRules();
    WholeTextMatched(s, rules, 1);
    OnlySlotsLeft(s, rules, 1);
    OnlySlotsLeft(s, rules, 2);
    RewriteOf(s, rules, [Slot(0)]);
  }

  /** Neither "ab" nor "a" is found in "c". */
  lemma OnlyCFound(s: string)
    requires Spells(s, "c")
    ensures Find(s, "ab", 0) == -1 && Find(s, "a", 0) == -1 && Find(s, "b", 0) == -1
  {
    FirstCharacterDiffers(s, "a", 0);
    FirstCharacterDiffers(s, "b", 0);
    assert Find(s, "a", 1) == -1;
    assert Find(s, "b", 1) == -1;
  }

  lemma SharedPrefixOnC(s: string)
    requires Spells(s, "c")
    ensures RuleByRuleRewrite(s, SharedPrefixRules()) == "e"
  {
    var rules := SharedPrefixRules();
    OnlyCFound(s);
    RuleNotFoundKeepsText(s, rules, 1);
    RuleNotFoundKeepsText(s, rules, 2);
    WholeTextMatched(s, rules, 3);
    RewriteOf(s, rules, [Slot(2)]);
  }

  /**
   * With `('ab','e')` sorted before `('a','d')`, the response "ab" and the
   * answer "c" both become "e".
   */
  lemma SharedPrefixExample()
    ensures RuleByRuleRewrite("ab", SharedPrefixRules()) == RuleByRuleRewrite("c", SharedPrefixRules()) == "e"
  {
    SharedPrefixOnAb("ab");
    SharedPrefixOnC("c");
  }

  /** The pass `('a','b') ('b','d') ('c','bd')`. */
  function ChainedRules(): seq<Rule>
  {
    [Rule("a", "b"), Rule("b", "d"), Rule("c", "bd")]
  }

  lemma ChainedFirstImage(s: string)
    requires Spells(s, "ab")
    ensures Image(Text(s), "a", 0) == [Slot(0), Text(s[1..])]
  {
    assert StartsAt(s, "a", 0);
    FirstCharacterDiffers(s, "a", 1);
    assert Find(s, "a", 1) == -1;
    assert Occurrences(s, "a", 0) == [0];
    assert [0][1..] == [];
  }

  lemma ChainedSecondStep(t: string)
    requires Spells(t, "b")
    ensures StepParts([Slot(0), Text(t)], "b", 1) == [Slot(0), Slot(1)]
  {
    TextIsPattern(t, "b", 1);
    StepPartsPush([Slot(0)], Text(t), "b", 1);
    assert [Slot(0)] + [Text(t)] == [Slot(0), Text(t)];
    SlotsPassThrough([Slot(0)], "b", 1);
  }

  lemma ChainedAbApplied(s: string)
    requires Spells(s, "ab")
    ensures Applied(s, ChainedRules(), 2) == [Slot(0), Slot(1)]
  {
    ChainedFirstImage(s);
    TextStep(s, ChainedRules(), 1);
    ChainedSecondStep(s[1..]);
    AppliedStep(s, ChainedRules(), 2);
  }

  lemma ChainedOnAb(s: string)
    requires Spells(s, "ab")
    ensures RuleByRuleRewrite(s, ChainedRules()) == "bd"
  {
    ChainedAbApplied(s);
    OnlySlotsLeft(s, ChainedRules(), 2);
    RewriteOf(s, ChainedRules(), [Slot(0), Slot(1)]);
  }

  lemma ChainedOnC(s: string)
    requires Spells(s, "c")
    ensures RuleByRuleRewrite(s, ChainedRules()) == "bd"
  {
    var rules := ChainedRules();
    OnlyCFound(s);
    RuleNotFoundKeepsText(s, rules, 1);
    RuleNotFoundKeepsText(s, rules, 2);
    WholeTextMatched(s, rules, 3);
    RewriteOf(s, rules, [Slot(2)]);
  }

  /**
   * The "b" that `('a','b')` puts in is not rewritten by `('b','d')`:
   * "ab" becomes "bd", the same as "c" does.
   */
  lemma ReplacementNotRescannedExample()
    ensures RuleByRuleRewrite("ab", ChainedRules()) == RuleByRuleRewrite("c", ChainedRules()) == "bd"
  {
    ChainedOnAb("ab");
    ChainedOnC("c");
  }

  /** The pass `('c','r') ('bc','q') ('abc','p')`, shortest pattern first. */
  function ShortestFirstRules(): seq<Rule>
  {
    [Rule("c", "r"), Rule("bc", "q"), Rule("abc", "p")]
  }

  lemma ShortestFirstOccurrences(s: string)
    requires Spells(s, "abc bc c")
    ensures Occurrences(s, "c", 0) == [2, 5, 7]
  {
    assert StartsAt(s, "c", 2) && StartsAt(s, "c", 5) && StartsAt(s, "c", 7);
    FirstCharacterDiffers(s, "c", 0);
    FirstCharacterDiffers(s, "c", 1);
    FirstCharacterDiffers(s, "c", 3);
    FirstCharacterDiffers(s, "c", 4);
    FirstCharacterDiffers(s, "c", 6);
    assert Find(s, "c", 8) == -1;
    assert Find(s, "c", 6) == 7;
    assert Find(s, "c", 4) == 5;
    assert Find(s, "c", 3) == 5;
    assert Find(s, "c", 1) == 2;
    assert Find(s, "c", 0) == 2;
    assert Occurrences(s, "c", 8) == [];
    assert Occurrences(s, "c", 6) == [7];
    assert Occurrences(s, "c", 3) == [5, 7];
  }

  /** The first rule cuts "abc bc c" at its three "c"s. */
  lemma ShortestFirstImage(s: string)
    requires Spells(s, "abc bc c")
    ensures Image(Text(s), "c", 0) == [Text(s[..2]), Slot(0), Text(s[3..5]), Slot(0), Text(s[6..7]), Slot(0)]
  {
    ShortestFirstOccurrences(s);
    var locs := [2, 5, 7];
    assert Slice(s, 0, 2) == s[..2] && Slice(s, 3, 5) == s[3..5] && Slice(s, 6, 7) == s[6..7];
    assert Cut(s, "c", 0, locs, 3, 8) == [];
    assert Cut(s, "c", 0, locs, 2, 6) == [Text(s[6..7]), Slot(0)];
    assert Cut(s, "c", 0, locs, 1, 3) == [Text(s[3..5]), Slot(0), Text(s[6..7]), Slot(0)];
  }

  /** A rule that changes nothing in the work list keeps it. */
  lemma UnchangedStep(s: string, rules: seq<Rule>, n: nat, parts: seq<Part>)
    requires 0 < n <= |rules| && Applied(s, rules, n - 1) == parts
    requires StepParts(parts, rules[n - 1].pattern, n - 1) == parts
    ensures Applied(s, rules, n) == parts
  {
    AppliedStep(s, rules, n);
  }

  /** Three texts in which `p` is not found, each followed by a placeholder, are kept by the rule. */
  lemma ThreeCutsKept(u: string, v: string, w: string, p: string, k: nat)
    requires u != "" && v != "" && w != ""
    requires Find(u, p, 0) == -1 && Find(v, p, 0) == -1 && Find(w, p, 0) == -1
    ensures StepParts([Text(u), Slot(0), Text(v), Slot(0), Text(w), Slot(0)], p, k)
              == [Text(u), Slot(0), Text(v), Slot(0), Text(w), Slot(0)]
  {
    UnfoundPatternKeepsParts([Text(u), Slot(0), Text(v), Slot(0), Text(w), Slot(0)], p, k);
  }

  /** Neither "bc" nor "abc" is found in the pieces "ab", " b" and " " that the first rule leaves. */
  lemma ShortestFirstPieces(u: string, v: string, w: string)
    requires Spells(u, "ab") && Spells(v, " b") && Spells(w, " ")
    ensures Find(u, "bc", 0) == -1 && Find(v, "bc", 0) == -1 && Find(w, "bc", 0) == -1
    ensures Find(u, "abc", 0) == -1 && Find(v, "abc", 0) == -1 && Find(w, "abc", 0) == -1
  {
    FirstCharacterDiffers(u, "bc", 0);
    FirstCharacterDiffers(v, "bc", 0);
  }

  /**
   * A string that the first of three rules cuts into three non-empty texts,
   * each followed by its placeholder, and in whose texts the other two
   * patterns are not found: the work list stays as the first rule left it.
   */
  lemma ThreeCutsApplied(s: string, rules: seq<Rule>, u: string, v: string, w: string)
    requires |rules| == 3 && u != "" && v != "" && w != ""
    requires Image(Text(s), rules[0].pattern, 0) == [Text(u), Slot(0), Text(v), Slot(0), Text(w), Slot(0)]
    requires Find(u, rules[1].pattern, 0) == -1 && Find(v, rules[1].pattern, 0) == -1 && Find(w, rules[1].pattern, 0) == -1
    requires Find(u, rules[2].pattern, 0) == -1 && Find(v, rules[2].pattern, 0) == -1 && Find(w, rules[2].pattern, 0) == -1
    ensures Applied(s, rules, 3) == [Text(u), Slot(0), Text(v), Slot(0), Text(w), Slot(0)]
  {
    AppliedStart(s, rules);
    TextStep(s, rules, 1);
    ThreeCutsKept(u, v, w, rules[1].pattern, 1);
    UnchangedStep(s, rules, 2, [Text(u), Slot(0), Text(v), Slot(0), Text(w), Slot(0)]);
    ThreeCutsKept(u, v, w, rules[2].pattern, 2);
    UnchangedStep(s, rules, 3, [Text(u), Slot(0), Text(v), Slot(0), Text(w), Slot(0)]);
  }

  /** A text followed by the first rule's placeholder expands to the text and that rule's replacement. */
  lemma TextThenFirstSlot(t: string, rules: seq<Rule>)
    requires |rules| > 0
    ensures SlotsBelow([Text(t), Slot(0)], |rules|)
    ensures Expand([Text(t), Slot(0)], rules) == t + rules[0].replacement
  {
    ExpandPushText([], t, rules);
    assert [] + [Text(t)] == [Text(t)];
    ExpandPushSlot([Text(t)], 0, rules);
    assert [Text(t)] + [Slot(0)] == [Text(t), Slot(0)];
  }

  lemma ExpandThree(a: seq<Part>, b: seq<Part>, c: seq<Part>, rules: seq<Rule>)
    requires SlotsBelow(a, |rules|) && SlotsBelow(b, |rules|) && SlotsBelow(c, |rules|)
    ensures SlotsBelow(a + b + c, |rules|)
    ensures Expand(a + b + c, rules) == Expand(a, rules) + Expand(b, rules) + Expand(c, rules)
  {
    ExpandAppend(a, b, rules);
    ExpandAppend(a + b, c, rules);
  }

  /** Three texts, each followed by the first rule's placeholder, as the whole work list. */
  lemma ThreeCutsRewrite(s: string, rules: seq<Rule>, u: string, v: string, w: string)
    requires |rules| > 0
    requires Applied(s, rules, |rules|) == [Text(u), Slot(0), Text(v), Slot(0), Text(w), Slot(0)]
    ensures var x := rules[0].replacement;
            RuleByRuleRewrite(s, rules) == u + x + v + x + w + x
  {
    var parts := [Text(u), Slot(0)] + [Text(v), Slot(0)] + [Text(w), Slot(0)];
    assert parts == [Text(u), Slot(0), Text(v), Slot(0), Text(w), Slot(0)];
    RewriteOf(s, rules, parts);
    TextThenFirstSlot(u, rules);
    TextThenFirstSlot(v, rules);
    TextThenFirstSlot(w, rules);
    ExpandThree([Text(u), Slot(0)], [Text(v), Slot(0)], [Text(w), Slot(0)], rules);
  }

  /** The pieces between the "c"s of "abc bc c". */
  lemma ShortestFirstGaps(s: string)
    requires Spells(s, "abc bc c")
    ensures Spells(s[..2], "ab") && Spells(s[3..5], " b") && Spells(s[6..7], " ")
  {
  }

  /** The pieces, each followed by "r". */
  lemma ShortestFirstResult(u: string, v: string, w: string)
    requires Spells(u, "ab") && Spells(v, " b") && Spells(w, " ")
    ensures u + "r" + v + "r" + w + "r" == "abr br r"
  {
    assert u == "ab" && v == " b" && w == " ";
  }

  lemma ShortestFirstOn(s: string)
    requires Spells(s, "abc bc c")
    ensures RuleByRuleRewrite(s, ShortestFirstRules()) == "abr br r"
  {
    var rules := ShortestFirstRules();
    var u, v, w := s[..2], s[3..5], s[6..7];
    ShortestFirstGaps(s);
    ShortestFirstImage(s);
    ShortestFirstPieces(u, v, w);
    ThreeCutsApplied(s, rules, u, v, w);
    ThreeCutsRewrite(s, rules, u, v, w);
    ShortestFirstResult(u, v, w);
  }

  /**
   * Earlier rules claim text first: with `('c','r')` first, every "c" becomes
   * a placeholder before `('bc','q')` and `('abc','p')` are tried, and they
   * find nothing left to match.
   */
  lemma EarlierRulesClaimTextExample()
    ensures RuleByRuleRewrite("abc bc c", ShortestFirstRules()) == "abr br r"
  {
    ShortestFirstOn("abc bc c");
  }
}
