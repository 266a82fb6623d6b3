/**
 * The single-scan substitution routine of app/expression_utilities.py and the
 * input-symbol normalisation built on it.
 *
 * One left-to-right scan: at each position the FIRST rule in list order whose
 * pattern starts there is taken and the scan jumps past the pattern; when no
 * rule starts there, one character is copied. Replacements are spliced in only
 * after the scan, so replacement text is never looked at again.
 */
module Scanner {
  import opened Wrappers
  import opened Rules
  import opened Sorting

  /** The scan only terminates when no pattern is empty: an empty pattern matches without advancing. */
  predicate NonEmptyPatterns(rules: seq<Rule>)
  {
    forall k :: 0 <= k < |rules| ==> rules[k].pattern != ""
  }

  function FirstMatchFrom(s: string, rules: seq<Rule>, i: nat, k: nat): (r: Option<nat>)
    requires k <= |rules|
    ensures r.Some? ==> k <= r.value < |rules| && i + |rules[r.value].pattern| <= |s|
    decreases |rules| - k
  {
    if k == |rules| then None
    else if StartsAt(s, rules[k].pattern, i) then Some(k)
    else FirstMatchFrom(s, rules, i, k + 1)
  }

  /** The index of the first rule, in list order, whose pattern starts `s` at position `i`. */
  function FirstMatch(s: string, rules: seq<Rule>, i: nat): (r: Option<nat>)
    ensures r.Some? ==> r.value < |rules| && i + |rules[r.value].pattern| <= |s|
  {
    FirstMatchFrom(s, rules, i, 0)
  }

  lemma {:induction false} FirstMatchFromIsFirst(s: string, rules: seq<Rule>, i: nat, k: nat)
    requires k <= |rules|
    ensures FirstMatchFrom(s, rules, i, k).Some? ==>
              StartsAt(s, rules[FirstMatchFrom(s, rules, i, k).value].pattern, i)
              && forall j :: k <= j < FirstMatchFrom(s, rules, i, k).value ==> !StartsAt(s, rules[j].pattern, i)
    ensures FirstMatchFrom(s, rules, i, k).None? ==> forall j :: k <= j < |rules| ==> !StartsAt(s, rules[j].pattern, i)
    decreases |rules| - k
  {
    if k < |rules| && !StartsAt(s, rules[k].pattern, i) {
      FirstMatchFromIsFirst(s, rules, i, k + 1);
    }
  }

  /** The rule found starts at `i`, and no rule before it in list order does. */
  lemma FirstMatchIsFirst(s: string, rules: seq<Rule>, i: nat)
    ensures FirstMatch(s, rules, i).Some? ==>
              StartsAt(s, rules[FirstMatch(s, rules, i).value].pattern, i)
              && forall j :: 0 <= j < FirstMatch(s, rules, i).value ==> !StartsAt(s, rules[j].pattern, i)
    ensures FirstMatch(s, rules, i).None? ==> forall j :: 0 <= j < |rules| ==> !StartsAt(s, rules[j].pattern, i)
  {
    FirstMatchFromIsFirst(s, rules, i, 0);
  }

  /** Rule `k` is the one found exactly when it starts at `i` and no earlier rule does. */
  lemma FirstMatchIs(s: string, rules: seq<Rule>, i: nat, k: nat)
    ensures FirstMatch(s, rules, i) == Some(k)
            <==> k < |rules| && StartsAt(s, rules[k].pattern, i)
                 && forall j :: 0 <= j < k ==> !StartsAt(s, rules[j].pattern, i)
  {
    FirstMatchIsFirst(s, rules, i);
  }

  /** No rule is found exactly when no pattern starts at `i`. */
  lemma NoFirstMatch(s: string, rules: seq<Rule>, i: nat)
    ensures FirstMatch(s, rules, i) == None <==> forall j :: 0 <= j < |rules| ==> !StartsAt(s, rules[j].pattern, i)
  {
    FirstMatchIsFirst(s, rules, i);
  }

  /** One decision of the scan: copy a character, or apply rule `k`. */
  datatype Token = Copy(c: char) | Apply(k: nat)

  predicate TokensBelow(ts: seq<Token>, n: nat)
  {
    forall m :: 0 <= m < |ts| && ts[m].Apply? ==> ts[m].k < n
  }

  /** The decisions the scan makes from position `i` to the end of `s`. */
  function Scan(s: string, rules: seq<Rule>, i: nat): (ts: seq<Token>)
    requires NonEmptyPatterns(rules) && i <= |s|
    ensures TokensBelow(ts, |rules|)
    decreases |s| - i
  {
    if i == |s| then []
    else
      match FirstMatch(s, rules, i)
      case Some(k) => [Apply(k)] + Scan(s, rules, i + |rules[k].pattern|)
      case None => [Copy(s[i])] + Scan(s, rules, i + 1)
  }

  function Tokens(s: string, rules: seq<Rule>): (ts: seq<Token>)
    requires NonEmptyPatterns(rules)
    ensures TokensBelow(ts, |rules|)
  {
    Scan(s, rules, 0)
  }

  /** The text a token sequence produces: copied characters and the replacements of applied rules. */
  function Output(ts: seq<Token>, rules: seq<Rule>): string
    requires TokensBelow(ts, |rules|)
  {
    if ts == [] then ""
    else
      (match ts[0]
       case Copy(c) => [c]
       case Apply(k) => rules[k].replacement)
      + Output(ts[1..], rules)
  }

  /** The text a token sequence consumed: copied characters and the patterns of applied rules. */
  function Input(ts: seq<Token>, rules: seq<Rule>): string
    requires TokensBelow(ts, |rules|)
  {
    if ts == [] then ""
    else
      (match ts[0]
       case Copy(c) => [c]
       case Apply(k) => rules[k].pattern)
      + Input(ts[1..], rules)
  }

  /** What the scan emits from position `i` on. */
  function RewriteFrom(s: string, rules: seq<Rule>, i: nat): string
    requires NonEmptyPatterns(rules) && i <= |s|
    decreases |s| - i
  {
    if i == |s| then ""
    else
      match FirstMatch(s, rules, i)
      case Some(k) => rules[k].replacement + RewriteFrom(s, rules, i + |rules[k].pattern|)
      case None => [s[i]] + RewriteFrom(s, rules, i + 1)
  }

  /** What `substitute(s, rules)` returns. */
  function Rewrite(s: string, rules: seq<Rule>): string
    requires NonEmptyPatterns(rules)
  {
    RewriteFrom(s, rules, 0)
  }

  /** The inner loop of `substitute`: try the rules in list order and stop at the first whose pattern starts at `index`. */
  method FindRuleAt(s: string, rules: seq<Rule>, index: nat) returns (found: Option<nat>)
    ensures found == FirstMatch(s, rules, index)
  {
    var k := 0;
    while k < |rules|
      invariant k <= |rules|
      invariant forall j :: 0 <= j < k ==> !StartsAt(s, rules[j].pattern, index)
    {
      if StartsAt(s, rules[k].pattern, index) {
        FirstMatchIs(s, rules, index, k);
        return Some(k);
      }
      k := k + 1;
    }
    NoFirstMatch(s, rules, index);
    return None;
  }

  /** Flushing a non-empty buffer and then placing rule `k` adds the buffer and the rule's replacement to the expansion. */
  lemma FlushThenPlace(parts: seq<Part>, buffer: string, k: nat, rules: seq<Rule>)
    requires SlotsBelow(parts, |rules|) && k < |rules|
    ensures SlotsBelow((if |buffer| > 0 then parts + [Text(buffer)] else parts) + [Slot(k)], |rules|)
    ensures Expand((if |buffer| > 0 then parts + [Text(buffer)] else parts) + [Slot(k)], rules)
            == Expand(parts, rules) + buffer + rules[k].replacement
  {
    if |buffer| > 0 {
      ExpandPushText(parts, buffer, rules);
      ExpandPushSlot(parts + [Text(buffer)], k, rules);
    } else {
      assert buffer == [];
      assert Expand(parts, rules) + buffer == Expand(parts, rules);
      ExpandPushSlot(parts, k, rules);
    }
  }

  /**
   * The scan loop of `substitute`: literal characters gather in a buffer that is
   * flushed as text whenever a rule matches; a match leaves the rule's index as a
   * placeholder.
   */
  method ScanParts(s: string, rules: seq<Rule>) returns (parts: seq<Part>)
    requires NonEmptyPatterns(rules)
    ensures SlotsBelow(parts, |rules|)
    ensures Expand(parts, rules) == Rewrite(s, rules)
  {
    parts := [];
    var index := 0;
    var buffer := "";
    ghost var emitted := "";
    while index < |s|
      invariant index <= |s|
      invariant SlotsBelow(parts, |rules|)
      invariant Expand(parts, rules) + buffer == emitted
      invariant emitted + RewriteFrom(s, rules, index) == Rewrite(s, rules)
      decreases |s| - index
    {
      var found := FindRuleAt(s, rules, index);
      if found.Some? {
        var k := found.value;
        ghost var later := RewriteFrom(s, rules, index + |rules[k].pattern|);
        assert emitted + (rules[k].replacement + later) == Rewrite(s, rules);
        FlushThenPlace(parts, buffer, k, rules);
        if |buffer| > 0 {
          parts := parts + [Text(buffer)];
          buffer := "";
        }
        parts := parts + [Slot(k)];
        AppendAssociates(emitted, rules[k].replacement, later);
        emitted := emitted + rules[k].replacement;
        index := index + |rules[k].pattern|;
        assert Expand(parts, rules) + buffer == emitted;
        assert emitted + RewriteFrom(s, rules, index) == Rewrite(s, rules);
      } else {
        AppendAssociates(emitted, [s[index]], RewriteFrom(s, rules, index + 1));
        AppendAssociates(Expand(parts, rules), buffer, [s[index]]);
        emitted := emitted + [s[index]];
        buffer := buffer + [s[index]];
        index := index + 1;
      }
    }
    if |buffer| > 0 {
      ExpandPushText(parts, buffer, rules);
      parts := parts + [Text(buffer)];
    }
  }

  /**
   * app/expression_utilities.py `substitute` on a string: the scan, then the
   * in-place splice of each placeholder's replacement, then the join.
   */
  method Substitute(s: string, rules: seq<Rule>) returns (r: string)
    requires NonEmptyPatterns(rules)
    ensures r == Rewrite(s, rules)
  {
    var parts := ScanParts(s, rules);
    r := FillPlaceholders(parts, rules);
  }

  // ---------------------------------------------------------------------------
  // Properties of the scan
  // ---------------------------------------------------------------------------

  /** One step of the scan where rule `k` is the first to match at `i`. */
  lemma ScanApplies(s: string, rules: seq<Rule>, i: nat, k: nat)
    requires NonEmptyPatterns(rules) && i < |s| && FirstMatch(s, rules, i) == Some(k)
    ensures k < |rules| && i + |rules[k].pattern| <= |s|
    ensures Scan(s, rules, i) == [Apply(k)] + Scan(s, rules, i + |rules[k].pattern|)
  {
  }

  /** One step of the scan where no rule matches at `i`. */
  lemma ScanCopies(s: string, rules: seq<Rule>, i: nat)
    requires NonEmptyPatterns(rules) && i < |s| && FirstMatch(s, rules, i) == None
    ensures Scan(s, rules, i) == [Copy(s[i])] + Scan(s, rules, i + 1)
  {
  }

  /** One step of the rewrite where rule `k` is the first to match at `i`. */
  lemma RewriteApplies(s: string, rules: seq<Rule>, i: nat, k: nat)
    requires NonEmptyPatterns(rules) && i < |s| && FirstMatch(s, rules, i) == Some(k)
    ensures k < |rules| && i + |rules[k].pattern| <= |s|
    ensures RewriteFrom(s, rules, i) == rules[k].replacement + RewriteFrom(s, rules, i + |rules[k].pattern|)
  {
  }

  /** One step of the rewrite where no rule matches at `i`. */
  lemma RewriteCopies(s: string, rules: seq<Rule>, i: nat)
    requires NonEmptyPatterns(rules) && i < |s| && FirstMatch(s, rules, i) == None
    ensures RewriteFrom(s, rules, i) == [s[i]] + RewriteFrom(s, rules, i + 1)
  {
  }

  /** Output and Input of an applied rule followed by more tokens. */
  lemma TextsOfApply(k: nat, ts: seq<Token>, rules: seq<Rule>)
    requires k < |rules| && TokensBelow(ts, |rules|)
    ensures TokensBelow([Apply(k)] + ts, |rules|)
    ensures Output([Apply(k)] + ts, rules) == rules[k].replacement + Output(ts, rules)
    ensures Input([Apply(k)] + ts, rules) == rules[k].pattern + Input(ts, rules)
  {
    assert ([Apply(k)] + ts)[1..] == ts;
  }

  /** Output and Input of a copied character followed by more tokens. */
  lemma TextsOfCopy(c: char, ts: seq<Token>, rules: seq<Rule>)
    requires TokensBelow(ts, |rules|)
    ensures TokensBelow([Copy(c)] + ts, |rules|)
    ensures Output([Copy(c)] + ts, rules) == [c] + Output(ts, rules)
    ensures Input([Copy(c)] + ts, rules) == [c] + Input(ts, rules)
  {
    assert ([Copy(c)] + ts)[1..] == ts;
  }

  lemma {:induction false} ScanOutputIsRewrite(s: string, rules: seq<Rule>, i: nat)
    requires NonEmptyPatterns(rules) && i <= |s|
    ensures Output(Scan(s, rules, i), rules) == RewriteFrom(s, rules, i)
    decreases |s| - i
  {
    if i < |s| {
      match FirstMatch(s, rules, i)
      case Some(k) =>
        ScanApplies(s, rules, i, k);
        RewriteApplies(s, rules, i, k);
        var next := i + |rules[k].pattern|;
        ScanOutputIsRewrite(s, rules, next);
        TextsOfApply(k, Scan(s, rules, next), rules);
      case None =>
        ScanCopies(s, rules, i);
        RewriteCopies(s, rules, i);
        ScanOutputIsRewrite(s, rules, i + 1);
        TextsOfCopy(s[i], Scan(s, rules, i + 1), rules);
    }
  }

  /** Where rule `k` is the first to match, the rest of the text starts with its pattern. */
  lemma MatchedText(s: string, rules: seq<Rule>, i: nat, k: nat)
    requires NonEmptyPatterns(rules) && i < |s| && FirstMatch(s, rules, i) == Some(k)
    ensures s[i..] == rules[k].pattern + s[i + |rules[k].pattern|..]
  {
    FirstMatchIsFirst(s, rules, i);
    var next := i + |rules[k].pattern|;
    assert s[i..next] == rules[k].pattern;
    assert s[i..] == s[i..next] + s[next..];
  }

  lemma {:induction false} ScanInputIsText(s: string, rules: seq<Rule>, i: nat)
    requires NonEmptyPatterns(rules) && i <= |s|
    ensures Input(Scan(s, rules, i), rules) == s[i..]
    decreases |s| - i
  {
    if i < |s| {
      match FirstMatch(s, rules, i)
      case Some(k) =>
        ScanApplies(s, rules, i, k);
        MatchedText(s, rules, i, k);
        var next := i + |rules[k].pattern|;
        ScanInputIsText(s, rules, next);
        TextsOfApply(k, Scan(s, rules, next), rules);
      case None =>
        ScanCopies(s, rules, i);
        ScanInputIsText(s, rules, i + 1);
        TextsOfCopy(s[i], Scan(s, rules, i + 1), rules);
        assert s[i..] == [s[i]] + s[i + 1..];
    }
  }

  /**
   * The output is the in-order concatenation of the copied characters and the
   * replacements of the applied rules, and the input is the same concatenation
   * with the rules' patterns in place of their replacements.
   */
  lemma ScanAccountsForBothTexts(s: string, rules: seq<Rule>, i: nat)
    requires NonEmptyPatterns(rules) && i <= |s|
    ensures Output(Scan(s, rules, i), rules) == RewriteFrom(s, rules, i)
    ensures Input(Scan(s, rules, i), rules) == s[i..]
  {
    ScanOutputIsRewrite(s, rules, i);
    ScanInputIsText(s, rules, i);
  }

  lemma TokensAccountForBothTexts(s: string, rules: seq<Rule>)
    requires NonEmptyPatterns(rules)
    ensures Output(Tokens(s, rules), rules) == Rewrite(s, rules)
    ensures Input(Tokens(s, rules), rules) == s
  {
    ScanAccountsForBothTexts(s, rules, 0);
  }

  lemma {:induction false} FirstMatchFromIgnoresReplacements(s: string, rules: seq<Rule>, other: seq<Rule>, i: nat, k: nat)
    requires SamePatterns(rules, other) && k <= |rules|
    ensures FirstMatchFrom(s, rules, i, k) == FirstMatchFrom(s, other, i, k)
    decreases |rules| - k
  {
    if k < |rules| {
      assert rules[k].pattern == other[k].pattern;
      FirstMatchFromIgnoresReplacements(s, rules, other, i, k + 1);
    }
  }

  lemma SamePatternsNonEmpty(rules: seq<Rule>, other: seq<Rule>)
    requires NonEmptyPatterns(rules) && SamePatterns(rules, other)
    ensures NonEmptyPatterns(other)
  {
    forall k | 0 <= k < |other|
      ensures other[k].pattern != ""
    {
      assert rules[k].pattern == other[k].pattern;
    }
  }

  /** Which rules apply where depends on the patterns alone, never on the replacement texts. */
  lemma {:induction false} ScanIgnoresReplacements(s: string, rules: seq<Rule>, other: seq<Rule>, i: nat)
    requires NonEmptyPatterns(rules) && i <= |s|
    requires SamePatterns(rules, other)
    ensures NonEmptyPatterns(other)
    ensures Scan(s, rules, i) == Scan(s, other, i)
    decreases |s| - i
  {
    SamePatternsNonEmpty(rules, other);
    if i < |s| {
      FirstMatchFromIgnoresReplacements(s, rules, other, i, 0);
      match FirstMatch(s, rules, i)
      case Some(k) =>
        ScanApplies(s, rules, i, k);
        ScanApplies(s, other, i, k);
        assert rules[k].pattern == other[k].pattern;
        ScanIgnoresReplacements(s, rules, other, i + |rules[k].pattern|);
      case None =>
        ScanCopies(s, rules, i);
        ScanCopies(s, other, i);
        ScanIgnoresReplacements(s, rules, other, i + 1);
    }
  }

  /**
   * Replacement text is never rescanned: rewriting with other replacement texts
   * for the same patterns plugs those texts into exactly the same decisions.
   */
  lemma ReplacementsAreNotRescanned(s: string, rules: seq<Rule>, other: seq<Rule>)
    requires NonEmptyPatterns(rules)
    requires Patterns(rules) == Patterns(other)
    ensures NonEmptyPatterns(other)
    ensures Rewrite(s, other) == Output(Tokens(s, rules), other)
  {
    PatternsAgree(rules, other);
    ScanIgnoresReplacements(s, rules, other, 0);
    TokensAccountForBothTexts(s, other);
  }

  lemma {:induction false} NothingMatchesFrom(s: string, rules: seq<Rule>, i: nat)
    requires NonEmptyPatterns(rules) && i <= |s|
    requires forall j, k :: i <= j < |s| && 0 <= k < |rules| ==> !StartsAt(s, rules[k].pattern, j)
    ensures RewriteFrom(s, rules, i) == s[i..]
    decreases |s| - i
  {
    if i < |s| {
      NoFirstMatch(s, rules, i);
      NothingMatchesFrom(s, rules, i + 1);
      assert s[i..] == [s[i]] + s[i + 1..];
    }
  }

  /** When no pattern starts at any position, the string comes back unchanged. */
  lemma NoMatchIsIdentity(s: string, rules: seq<Rule>)
    requires NonEmptyPatterns(rules)
    requires forall j, k :: 0 <= j < |s| && 0 <= k < |rules| ==> !StartsAt(s, rules[k].pattern, j)
    ensures Rewrite(s, rules) == s
  {
    NothingMatchesFrom(s, rules, 0);
  }

  /** An empty rule list is the identity. */
  lemma EmptyRuleListIsIdentity(s: string)
    ensures Rewrite(s, []) == s
  {
    NoMatchIsIdentity(s, []);
  }

  lemma StartsAtShifts(s: string, p: string, i: nat, j: nat)
    requires i <= |s|
    ensures StartsAt(s, p, i + j) == StartsAt(s[i..], p, j)
  {
    if j + |p| <= |s[i..]| {
      assert s[i + j..i + j + |p|] == s[i..][j..j + |p|];
    }
  }

  lemma {:induction false} FirstMatchFromShifts(s: string, rules: seq<Rule>, i: nat, j: nat, k: nat)
    requires i <= |s| && k <= |rules|
    ensures FirstMatchFrom(s, rules, i + j, k) == FirstMatchFrom(s[i..], rules, j, k)
    decreases |rules| - k
  {
    if k < |rules| {
      StartsAtShifts(s, rules[k].pattern, i, j);
      FirstMatchFromShifts(s, rules, i, j, k + 1);
    }
  }

  lemma FirstMatchShifts(s: string, rules: seq<Rule>, i: nat, j: nat)
    requires i <= |s|
    ensures FirstMatch(s, rules, i + j) == FirstMatch(s[i..], rules, j)
  {
    FirstMatchFromShifts(s, rules, i, j, 0);
  }

  /** One step of the rewrite is the same on `s` from `i + j` and on `s[i..]` from `j`. */
  lemma ShiftedStep(s: string, rules: seq<Rule>, i: nat, j: nat) returns (w: string, n: nat)
    requires NonEmptyPatterns(rules) && i + j < |s|
    ensures 0 < n && i + j + n <= |s|
    ensures RewriteFrom(s, rules, i + j) == w + RewriteFrom(s, rules, i + j + n)
    ensures RewriteFrom(s[i..], rules, j) == w + RewriteFrom(s[i..], rules, j + n)
  {
    FirstMatchShifts(s, rules, i, j);
    match FirstMatch(s, rules, i + j)
    case Some(k) =>
      RewriteApplies(s, rules, i + j, k);
      RewriteApplies(s[i..], rules, j, k);
      w, n := rules[k].replacement, |rules[k].pattern|;
    case None =>
      RewriteCopies(s, rules, i + j);
      RewriteCopies(s[i..], rules, j);
      w, n := [s[i + j]], 1;
  }

  lemma {:induction false} RewriteFromShifts(s: string, rules: seq<Rule>, i: nat, j: nat)
    requires NonEmptyPatterns(rules) && i + j <= |s|
    ensures RewriteFrom(s, rules, i + j) == RewriteFrom(s[i..], rules, j)
    decreases |s| - i - j
  {
    if i + j < |s| {
      var w, n := ShiftedStep(s, rules, i, j);
      RewriteFromShifts(s, rules, i, j + n);
    }
  }

  /**
   * First-match priority: when rule `k` is the first rule in list order whose
   * pattern starts the string, its replacement comes first and the scan goes on
   * after the pattern.
   */
  lemma FirstMatchingRuleApplies(s: string, rules: seq<Rule>, k: nat)
    requires NonEmptyPatterns(rules) && k < |rules|
    requires StartsAt(s, rules[k].pattern, 0)
    requires forall j :: 0 <= j < k ==> !StartsAt(s, rules[j].pattern, 0)
    ensures Rewrite(s, rules) == rules[k].replacement + Rewrite(s[|rules[k].pattern|..], rules)
  {
    FirstMatchIs(s, rules, 0, k);
    RewriteFromShifts(s, rules, |rules[k].pattern|, 0);
  }

  /** When no rule starts the string, its first character is copied and the scan goes on after it. */
  lemma UnmatchedCharacterIsCopied(s: string, rules: seq<Rule>)
    requires NonEmptyPatterns(rules) && s != ""
    requires forall k :: 0 <= k < |rules| ==> !StartsAt(s, rules[k].pattern, 0)
    ensures Rewrite(s, rules) == [s[0]] + Rewrite(s[1..], rules)
  {
    NoFirstMatch(s, rules, 0);
    RewriteFromShifts(s, rules, 1, 0);
  }

  /** An empty pattern matches at every position and moves the scan forward by nothing, so the loop never ends. */
  lemma EmptyPatternDoesNotAdvance(s: string, rules: seq<Rule>, i: nat)
    requires i <= |s| && |rules| > 0 && rules[0].pattern == ""
    ensures FirstMatch(s, rules, i) == Some(0)
    ensures i + |rules[FirstMatch(s, rules, i).value].pattern| == i
  {
    assert StartsAt(s, rules[0].pattern, i);
    FirstMatchIs(s, rules, i, 0);
  }

  /**
   * Whether the source's `while index < len(part)` loop ends when started at
   * position `i`: it stalls exactly when the scan reaches a position whose
   * first matching rule has an empty pattern.
   */
  predicate ScanEnds(s: string, rules: seq<Rule>, i: nat)
    requires i <= |s|
    decreases |s| - i
  {
    if i == |s| then true
    else
      match FirstMatch(s, rules, i)
      case Some(k) => rules[k].pattern != "" && ScanEnds(s, rules, i + |rules[k].pattern|)
      case None => ScanEnds(s, rules, i + 1)
  }

  /** Without empty patterns the loop always ends: this is the case the rewrite above is defined for. */
  lemma {:induction false} NonEmptyPatternsEnd(s: string, rules: seq<Rule>, i: nat)
    requires NonEmptyPatterns(rules) && i <= |s|
    ensures ScanEnds(s, rules, i)
    decreases |s| - i
  {
    if i < |s| {
      match FirstMatch(s, rules, i)
      case Some(k) => NonEmptyPatternsEnd(s, rules, i + |rules[k].pattern|);
      case None => NonEmptyPatternsEnd(s, rules, i + 1);
    }
  }

  /** With an empty first pattern, the loop stalls on every non-empty text. */
  lemma EmptyFirstPatternStalls(s: string, rules: seq<Rule>)
    requires s != "" && |rules| > 0 && rules[0].pattern == ""
    ensures !ScanEnds(s, rules, 0)
  {
    EmptyPatternDoesNotAdvance(s, rules, 0);
  }

  /** An empty text ends the loop before any rule is tried, whatever the rules. */
  lemma EmptyTextEnds(s: string, rules: seq<Rule>)
    requires |s| == 0
    ensures ScanEnds(s, rules, 0)
  {
  }

  /**
   * An empty pattern the scan never reaches does not stall it: with
   * `("a","b")` before `("","c")`, the text "a" is consumed by the first rule.
   */
  lemma CoveredEmptyPatternEnds(s: string)
    requires Spells(s, "a")
    ensures ScanEnds(s, [Rule("a", "b"), Rule("", "c")], 0)
  {
    var rules := [Rule("a", "b"), Rule("", "c")];
    assert StartsAt(s, rules[0].pattern, 0);
    FirstMatchIs(s, rules, 0, 0);
  }

  /**
   * A name guarded by an identity rule `(n, n)`, such that every earlier rule
   * has a pattern at least as long as `n` and different from it, is left as it is.
   */
  lemma GuardedNameIsKept(n: string, rules: seq<Rule>, k: nat)
    requires NonEmptyPatterns(rules) && k < |rules| && rules[k] == Rule(n, n)
    requires forall j :: 0 <= j < k ==> |rules[j].pattern| >= |n| && rules[j].pattern != n
    ensures Rewrite(n, rules) == n
  {
    assert n[0..|n|] == n;
    FirstMatchingRuleApplies(n, rules, k);
    assert n[|n|..] == "";
  }

  /** The position of the first rule with pattern `n`. */
  lemma {:induction false} FirstWithPattern(rules: seq<Rule>, n: string) returns (k: nat)
    requires exists i :: 0 <= i < |rules| && rules[i].pattern == n
    ensures k < |rules| && rules[k].pattern == n
    ensures forall j :: 0 <= j < k ==> rules[j].pattern != n
  {
    if rules[0].pattern == n {
      k := 0;
    } else {
      var i :| 0 <= i < |rules| && rules[i].pattern == n;
      assert rules[1..][i - 1].pattern == n;
      var k' := FirstWithPattern(rules[1..], n);
      k := k' + 1;
    }
  }

  /** Every rule in `rules` maps its pattern to itself. */
  predicate IdentityRules(rules: seq<Rule>)
  {
    forall k :: 0 <= k < |rules| ==> rules[k].replacement == rules[k].pattern
  }

  /**
   * The "protect" idiom: a block of identity rules sorted by descending pattern
   * length, placed in front of any other rules, keeps every name it lists intact.
   */
  lemma ProtectedNameIsKept(n: string, protect: seq<Rule>, others: seq<Rule>)
    requires NonEmptyPatterns(protect + others)
    requires SortedDesc(protect, PatternLength) && IdentityRules(protect)
    requires Rule(n, n) in protect
    ensures Rewrite(n, protect + others) == n
  {
    var rules := protect + others;
    var i :| 0 <= i < |protect| && protect[i] == Rule(n, n);
    assert rules[i].pattern == n;
    var k := FirstWithPattern(rules, n);
    assert k <= i;
    assert rules[k] == protect[k];
    assert rules[k] == Rule(n, n);
    forall j | 0 <= j < k ensures |rules[j].pattern| >= |n| {
      assert PatternLength(protect[j]) >= PatternLength(protect[k]);
    }
    GuardedNameIsKept(n, rules, k);
  }

  // ---------------------------------------------------------------------------
  // Examples from the routine's documentation and the evaluation tests
  // ---------------------------------------------------------------------------

  function DocumentedRules(): seq<Rule>
  {
    [Rule("abc", "p"), Rule("bc", "q"), Rule("c", "r")]
  }

  /** An empty text is rewritten to the empty text. */
  lemma EmptyTextIsKept(t: string, rules: seq<Rule>)
    requires NonEmptyPatterns(rules) && |t| == 0
    ensures Rewrite(t, rules) == ""
  {
  }

  lemma AbcBecomesP(t: string)
    requires |t| >= 3 && t[0] == 'a' && t[1] == 'b' && t[2] == 'c'
    ensures Rewrite(t, DocumentedRules()) == "p" + Rewrite(t[3..], DocumentedRules())
  {
    assert StartsAt(t, "abc", 0);
    FirstMatchingRuleApplies(t, DocumentedRules(), 0);
  }

  lemma BcBecomesQ(t: string)
    requires |t| >= 2 && t[0] == 'b' && t[1] == 'c'
    ensures Rewrite(t, DocumentedRules()) == "q" + Rewrite(t[2..], DocumentedRules())
  {
    FirstCharacterDiffers(t, "abc", 0);
    assert StartsAt(t, "bc", 0);
    FirstMatchingRuleApplies(t, DocumentedRules(), 1);
  }

  lemma CBecomesR(t: string)
    requires |t| >= 1 && t[0] == 'c'
    ensures Rewrite(t, DocumentedRules()) == "r" + Rewrite(t[1..], DocumentedRules())
  {
    FirstCharacterDiffers(t, "abc", 0);
    FirstCharacterDiffers(t, "bc", 0);
    assert StartsAt(t, "c", 0);
    FirstMatchingRuleApplies(t, DocumentedRules(), 2);
  }

  lemma SpaceIsCopied(t: string)
    requires |t| >= 1 && t[0] == ' '
    ensures Rewrite(t, DocumentedRules()) == " " + Rewrite(t[1..], DocumentedRules())
  {
    FirstCharacterDiffers(t, "abc", 0);
    FirstCharacterDiffers(t, "bc", 0);
    FirstCharacterDiffers(t, "c", 0);
    UnmatchedCharacterIsCopied(t, DocumentedRules());
  }

  /** The text " c" after the second word. */
  lemma DocumentedTail(t: string)
    requires Spells(t, " c")
    ensures Rewrite(t, DocumentedRules()) == " r"
  {
    SpaceIsCopied(t);
    CBecomesR(t[1..]);
    EmptyTextIsKept(t[1..][1..], DocumentedRules());
  }

  /** The text " bc c" after the first word. */
  lemma DocumentedMiddle(t: string)
    requires Spells(t, " bc c")
    ensures Rewrite(t, DocumentedRules()) == " q r"
  {
    SpaceIsCopied(t);
    BcBecomesQ(t[1..]);
    assert Spells(t[1..][2..], " c");
    DocumentedTail(t[1..][2..]);
  }

  lemma DocumentedText(s: string)
    requires Spells(s, "abc bc c")
    ensures Rewrite(s, DocumentedRules()) == "p q r"
  {
    AbcBecomesP(s);
    assert Spells(s[3..], " bc c");
    DocumentedMiddle(s[3..]);
  }

  /** With longer patterns first, each word is replaced whole: "abc bc c" becomes "p q r". */
  lemma LongestFirstExample()
    ensures Rewrite("abc bc c", DocumentedRules()) == "p q r"
  {
    DocumentedText("abc bc c");
  }

  lemma NoRescanOn(s: string)
    requires Spells(s, "ab")
    ensures Rewrite(s, [Rule("a", "b"), Rule("b", "d")]) == "bd"
  {
    var rules := [Rule("a", "b"), Rule("b", "d")];
    assert StartsAt(s, "a", 0);
    FirstMatchingRuleApplies(s, rules, 0);
    var t := s[1..];
    FirstCharacterDiffers(t, "a", 0);
    assert StartsAt(t, "b", 0);
    FirstMatchingRuleApplies(t, rules, 1);
    EmptyTextIsKept(t[1..], rules);
  }

  /** Replacement text is not rescanned: with ("a","b") and ("b","d"), "ab" becomes "bd", not "dd". */
  lemma NoRescanExample()
    ensures Rewrite("ab", [Rule("a", "b"), Rule("b", "d")]) == "bd"
  {
    NoRescanOn("ab");
  }
}
