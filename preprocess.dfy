/**
 * `preprocess_expression` of app/expression_utilities.py: every listed
 * alternative spelling of an input symbol is rewritten to the symbol's code,
 * longer alternatives taking precedence, in each expression of a list.
 */
module Preprocessing {
  import opened Wrappers
  import opened Rules
  import opened Sorting
  import opened Scanner

  /** One entry of the `input_symbols` parameter: a symbol code and its alternative spellings. */
  datatype InputSymbol = InputSymbol(code: string, alternatives: seq<string>)

  /** The rules contributed by one input symbol: each alternative maps to the code. */
  function RulesOfSymbol(symbol: InputSymbol): (rs: seq<Rule>)
  {
    seq(|symbol.alternatives|, j requires 0 <= j < |symbol.alternatives| => Rule(symbol.alternatives[j], symbol.code))
  }

  /** The rule list in the order the nested loops append it, before sorting. */
  function AliasRulesOf(symbols: seq<InputSymbol>): seq<Rule>
  {
    if symbols == [] then [] else AliasRulesOf(symbols[..|symbols| - 1]) + RulesOfSymbol(symbols[|symbols| - 1])
  }

  /** The rule list `substitute` is given: sorted by descending alternative length, stably. */
  function AliasRules(symbols: seq<InputSymbol>): seq<Rule>
  {
    SortByKeyDesc(AliasRulesOf(symbols), PatternLength)
  }

  /** The number of alternatives listed over all input symbols. */
  function AlternativeCount(symbols: seq<InputSymbol>): nat
  {
    if symbols == [] then 0 else AlternativeCount(symbols[..|symbols| - 1]) + |symbols[|symbols| - 1].alternatives|
  }

  /** Rule `r` comes from some listed alternative of some symbol. */
  predicate IsAliasRule(symbols: seq<InputSymbol>, r: Rule)
  {
    exists i, j :: 0 <= i < |symbols| && 0 <= j < |symbols[i].alternatives|
                   && r == Rule(symbols[i].alternatives[j], symbols[i].code)
  }

  /** An empty alternative would make the scan loop forever. */
  predicate NonEmptyAlternatives(symbols: seq<InputSymbol>)
  {
    forall i, j :: 0 <= i < |symbols| && 0 <= j < |symbols[i].alternatives| ==> symbols[i].alternatives[j] != ""
  }

  /** There is one rule per listed alternative. */
  lemma {:induction false} AliasRuleCount(symbols: seq<InputSymbol>)
    ensures |AliasRulesOf(symbols)| == AlternativeCount(symbols)
    ensures |AliasRules(symbols)| == AlternativeCount(symbols)
  {
    if symbols != [] {
      AliasRuleCount(symbols[..|symbols| - 1]);
    }
  }

  /** The rules are exactly the (alternative, code) pairs of the listed symbols. */
  lemma {:induction false} AliasRulesOfMembers(symbols: seq<InputSymbol>, r: Rule)
    ensures r in AliasRulesOf(symbols) <==> IsAliasRule(symbols, r)
  {
    if symbols != [] {
      var init := symbols[..|symbols| - 1];
      var last := symbols[|symbols| - 1];
      AliasRulesOfMembers(init, r);
      if r in RulesOfSymbol(last) {
        var j :| 0 <= j < |last.alternatives| && RulesOfSymbol(last)[j] == r;
        assert r == Rule(symbols[|symbols| - 1].alternatives[j], symbols[|symbols| - 1].code);
      }
      if IsAliasRule(init, r) {
        var i, j :| 0 <= i < |init| && 0 <= j < |init[i].alternatives| && r == Rule(init[i].alternatives[j], init[i].code);
        assert symbols[i] == init[i];
      }
      if IsAliasRule(symbols, r) {
        var i, j :| 0 <= i < |symbols| && 0 <= j < |symbols[i].alternatives| && r == Rule(symbols[i].alternatives[j], symbols[i].code);
        if i < |symbols| - 1 {
          assert init[i] == symbols[i];
        } else {
          assert RulesOfSymbol(last)[j] == r;
        }
      }
    }
  }

  lemma AliasRulesMembers(symbols: seq<InputSymbol>, r: Rule)
    ensures r in AliasRules(symbols) <==> IsAliasRule(symbols, r)
  {
    AliasRulesOfMembers(symbols, r);
    SortKeepsMembers(AliasRulesOf(symbols), PatternLength, r);
  }

  /** The sorted rules: longer alternatives first, alternatives of equal length in input order. */
  lemma AliasRulesSortedStably(symbols: seq<InputSymbol>)
    ensures SortedDesc(AliasRules(symbols), PatternLength)
    ensures forall n :: WithKey(AliasRules(symbols), PatternLength, n) == WithKey(AliasRulesOf(symbols), PatternLength, n)
  {
    SortOrders(AliasRulesOf(symbols), PatternLength);
    forall n ensures WithKey(AliasRules(symbols), PatternLength, n) == WithKey(AliasRulesOf(symbols), PatternLength, n) {
      SortIsStable(AliasRulesOf(symbols), PatternLength, n);
    }
  }

  lemma AliasPatternsNonEmpty(symbols: seq<InputSymbol>)
    requires NonEmptyAlternatives(symbols)
    ensures NonEmptyPatterns(AliasRules(symbols))
  {
    var rules := AliasRules(symbols);
    forall k | 0 <= k < |rules| ensures rules[k].pattern != "" {
      AliasRulesMembers(symbols, rules[k]);
    }
  }

  /** What `preprocess_expression` returns for a list of expressions. */
  function Preprocess(exprs: seq<string>, symbols: Option<seq<InputSymbol>>): seq<string>
    requires symbols.Some? ==> NonEmptyAlternatives(symbols.value)
  {
    match symbols
    case None => exprs
    case Some(ss) =>
      AliasPatternsNonEmpty(ss);
      seq(|exprs|, k requires 0 <= k < |exprs| => Rewrite(exprs[k], AliasRules(ss)))
  }

  /** The nested loops that collect one (alternative, code) rule per alternative, then the sort. */
  method BuildAliasRules(symbols: seq<InputSymbol>) returns (rules: seq<Rule>)
    ensures rules == AliasRules(symbols)
  {
    rules := [];
    for i := 0 to |symbols|
      invariant rules == AliasRulesOf(symbols[..i])
    {
      var symbol := symbols[i];
      for j := 0 to |symbol.alternatives|
        invariant rules == AliasRulesOf(symbols[..i]) + RulesOfSymbol(symbol)[..j]
      {
        rules := rules + [Rule(symbol.alternatives[j], symbol.code)];
      }
      assert RulesOfSymbol(symbol)[..|symbol.alternatives|] == RulesOfSymbol(symbol);
      assert symbols[..i + 1][..i] == symbols[..i];
    }
    assert symbols[..|symbols|] == symbols;
    rules := SortByKeyDesc(rules, PatternLength);
  }

  /** `preprocess_expression` given a list: each element is rewritten in place. */
  method PreprocessExpressions(exprs: array<string>, symbols: Option<seq<InputSymbol>>)
    requires symbols.Some? ==> NonEmptyAlternatives(symbols.value)
    modifies exprs
    ensures exprs[..] == Preprocess(old(exprs[..]), symbols)
  {
    if symbols.Some? {
      var rules := BuildAliasRules(symbols.value);
      AliasPatternsNonEmpty(symbols.value);
      for k := 0 to exprs.Length
        invariant forall m :: 0 <= m < k ==> exprs[m] == Rewrite(old(exprs[m]), rules)
        invariant forall m :: k <= m < exprs.Length ==> exprs[m] == old(exprs[m])
      {
        exprs[k] := Substitute(exprs[k], rules);
      }
    }
  }

  /** `preprocess_expression` given one string: it is wrapped into a one-element list first. */
  method PreprocessExpression(expr: string, symbols: Option<seq<InputSymbol>>) returns (exprs: array<string>)
    requires symbols.Some? ==> NonEmptyAlternatives(symbols.value)
    ensures fresh(exprs)
    ensures exprs[..] == Preprocess([expr], symbols)
  {
    exprs := new string[1] [expr];
    PreprocessExpressions(exprs, symbols);
  }

  /** Without `input_symbols` the list is returned unchanged. */
  lemma WithoutInputSymbolsNothingChanges(exprs: seq<string>)
    ensures Preprocess(exprs, None) == exprs
  {
  }

  /** The result has one entry per expression, and each is rewritten on its own, independently of the others. */
  lemma ExpressionsRewrittenIndependently(exprs: seq<string>, symbols: Option<seq<InputSymbol>>, k: nat)
    requires symbols.Some? ==> NonEmptyAlternatives(symbols.value)
    requires k < |exprs|
    ensures |Preprocess(exprs, symbols)| == |exprs|
    ensures Preprocess(exprs, symbols)[k] == Preprocess([exprs[k]], symbols)[0]
  {
  }

  /** An expression in which no alternative spelling occurs is left as it is. */
  lemma ExpressionWithoutAlternativesIsKept(expr: string, symbols: seq<InputSymbol>)
    requires NonEmptyAlternatives(symbols)
    requires forall p, i, j :: 0 <= p < |expr| && 0 <= i < |symbols| && 0 <= j < |symbols[i].alternatives|
               ==> !StartsAt(expr, symbols[i].alternatives[j], p)
    ensures Preprocess([expr], Some(symbols)) == [expr]
  {
    var rules := AliasRules(symbols);
    AliasPatternsNonEmpty(symbols);
    forall p, k | 0 <= p < |expr| && 0 <= k < |rules| ensures !StartsAt(expr, rules[k].pattern, p) {
      AliasRulesMembers(symbols, rules[k]);
    }
    NoMatchIsIdentity(expr, rules);
  }
}
