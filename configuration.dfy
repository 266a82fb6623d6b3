/**
 * The substitution stage of `evaluation_function` (app/evaluation.py lines
 * 11-61). Parameters are merged over the defaults. The `substitutions` entry
 * is normalised into a list of substitution strings, with `quantities` put
 * in front and, for a "dimensions" comparison, the dimension chain appended.
 * Every string is split into passes, and every pass is applied by the
 * per-rule `substitute` to the answer and to the response, in order.
 *
 * Parameter values are Python values, reduced to the kinds this code tells
 * apart: strings, lists, the `(pattern, replacement)` tuples of the unit
 * chains, and anything else.
 */
module Configuration {
  import opened Wrappers
  import opened Rules
  import opened Passes
  import RuleByRule
  import Units

  datatype Value = Str(s: string) | List(items: seq<Value>) | Pair(rule: Rule) | Other

  /** A chain of passes as the Python value the unit module returns: a list of lists of tuples. */
  function ChainValue(chain: seq<seq<Rule>>): (v: Value)
    ensures v.List? && |v.items| == |chain|
    ensures forall i :: 0 <= i < |chain| ==> v.items[i].List?
  {
    List(seq(|chain|, i requires 0 <= i < |chain| =>
      List(seq(|chain[i]|, j requires 0 <= j < |chain[i]| => Pair(chain[i][j])))))
  }

  /** `convert_to_SI_base_units()`, the default `substitutions`. */
  function DefaultSubstitutions(): Value
  {
    ChainValue(Units.ToSIBaseUnits())
  }

  /** `convert_SI_base_units_to_dimensions()`, appended for a "dimensions" comparison. */
  function DimensionChain(): Value
  {
    ChainValue(Units.ToDimensions())
  }

  /** The defaults that `parameters.update(params)` overrides, with `si` the default chain. */
  function Defaults(si: Value): map<string, Value>
  {
    map["substitutions" := si, "comparison" := Str("expression"), "rtol" := Other]
  }

  /** Python's `a + b` on two values: list concatenation, and a TypeError for anything else. */
  function Concat(a: Value, b: Value): Result<Value, ConfigError>
  {
    if a.List? && b.List? then Ok(List(a.items + b.items)) else Err(ConcatenationTypeError)
  }

  /**
   * Lines 11-22: the list of substitution strings before it is checked, for
   * a default chain `si` and a dimension chain `dims`.
   */
  function NormaliseWith(params: map<string, Value>, si: Value, dims: Value): Result<Value, ConfigError>
  {
    var parameters := Defaults(si) + params;
    var subs := parameters["substitutions"];
    var wrapped := if subs.Str? then List([subs]) else subs;
    var withQuantities :-
      if "quantities" in parameters then Concat(List([parameters["quantities"]]), wrapped) else Ok(wrapped);
    if parameters["comparison"] == Str("dimensions") then Concat(withQuantities, List([dims]))
    else Ok(withQuantities)
  }

  predicate AllStrings(items: seq<Value>)
  {
    forall i :: 0 <= i < |items| ==> items[i].Str?
  }

  function Strings(items: seq<Value>): (ss: seq<string>)
    requires AllStrings(items)
    ensures |ss| == |items| && forall i :: 0 <= i < |items| ==> ss[i] == items[i].s
  {
    seq(|items|, i requires 0 <= i < |items| => items[i].s)
  }

  /** Lines 34-37: a string is wrapped, a list of strings accepted, anything else refused. */
  function Validate(v: Value): Result<seq<string>, ConfigError>
  {
    if v.Str? then Ok([v.s])
    else if v.List? && AllStrings(v.items) then Ok(Strings(v.items))
    else Err(NotWrittenCorrectly)
  }

  /** Lines 11-37 for a default chain `si` and a dimension chain `dims`. */
  function StringsWith(params: map<string, Value>, si: Value, dims: Value): Result<seq<string>, ConfigError>
  {
    var v :- NormaliseWith(params, si, dims);
    Validate(v)
  }

  /** Lines 11-37: the substitution strings, or the exception raised. */
  function SubstitutionStrings(params: map<string, Value>): Result<seq<string>, ConfigError>
  {
    StringsWith(params, DefaultSubstitutions(), DimensionChain())
  }

  /** The passes applied one after the other by the per-rule substitution. */
  function ApplyPasses(text: string, passes: seq<seq<Rule>>): string
    decreases |passes|
  {
    if passes == [] then text
    else RuleByRule.RuleByRuleRewrite(ApplyPasses(text, passes[..|passes| - 1]), passes[|passes| - 1])
  }

  /** Lines 39-61: each string is split into passes, which rewrite the answer and the response in turn. */
  function Run(strs: seq<string>, read: Reader, answer: string, response: string)
    : Result<(string, string), ConfigError>
    decreases |strs|
  {
    if strs == [] then Ok((answer, response))
    else
      var before :- Run(strs[..|strs| - 1], read, answer, response);
      var passes :- ParsePasses(strs[|strs| - 1], read);
      Ok((ApplyPasses(before.0, passes), ApplyPasses(before.1, passes)))
  }

  /** The substitution stage: the answer and the response after every pass, or the error raised. */
  function Evaluate(params: map<string, Value>, read: Reader, answer: string, response: string)
    : Result<(string, string), ConfigError>
  {
    var strs :- SubstitutionStrings(params);
    Run(strs, read, answer, response)
  }

  /** The substitution stage as the source runs it: validate, then parse and apply string by string. */
  method SubstituteAll(params: map<string, Value>, read: Reader, answer: string, response: string)
    returns (r: Result<(string, string), ConfigError>)
    ensures r == Evaluate(params, read, answer, response)
  {
    var strs := SubstitutionStrings(params);
    if strs.Err? {
      return Err(strs.error);
    }
    r := RunStrings(strs.value, read, answer, response);
  }

  /** Lines 39-61: the loop over the substitution strings and, inside it, over their passes. */
  method RunStrings(all: seq<string>, read: Reader, answer: string, response: string)
    returns (r: Result<(string, string), ConfigError>)
    ensures r == Run(all, read, answer, response)
  {
    var a, b := answer, response;
    for k := 0 to |all|
      invariant Run(all[..k], read, answer, response) == Ok((a, b))
    {
      var passes := SplitPasses(all[k], read);
      if passes.Err? {
        RunStopsAtError(all, k, read, answer, response);
        return Err(passes.error);
      }
      RunStep(all, k, read, answer, response);
      var a0, b0 := a, b;
      for m := 0 to |passes.value|
        invariant a == ApplyPasses(a0, passes.value[..m]) && b == ApplyPasses(b0, passes.value[..m])
      {
        ApplyPassesStep(a0, passes.value, m);
        ApplyPassesStep(b0, passes.value, m);
        a := RuleByRule.Substitute(a, passes.value[m]);
        b := RuleByRule.Substitute(b, passes.value[m]);
      }
      assert passes.value[..|passes.value|] == passes.value;
    }
    assert all[..|all|] == all;
    return Ok((a, b));
  }

  // ---------------------------------------------------------------------------
  // Which configurations are accepted
  // ---------------------------------------------------------------------------

  /** The configurations lines 11-37 let through. */
  predicate WellFormed(params: map<string, Value>)
  {
    && "substitutions" in params
    && (params["substitutions"].Str? || (params["substitutions"].List? && AllStrings(params["substitutions"].items)))
    && ("quantities" in params ==> params["quantities"].Str?)
    && !("comparison" in params && params["comparison"] == Str("dimensions"))
  }

  /** The strings of a well-formed configuration: the quantities first, then the substitutions. */
  function Configured(params: map<string, Value>): seq<string>
    requires WellFormed(params)
  {
    var subs := params["substitutions"];
    (if "quantities" in params then [params["quantities"].s] else [])
    + (if subs.Str? then [subs.s] else Strings(subs.items))
  }

  /** The defaults hold a chain of three lists, none of them a string. */
  lemma DefaultIsAChain()
    ensures DefaultSubstitutions().List? && |DefaultSubstitutions().items| == 3
    ensures DefaultSubstitutions().items[0].List?
  {
    Units.CommonPassLongestFirst();
  }

  lemma DimensionChainIsAList()
    ensures DimensionChain().List?
  {
  }

  /** A list holding anything but a string is refused. */
  lemma NonStringRefused(items: seq<Value>, k: nat)
    requires k < |items| && !items[k].Str?
    ensures Validate(List(items)) == Err(NotWrittenCorrectly)
  {
  }

  /** Lines 34-35 never apply: the value checked there is never a bare string. */
  lemma NormalisedIsNeverAString(params: map<string, Value>, si: Value, dims: Value)
    requires NormaliseWith(params, si, dims).Ok?
    ensures !NormaliseWith(params, si, dims).value.Str?
  {
  }

  /** Settings read from the merged parameters. */
  lemma {:induction false} MergedSettings(params: map<string, Value>, si: Value)
    ensures var parameters := Defaults(si) + params;
            && parameters["substitutions"] == (if "substitutions" in params then params["substitutions"] else si)
            && ("quantities" in parameters <==> "quantities" in params)
            && ("quantities" in params ==> parameters["quantities"] == params["quantities"])
            && (parameters["comparison"] == Str("dimensions")
                <==> "comparison" in params && params["comparison"] == Str("dimensions"))
  {
  }

  lemma {:induction false} DefaultRefusedWith(params: map<string, Value>, si: Value, dims: Value)
    requires "substitutions" !in params
    requires si.List? && |si.items| > 0 && si.items[0].List?
    ensures StringsWith(params, si, dims) == Err(NotWrittenCorrectly)
  {
    MergedSettings(params, si);
    var parameters := Defaults(si) + params;
    var withQuantities := if "quantities" in parameters then List([parameters["quantities"]] + si.items) else si;
    var k := if "quantities" in parameters then 1 else 0;
    assert withQuantities.items[k] == si.items[0];
    if parameters["comparison"] == Str("dimensions") {
      var all := withQuantities.items + [dims];
      assert all[k] == si.items[0];
      assert NormaliseWith(params, si, dims) == Ok(List(all));
      NonStringRefused(all, k);
    } else {
      assert NormaliseWith(params, si, dims) == Ok(withQuantities);
      NonStringRefused(withQuantities.items, k);
    }
  }

  /** Without a `substitutions` parameter the default chain is used, and it is refused. */
  lemma DefaultSubstitutionsRefused(params: map<string, Value>)
    requires "substitutions" !in params
    ensures SubstitutionStrings(params) == Err(NotWrittenCorrectly)
  {
    DefaultIsAChain();
    DefaultRefusedWith(params, DefaultSubstitutions(), DimensionChain());
  }

  lemma {:induction false} DimensionsRefusedWith(params: map<string, Value>, si: Value, dims: Value)
    requires "comparison" in params && params["comparison"] == Str("dimensions")
    requires dims.List?
    ensures StringsWith(params, si, dims).Err?
  {
    MergedSettings(params, si);
    var n := NormaliseWith(params, si, dims);
    if n.Ok? {
      var items := n.value.items;
      assert items[|items| - 1] == dims;
      NonStringRefused(items, |items| - 1);
    }
  }

  /** A "dimensions" comparison always fails: the appended chain is a list, not a string. */
  lemma DimensionsComparisonRefused(params: map<string, Value>)
    requires "comparison" in params && params["comparison"] == Str("dimensions")
    ensures SubstitutionStrings(params).Err?
  {
    DimensionChainIsAList();
    DimensionsRefusedWith(params, DefaultSubstitutions(), DimensionChain());
  }

  /** A configuration that names its substitutions and does not ask for dimensions normalises without the defaults. */
  lemma {:induction false} AcceptedWith(params: map<string, Value>, si: Value, dims: Value)
    requires "substitutions" in params
    requires !("comparison" in params && params["comparison"] == Str("dimensions"))
    ensures StringsWith(params, si, dims).Ok? <==> WellFormed(params)
    ensures WellFormed(params) ==> StringsWith(params, si, dims) == Ok(Configured(params))
  {
    MergedSettings(params, si);
    var subs := params["substitutions"];
    var wrapped := if subs.Str? then List([subs]) else subs;
    if "quantities" in params {
      if wrapped.List? {
        var items := [params["quantities"]] + wrapped.items;
        assert NormaliseWith(params, si, dims) == Ok(List(items));
        if WellFormed(params) {
          assert AllStrings(items);
          assert Strings(items) == Configured(params);
        } else if !params["quantities"].Str? {
          NonStringRefused(items, 0);
        } else {
          var k :| 0 <= k < |wrapped.items| && !wrapped.items[k].Str?;
          assert items[k + 1] == wrapped.items[k];
          NonStringRefused(items, k + 1);
        }
      }
    } else {
      assert NormaliseWith(params, si, dims) == Ok(wrapped);
      if WellFormed(params) {
        assert Strings(wrapped.items) == Configured(params);
      }
    }
  }

  /**
   * A configuration is accepted exactly when it is well formed, and then the
   * strings are the quantities, if given, followed by the substitutions.
   */
  lemma AcceptedExactly(params: map<string, Value>)
    ensures SubstitutionStrings(params).Ok? <==> WellFormed(params)
    ensures WellFormed(params) ==> SubstitutionStrings(params) == Ok(Configured(params))
  {
    if "substitutions" !in params {
      DefaultSubstitutionsRefused(params);
    } else if "comparison" in params && params["comparison"] == Str("dimensions") {
      DimensionsComparisonRefused(params);
    } else {
      AcceptedWith(params, DefaultSubstitutions(), DimensionChain());
    }
  }

  /** The `quantities` string is the first one applied. */
  lemma QuantitiesComeFirst(params: map<string, Value>)
    requires SubstitutionStrings(params).Ok? && "quantities" in params
    ensures params["quantities"].Str? && |SubstitutionStrings(params).value| > 0
    ensures SubstitutionStrings(params).value[0] == params["quantities"].s
  {
    AcceptedExactly(params);
  }

  // ---------------------------------------------------------------------------
  // Running the passes
  // ---------------------------------------------------------------------------

  /** Every pass of every string, in order, or the first error. */
  function ParseAll(strs: seq<string>, read: Reader): Result<seq<seq<Rule>>, ConfigError>
    decreases |strs|
  {
    if strs == [] then Ok([])
    else
      var before :- ParseAll(strs[..|strs| - 1], read);
      var passes :- ParsePasses(strs[|strs| - 1], read);
      Ok(before + passes)
  }

  lemma {:induction false} ApplyPassesAppend(text: string, p: seq<seq<Rule>>, q: seq<seq<Rule>>)
    ensures ApplyPasses(text, p + q) == ApplyPasses(ApplyPasses(text, p), q)
    decreases |q|
  {
    if q == [] {
      assert p + q == p;
    } else {
      ApplyPassesAppend(text, p, q[..|q| - 1]);
      assert (p + q)[..|p + q| - 1] == p + q[..|q| - 1];
    }
  }

  /**
   * Parsing and applying string by string, as the source does, gives what
   * one chain of all the passes gives: the answer and the response go
   * through the same passes in the same order.
   */
  lemma {:induction false} RunIsOneChain(strs: seq<string>, read: Reader, answer: string, response: string)
    ensures ParseAll(strs, read).Err? ==> Run(strs, read, answer, response) == Err(ParseAll(strs, read).error)
    ensures ParseAll(strs, read).Ok? ==>
              Run(strs, read, answer, response)
                == Ok((ApplyPasses(answer, ParseAll(strs, read).value), ApplyPasses(response, ParseAll(strs, read).value)))
    decreases |strs|
  {
    if strs != [] {
      var init := strs[..|strs| - 1];
      RunIsOneChain(init, read, answer, response);
      if ParseAll(init, read).Ok? && ParsePasses(strs[|strs| - 1], read).Ok? {
        var before := ParseAll(init, read).value;
        var passes := ParsePasses(strs[|strs| - 1], read).value;
        ApplyPassesAppend(answer, before, passes);
        ApplyPassesAppend(response, before, passes);
      }
    }
  }

  lemma ApplyPassesStep(text: string, passes: seq<seq<Rule>>, m: nat)
    requires m < |passes|
    ensures ApplyPasses(text, passes[..m + 1]) == RuleByRule.RuleByRuleRewrite(ApplyPasses(text, passes[..m]), passes[m])
  {
    assert passes[..m + 1][..m] == passes[..m];
  }

  /** One more string: its passes rewrite what the earlier strings produced. */
  lemma RunStep(strs: seq<string>, k: nat, read: Reader, answer: string, response: string)
    requires k < |strs| && Run(strs[..k], read, answer, response).Ok? && ParsePasses(strs[k], read).Ok?
    ensures var before := Run(strs[..k], read, answer, response).value;
            var passes := ParsePasses(strs[k], read).value;
            Run(strs[..k + 1], read, answer, response) == Ok((ApplyPasses(before.0, passes), ApplyPasses(before.1, passes)))
  {
    assert strs[..k + 1][..k] == strs[..k];
  }

  /** An error stays an error when more strings follow. */
  lemma RunKeepsError(strs: seq<string>, j: nat, read: Reader, answer: string, response: string)
    requires j < |strs| && Run(strs[..j], read, answer, response).Err?
    ensures Run(strs[..j + 1], read, answer, response) == Run(strs[..j], read, answer, response)
  {
    assert strs[..j + 1][..j] == strs[..j];
  }

  /** A string that cannot be parsed turns a successful run into its error. */
  lemma RunFailsAt(strs: seq<string>, k: nat, read: Reader, answer: string, response: string)
    requires k < |strs| && Run(strs[..k], read, answer, response).Ok? && ParsePasses(strs[k], read).Err?
    ensures Run(strs[..k + 1], read, answer, response) == Err(ParsePasses(strs[k], read).error)
  {
    assert strs[..k + 1][..k] == strs[..k];
  }

  /** Once a prefix of the strings has failed, every longer prefix fails with the same error. */
  lemma {:induction false} ErrorPersists(strs: seq<string>, k: nat, j: nat, read: Reader, answer: string, response: string)
    requires k < j <= |strs| && Run(strs[..k], read, answer, response).Err?
    ensures Run(strs[..j], read, answer, response) == Run(strs[..k], read, answer, response)
    decreases j
  {
    if j - 1 > k {
      ErrorPersists(strs, k, j - 1, read, answer, response);
    }
    RunKeepsError(strs, j - 1, read, answer, response);
  }

  /** An error in one string ends the run with that error, whatever follows. */
  lemma RunStopsAtError(strs: seq<string>, k: nat, read: Reader, answer: string, response: string)
    requires k < |strs| && Run(strs[..k], read, answer, response).Ok? && ParsePasses(strs[k], read).Err?
    ensures Run(strs, read, answer, response) == Err(ParsePasses(strs[k], read).error)
  {
    RunFailsAt(strs, k, read, answer, response);
    if k + 1 < |strs| {
      ErrorPersists(strs, k + 1, |strs|, read, answer, response);
    }
    assert strs[..|strs|] == strs;
  }
}
