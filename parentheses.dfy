/**
 * `find_matching_parenthesis` of app/evaluation.py: a depth counter that walks
 * right from `index`, adding one at '(' and taking one away at ')', and stops
 * at the first ')' that brings the depth back to zero.
 */
module Parentheses {

  /** '(' count minus ')' count in s[lo..hi]. */
  function Depth(s: string, lo: nat, hi: nat): int
    requires lo <= hi <= |s|
    decreases hi - lo
  {
    if lo == hi then 0
    else Depth(s, lo, hi - 1) + (if s[hi - 1] == '(' then 1 else if s[hi - 1] == ')' then -1 else 0)
  }

  /** Position `k` holds a ')' at which the depth counted from `index` returns to zero. */
  predicate Closes(s: string, index: nat, k: nat)
  {
    index <= k < |s| && s[k] == ')' && Depth(s, index, k + 1) == 0
  }

  function MatchFrom(s: string, index: nat, k: nat, depth: int): (r: int)
    requires index <= k <= |s| && depth == Depth(s, index, k)
    ensures r == -1 ==> forall m :: k <= m < |s| ==> !Closes(s, index, m)
    ensures r != -1 ==> k <= r && Closes(s, index, r) && forall m :: k <= m < r ==> !Closes(s, index, m)
    decreases |s| - k
  {
    if k == |s| then -1
    else if s[k] == '(' then MatchFrom(s, index, k + 1, depth + 1)
    else if s[k] == ')' && depth - 1 == 0 then k
    else if s[k] == ')' then MatchFrom(s, index, k + 1, depth - 1)
    else MatchFrom(s, index, k + 1, depth)
  }

  /**
   * What `find_matching_parenthesis(s, index)` returns: the first position from
   * `index` on that closes, or -1 when there is none.
   */
  function MatchingParenthesis(s: string, index: nat): (r: int)
    ensures r == -1 <==> forall m :: index <= m < |s| ==> !Closes(s, index, m)
    ensures r != -1 ==> index <= r < |s| && Closes(s, index, r)
                        && forall m :: index <= m < r ==> !Closes(s, index, m)
  {
    if index > |s| then -1 else MatchFrom(s, index, index, 0)
  }

  /** The loop of `find_matching_parenthesis`. */
  method FindMatchingParenthesis(s: string, index: nat) returns (r: int)
    ensures r == MatchingParenthesis(s, index)
  {
    var depth := 0;
    var k := index;
    while k < |s|
      invariant index <= k
      invariant k <= |s| ==> depth == Depth(s, index, k)
      invariant forall m :: index <= m < k ==> !Closes(s, index, m)
      decreases |s| - k
    {
      if s[k] == '(' {
        depth := depth + 1;
        k := k + 1;
        continue;
      }
      if s[k] == ')' {
        depth := depth - 1;
        assert depth == Depth(s, index, k + 1);
        if depth == 0 {
          assert Closes(s, index, k);
          return k;
        }
      }
      k := k + 1;
    }
    return -1;
  }

  /**
   * Started on a '(', a found match lies strictly to the right, the slice up to
   * it is balanced, and every proper prefix of that slice has more '(' than ')'.
   */
  lemma OpeningParenthesisMatch(s: string, index: nat)
    requires index < |s| && s[index] == '(' && MatchingParenthesis(s, index) != -1
    ensures index < MatchingParenthesis(s, index)
    ensures s[MatchingParenthesis(s, index)] == ')'
    ensures Depth(s, index, MatchingParenthesis(s, index) + 1) == 0
    ensures forall m :: index < m <= MatchingParenthesis(s, index) ==> Depth(s, index, m) > 0
  {
    var k := MatchingParenthesis(s, index);
    assert Depth(s, index, index + 1) == 1 by {
      assert Depth(s, index, index) == 0;
    }
    var m := index + 1;
    while m < k
      invariant index < m <= k
      invariant forall q :: index < q <= m ==> Depth(s, index, q) > 0
    {
      assert !Closes(s, index, m);
      m := m + 1;
    }
  }

  lemma {:induction false} FlatRunCloses(s: string, index: nat, k: nat, close: nat)
    requires index < k <= close < |s| && s[close] == ')' && Depth(s, index, k) == 1
    requires forall m :: k <= m < close ==> s[m] != '(' && s[m] != ')'
    ensures MatchFrom(s, index, k, 1) == close
    decreases close - k
  {
    if k < close {
      assert Depth(s, index, k + 1) == Depth(s, index, k);
      FlatRunCloses(s, index, k + 1, close);
    }
  }

  /** A '(' followed by no parenthesis before the next ')' is matched by that ')'. */
  lemma FlatGroupCloses(s: string, index: nat, close: nat)
    requires index < close < |s| && s[index] == '(' && s[close] == ')'
    requires forall m :: index < m < close ==> s[m] != '(' && s[m] != ')'
    ensures MatchingParenthesis(s, index) == close
  {
    assert Depth(s, index, index + 1) == 1 by {
      assert Depth(s, index, index) == 0;
    }
    FlatRunCloses(s, index, index + 1, close);
  }
}
