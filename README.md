# Substitution engine of comparePhysicalQuantities, in Dafny

This project models the text-rewriting core of the comparePhysicalQuantities
evaluation function and proves properties about it. This is the part that
rewrites an answer and a response, before SymPy parses and compares them.

- **The single-scan `substitute`** of `app/expression_utilities.py`
  (module `Scanner`).
  - The scan goes left to right. At each position the first rule, in list
    order, whose pattern starts there is applied, and a placeholder is left.
    Otherwise one character is copied into a buffer.
  - Placeholders are filled in after the scan, and the pieces are joined.
  - The result is specified by `Scanner.Rewrite`, and by the token sequence
    `Scanner.Tokens` that the scan decides on.
- **`preprocess_expression`** of the same file (module `Preprocessing`).
  - It builds one rule, alternative → code, for every listed alternative of
    every input symbol.
  - It sorts the rules stably by descending alternative length.
  - It rewrites each expression of the list in place.
- **The per-rule `substitute`** of `app/evaluation.py` (module `RuleByRule`).
  - Rules are applied one after the other to a work list of text pieces and
    integer placeholders.
  - Each rule cuts every text piece at every occurrence of its pattern,
    overlapping occurrences included.
  - A length guard keeps the new list only when it is not shorter than the
    old one.
  - The result is specified by `RuleByRule.Applied` (the work list after the
    first `n` rules) and `RuleByRule.RuleByRuleRewrite`.
- **`find_matching_parenthesis`** (module `Parentheses`).
- **The substitution stage of `evaluation_function`**, lines 11-61: parameter
  merging, validation of the list of substitution strings, splitting each
  string into parenthesised rules and `|`-separated passes, and running the
  passes on the answer and the response. This is covered by modules
  `Passes` and `Configuration`. The groups read along the chain of
  `find('(')` calls are stated on their own (`Passes.GroupReads`), and the
  passes are proved to be those groups cut wherever a `|` follows one.
- **The unit registry of `app/unit_system_conversions.py`** (module `Units`).
  - It holds the prefix, base, derived and common unit tables, each sorted
    longest name first.
  - It holds the three-block short-form pass, made of protect rules,
    prefix×unit collision fixes and symbol→name rules.
  - It holds the SI and dimension chains.
- **Shared modules.** `Rules` holds rules, work lists and their expansion.
  `Sorting` models Python's `list.sort(key=lambda x: -len(x[0]))` as a
  stable sort by descending key, proved ordered, a permutation and stable.
  `Wrappers` holds `Option` and `Result`.

The loops of the source are methods, each proved equal to the specification
function that states what it computes:

- `Scanner.ScanParts` and `Scanner.Substitute`;
- `RuleByRule.FindAll`, `CutText`, `ApplyRule` and `Substitute`;
- `Parentheses.FindMatchingParenthesis`;
- `Passes.SplitPasses`;
- `Configuration.RunStrings`;
- `Units.BuildCollisionFixes`;
- `Preprocessing.BuildAliasRules`.

The in-place rewrite of the expression list in `preprocess_expression` is a
method over an `array`.

### Where the code and its documentation differ (the model follows the code)

- **The documentation examples of the single-scan `substitute`.** Its
  documentation lists four examples (`app/expression_utilities.py:42-49`).
  Only the first describes that routine. The scan always takes the first
  matching rule in list order and never looks at replacement text.
  - Lines 44-45 and 48-49 describe the per-rule `substitute` of
    `app/evaluation.py`. For lines 44-45, "abc bc c" with
    `[("c","r"), ("bc","q"), ("abc","p")]` gives "abr br r"; this is proved
    about the per-rule routine (`RuleByRule.EarlierRulesClaimTextExample`).
  - Lines 46-47 give "abc q c", which neither routine produces.
- **Passes of the chains.** A pass's output feeds the next pass, and the
  rules of a pass are sorted by descending pattern length only where the
  code sorts them: in `preprocess_expression`, in the pass splitting, and in
  the unit tables. The scanner itself applies rules in the order it is
  given, so for overlapping patterns the order of the list matters.
- **Default substitutions and "dimensions".** The default `substitutions`
  value and the dimension chain appended for a `"dimensions"` comparison are
  lists of lists of tuples, not strings. The validation at lines 34-37 therefore
  raises for both. The model proves this:
  - `Configuration.DefaultSubstitutionsRefused`;
  - `Configuration.DimensionsComparisonRefused`;
  - `Configuration.AcceptedExactly`, which says a configuration is accepted
    exactly when it names its substitutions as a string or a list of
    strings, gives `quantities` as a string, and does not ask for dimensions.
- **No lookahead condition.** This version of the code has no lookahead
  condition on matches.

### Behaviours of the code that the model keeps as written

- **Overlapping occurrences.** The per-rule routine searches the next
  occurrence from `i + 1` (`app/evaluation.py:130`), so overlapping
  occurrences are all cut. "aaa" with `("aa","X")` gives "XX".
- **Empty slices.** The text before an occurrence is kept whenever the
  occurrence is not at position 0 (`app/evaluation.py:133-134`), even when
  that text is empty. `RuleByRule.Slice` cuts slice bounds as Python does.
- **The length guard** (`app/evaluation.py:139-140`) can throw a later
  rule's work away. "ababc" with `[("ab","X"), ("c","Y")]` gives "XXc", not
  "XXY": the second rule turns four pieces into three.
- **The `|` search window** ends one character before the next `(`
  (`app/evaluation.py:51`). So `(a)|(bb)` is one pass, and `(a) | (bb)` is
  two.
- **An unmatched `(`.** If the group's text can still be read, the scan
  index goes back to the first `(` of the string, and the loop never ends
  (`Passes.UnclosedGroupRestartsScan`). The model returns the error
  `NeverTerminates` there.

## Model

| member | source | states |
|---|---|---|
| Parentheses.MatchFrom | app/evaluation.py:105-113 | From position `k`, with the depth counted so far, the result is -1 exactly when no later position closes the group. Otherwise it is the first position that does. |
| Parentheses.MatchingParenthesis | app/evaluation.py:103-113 | Returns -1 if and only if no position from `index` holds a `)` where the depth returns to zero. Otherwise it returns the first such position. |
| Parentheses.FindMatchingParenthesis | app/evaluation.py:103-113 | The depth-counting loop returns `MatchingParenthesis`. |
| Parentheses.OpeningParenthesisMatch | app/evaluation.py:104-112 | For a `(` at `index` with match `k`: `k > index`, `s[k]` is `)`, `s[index..k]` is balanced, and every proper prefix of it has more `(` than `)`. |
| Parentheses.FlatRunCloses | app/evaluation.py:105-112 | At depth 1 with no parentheses before the next `)`, that `)` is the match. |
| Parentheses.FlatGroupCloses | app/evaluation.py:103-112 | A group with no parentheses inside closes at its first `)`. |
| Rules.Patterns | app/evaluation.py:127-130 | The pattern column of a rule list: one entry per rule, entry `k` is rule `k`'s pattern. |
| Rules.PatternsAgree | app/evaluation.py:127-130 | Rule lists with the same pattern column agree rule by rule on patterns. |
| Rules.FirstCharacterDiffers | app/expression_utilities.py:65 | A pattern whose first character differs from the text's character at `i` does not start at `i`. |
| Rules.ExpandAppend | app/expression_utilities.py:79-83 | Expanding a concatenation of work lists is concatenating their expansions. |
| Rules.ExpandPushText | app/expression_utilities.py:68 | Appending a text piece appends that text to the expansion. |
| Rules.ExpandPushSlot | app/expression_utilities.py:70 | Appending rule `k`'s placeholder appends `k`'s replacement to the expansion. |
| Rules.ExpandFillSlot | app/expression_utilities.py:79-81 | Overwriting one placeholder in place by its rule's replacement leaves the joined result unchanged. |
| Rules.JoinIsExpand | app/expression_utilities.py:83 | `"".join` of a list of texts is its expansion. |
| Rules.FillPlaceholders | app/expression_utilities.py:79-83 | The fill-in-place loop and the join return the expansion of the work list. The per-rule routine uses the same loop, at app/evaluation.py:142-146. |
| Sorting.Insert | app/evaluation.py:53 | Inserting into a list makes it one element longer. |
| Sorting.SortByKeyDesc | app/evaluation.py:56 | The sort keeps the length of the list. |
| Sorting.InsertPermutes | app/evaluation.py:53 | Insertion adds exactly the inserted element to the multiset. |
| Sorting.InsertKeepsOrder | app/evaluation.py:53 | Insertion into a list sorted by descending key keeps it sorted. |
| Sorting.InsertIsStable | app/evaluation.py:53 | Among the elements of any one key, the inserted element goes first, and the others keep their order. |
| Sorting.SortPermutes | app/evaluation.py:56 | The sort is a permutation of its input. |
| Sorting.SortOrders | app/evaluation.py:56 | The sort's output has non-increasing keys. |
| Sorting.SortIsStable | app/evaluation.py:56 | Elements with equal keys keep their input order. |
| Sorting.SortKeepsMembers | app/evaluation.py:56 | An element is in the sorted list exactly when it is in the input. |
| Sorting.WithKeyAppend | app/evaluation.py:56 | Selecting the elements of one key commutes with concatenation. |
| Scanner.FirstMatchFrom | app/expression_utilities.py:64-72 | A rule found from `k` on has index at least `k`, and its pattern fits in the text. |
| Scanner.FirstMatch | app/expression_utilities.py:64-72 | A rule found at `i` is a rule of the list, and its pattern fits in the text from `i`. |
| Scanner.FirstMatchFromIsFirst | app/expression_utilities.py:64-72 | The rule found starts at `i`, and no rule between `k` and it does. `None` means no rule from `k` on starts at `i`. |
| Scanner.FirstMatchIsFirst | app/expression_utilities.py:64-72 | The rule found starts at `i`, and no earlier rule in list order does. `None` means no rule starts there. |
| Scanner.FirstMatchIs | app/expression_utilities.py:64-72 | Rule `k` is found exactly when it starts at `i` and no earlier rule does. |
| Scanner.NoFirstMatch | app/expression_utilities.py:64-73 | No rule is found exactly when no pattern starts at `i`. |
| Scanner.Scan | app/expression_utilities.py:62-77 | Every applied-rule token refers to a rule of the list. |
| Scanner.Tokens | app/expression_utilities.py:62-77 | The whole scan's tokens refer only to rules of the list. |
| Scanner.FindRuleAt | app/expression_utilities.py:64-72 | The loop that tries the rules in order returns the first match at `index`. |
| Scanner.FlushThenPlace | app/expression_utilities.py:67-70 | Flushing a non-empty buffer and then leaving placeholder `k` adds the buffer and then `k`'s replacement to the expansion. |
| Scanner.ScanParts | app/expression_utilities.py:55-77 | The scan loop builds a work list whose placeholders are all valid and whose expansion is `Rewrite(s, rules)`. |
| Scanner.Substitute | app/expression_utilities.py:28-83 | `substitute(s, rules)` returns `Rewrite(s, rules)`. |
| Scanner.ScanApplies | app/expression_utilities.py:65-72 | Where rule `k` is the first match, the scan emits `Apply(k)` and continues after the pattern. |
| Scanner.ScanCopies | app/expression_utilities.py:73-75 | Where nothing matches, the scan copies one character and moves on by one. |
| Scanner.RewriteApplies | app/expression_utilities.py:65-72 | Where rule `k` is the first match, the output is `k`'s replacement followed by the output after the pattern. |
| Scanner.RewriteCopies | app/expression_utilities.py:73-75 | Where nothing matches, the output is the character followed by the output from the next position. |
| Scanner.TextsOfApply | app/expression_utilities.py:70 | An applied rule contributes its replacement to the output and its pattern to the input. |
| Scanner.TextsOfCopy | app/expression_utilities.py:74 | A copied character contributes itself to both the output and the input. |
| Scanner.ScanOutputIsRewrite | app/expression_utilities.py:55-83 | The tokens' output from `i` is what the scan emits from `i`. |
| Scanner.MatchedText | app/expression_utilities.py:65 | Where rule `k` matches, the rest of the text is its pattern followed by the text after it. |
| Scanner.ScanInputIsText | app/expression_utilities.py:62-75 | The tokens' input from `i` is exactly the rest of the text: nothing is skipped or read twice. |
| Scanner.ScanAccountsForBothTexts | app/expression_utilities.py:55-83 | From any position, the output is copied characters and replacements in order, and the input is the same with patterns in place of replacements. |
| Scanner.TokensAccountForBothTexts | app/expression_utilities.py:55-83 | The whole output is the in-order concatenation of copied characters and replacements. The whole input is the same concatenation with the patterns. |
| Scanner.FirstMatchFromIgnoresReplacements | app/expression_utilities.py:64-65 | Which rule matches depends only on the patterns. |
| Scanner.SamePatternsNonEmpty | app/expression_utilities.py:65 | Lists with the same patterns agree on having no empty pattern. |
| Scanner.ScanIgnoresReplacements | app/expression_utilities.py:62-77 | The scan's decisions are the same for any replacement texts. |
| Scanner.ReplacementsAreNotRescanned | app/expression_utilities.py:79-81 | Replacement text is never matched again: with any other replacements for the same patterns, the result is the same decisions with the other texts. |
| Scanner.NothingMatchesFrom | app/expression_utilities.py:62-77 | If no pattern starts anywhere from `i` on, the output from `i` is the text from `i`. |
| Scanner.NoMatchIsIdentity | app/expression_utilities.py:62-77 | If no pattern starts at any position, `substitute` returns its input unchanged. |
| Scanner.EmptyRuleListIsIdentity | app/expression_utilities.py:62-77 | The empty rule list is the identity. |
| Scanner.StartsAtShifts | app/expression_utilities.py:65 | A match at `i + j` in `s` is a match at `j` in `s[i..]`. |
| Scanner.FirstMatchFromShifts | app/expression_utilities.py:64-72 | The rule found at `i + j` in `s` is the one found at `j` in `s[i..]`. |
| Scanner.FirstMatchShifts | app/expression_utilities.py:64-72 | The same, from the first rule. |
| Scanner.ShiftedStep | app/expression_utilities.py:62-75 | One scan step emits the same text and advances by the same positive amount on `s` from `i + j` and on `s[i..]` from `j`. |
| Scanner.RewriteFromShifts | app/expression_utilities.py:62-77 | The output of `s` from `i + j` is the output of `s[i..]` from `j`. |
| Scanner.FirstMatchingRuleApplies | app/expression_utilities.py:64-72 | First-match priority: if rule `k` is the first whose pattern starts the text, the result is `k`'s replacement followed by the rewrite of the text after the pattern. |
| Scanner.UnmatchedCharacterIsCopied | app/expression_utilities.py:73-75 | If no rule starts the text, its first character is copied and the rest is rewritten. |
| Scanner.EmptyPatternDoesNotAdvance | app/expression_utilities.py:65-71 | An empty first pattern matches at every position and advances the index by 0. |
| Scanner.NonEmptyPatternsEnd | app/expression_utilities.py:62-77 | With no empty pattern the loop ends from every position. |
| Scanner.EmptyFirstPatternStalls | app/expression_utilities.py:62-71 | When the first rule's pattern is empty, the loop never ends on a non-empty text. |
| Scanner.EmptyTextEnds | app/expression_utilities.py:62 | On an empty text the loop ends at once, whatever the rules, empty patterns included. |
| Scanner.CoveredEmptyPatternEnds | app/expression_utilities.py:62-72 | An empty pattern the scan never reaches does not stall it: "a" with `("a","b")` before `("","c")` ends. |
| Scanner.GuardedNameIsKept | app/expression_utilities.py:64-72 | A name covered by an identity rule, where every earlier rule is at least as long and different, is left as it is. |
| Scanner.FirstWithPattern | app/expression_utilities.py:64 | The first rule with a given pattern exists when some rule has it, and no earlier rule has it. |
| Scanner.ProtectedNameIsKept | app/unit_system_conversions.py:137-141 | A block of identity rules sorted longest first, put before any other rules, keeps each of its names intact. |
| Scanner.EmptyTextIsKept | app/expression_utilities.py:62 | The empty text is rewritten to the empty text. |
| Scanner.AbcBecomesP | app/expression_utilities.py:42-43 | With `[("abc","p"),("bc","q"),("c","r")]`, a text starting with "abc" gives "p" followed by the rewrite of the rest. |
| Scanner.BcBecomesQ | app/expression_utilities.py:42-43 | A text starting with "bc" gives "q" followed by the rewrite of the rest. |
| Scanner.CBecomesR | app/expression_utilities.py:42-43 | A text starting with "c" gives "r" followed by the rewrite of the rest. |
| Scanner.SpaceIsCopied | app/expression_utilities.py:42-43 | A leading space is copied. |
| Scanner.DocumentedTail | app/expression_utilities.py:42-43 | " c" becomes " r". |
| Scanner.DocumentedMiddle | app/expression_utilities.py:42-43 | " bc c" becomes " q r". |
| Scanner.DocumentedText | app/expression_utilities.py:42-43 | Any text spelling "abc bc c" becomes "p q r". |
| Scanner.LongestFirstExample | app/expression_utilities.py:42-43 | `substitute("abc bc c", [("abc","p"),("bc","q"),("c","r")])` is "p q r". |
| Scanner.NoRescanOn | app/evaluation_tests.py:76-83 | Any text spelling "ab", with `[("a","b"),("b","d")]`, becomes "bd". |
| Scanner.NoRescanExample | app/evaluation_tests.py:76-83 | "ab" becomes "bd", not "dd": the inserted "b" is not rewritten. |
| Preprocessing.AliasRuleCount | app/expression_utilities.py:16-21 | There is one rule per listed alternative, before and after sorting. |
| Preprocessing.AliasRulesOfMembers | app/expression_utilities.py:18-20 | The collected rules are exactly the (alternative, code) pairs of the input symbols. |
| Preprocessing.AliasRulesMembers | app/expression_utilities.py:16-21 | The same holds after the sort. |
| Preprocessing.AliasRulesSortedStably | app/expression_utilities.py:21 | The rules are sorted by descending alternative length. Alternatives of equal length keep their input order. |
| Preprocessing.AliasPatternsNonEmpty | app/expression_utilities.py:18-21 | Non-empty alternatives give rules with non-empty patterns, so the scan ends. |
| Preprocessing.BuildAliasRules | app/expression_utilities.py:17-21 | The nested append loops followed by the sort build `AliasRules`. |
| Preprocessing.PreprocessExpressions | app/expression_utilities.py:16-26 | Each array element is replaced in place by its rewrite with the sorted alias rules. Without input symbols the array is unchanged. |
| Preprocessing.PreprocessExpression | app/expression_utilities.py:13-14 | A lone string becomes a new one-element list holding its preprocessed form. |
| Preprocessing.WithoutInputSymbolsNothingChanges | app/expression_utilities.py:16-26 | Without `input_symbols` the list is returned unchanged. |
| Preprocessing.ExpressionsRewrittenIndependently | app/expression_utilities.py:23-24 | The result has one entry per expression, and each entry depends only on its own expression. |
| Preprocessing.ExpressionWithoutAlternativesIsKept | app/expression_utilities.py:16-26 | An expression in which no alternative spelling occurs is kept as it is. |
| RuleByRule.Find | app/evaluation.py:127 | `str.find` returns -1 or a position at or after `start` where the pattern fits. |
| RuleByRule.FindIsFirstMatch | app/evaluation.py:127-130 | `find` returns -1 exactly when the pattern occurs nowhere from `start` on. Otherwise it returns an occurrence, and no earlier position from `start` is one. |
| RuleByRule.FindCharacter | app/evaluation.py:43 | A one-character pattern is found at the first position from `start` holding its character. |
| RuleByRule.NoCharacterFrom | app/evaluation.py:43 | A one-character pattern is not found when its character does not occur from `start` on. |
| RuleByRule.OccurrencesSkip | app/evaluation.py:127-130 | Collecting from `from` or from the first occurrence after it gives the same list. |
| RuleByRule.OccurrencesAreAllMatches | app/evaluation.py:126-130 | The collected positions are exactly the occurrences from `from` on, overlapping ones included, in strictly increasing order. |
| RuleByRule.Cut | app/evaluation.py:131-138 | Cutting gives at least one piece per remaining occurrence. |
| RuleByRule.Image | app/evaluation.py:123-124 | A placeholder is passed through unchanged. |
| RuleByRule.StepParts | app/evaluation.py:121-138 | The empty work list stays empty. |
| RuleByRule.StepPartsPush | app/evaluation.py:122-138 | A rule rewrites the work list element by element, in order. |
| RuleByRule.CutPlacesOwnSlots | app/evaluation.py:131-138 | Every placeholder that cutting puts in is the current rule's own. |
| RuleByRule.ImagePlacesOwnSlots | app/evaluation.py:125-138 | A text element becomes texts and placeholders of the current rule. |
| RuleByRule.StepKeepsSlotsBelow | app/evaluation.py:120-138 | After rule `k`, every placeholder refers to one of the first `k + 1` rules. |
| RuleByRule.SamePatternAt | app/evaluation.py:127-130 | Rule lists with the same patterns have the same pattern at each index. |
| RuleByRule.AppliedStart | app/evaluation.py:116-117 | Before any rule, the work list is the whole string. |
| RuleByRule.AppliedUnfolds | app/evaluation.py:120-140 | After `n` rules, the work list is rule `n - 1` applied to the list after `n - 1` rules, under the length guard. |
| RuleByRule.AppliedSlotsBelow | app/evaluation.py:120-144 | After the first `n` rules, every placeholder refers to one of them, so the final fill never indexes past the list. |
| RuleByRule.FindAll | app/evaluation.py:126-130 | The `while i > -1` loop collects `Occurrences(part, p, 0)`. |
| RuleByRule.CutText | app/evaluation.py:131-138 | The `for i in substitution_locations` loop and its tail build `Cut` of the part. |
| RuleByRule.SplitText | app/evaluation.py:126-138 | A text part becomes its image under the rule. |
| RuleByRule.ApplyRule | app/evaluation.py:121-138 | The `for part in string` loop builds `StepParts`. |
| RuleByRule.Substitute | app/evaluation.py:115-146 | The per-rule `substitute` returns `RuleByRuleRewrite(s, rules)`: each rule in turn under the length guard, then the fill and join. |
| RuleByRule.AppliedIgnoresReplacements | app/evaluation.py:120-140 | Where placeholders go depends only on the patterns. |
| RuleByRule.ReplacementsAreNotRescanned | app/evaluation.py:123-124 | Replacement text is never searched: rewriting with other replacements for the same patterns expands the same work list. |
| RuleByRule.EarlierSlotsAppend | app/evaluation.py:121-138 | The earlier rules' placeholders in a concatenation are those of each part, in order. |
| RuleByRule.NoEarlierSlots | app/evaluation.py:135 | A list whose placeholders all belong to later rules has none of the earlier ones. |
| RuleByRule.StepKeepsEarlierSlots | app/evaluation.py:123-124 | A rule never removes, adds or reorders the placeholders of earlier rules. |
| RuleByRule.PlacedSlotsPersist | app/evaluation.py:120-140 | Once the first `n` rules have placed their placeholders, every later work list holds exactly those placeholders, in the same order. |
| RuleByRule.AppliedKeepsEarlierSlots | app/evaluation.py:120-140 | Rule `m - 1` keeps the earlier placeholders, whether or not the guard keeps its list. |
| RuleByRule.GuardKeepsEarlierSlots | app/evaluation.py:139-140 | The length guard keeps the earlier rules' placeholders either way. |
| RuleByRule.AppliedStep | app/evaluation.py:120-140 | After `n` rules, the work list is rule `n - 1`'s rewrite of the previous list if that is not shorter, and the previous list otherwise. |
| RuleByRule.TextStep | app/evaluation.py:120-140 | On an untouched string, a rule gives the string's image, unless the image is empty. |
| RuleByRule.RuleNotFoundKeepsText | app/evaluation.py:126-138 | A rule whose pattern is not found leaves an untouched string as it is. |
| RuleByRule.AppliedWithoutOccurrence | app/evaluation.py:120-140 | If none of the first `n` patterns is found, the work list is still the whole string. |
| RuleByRule.NoOccurrenceIsIdentity | app/evaluation.py:115-146 | A string in which no pattern is found is returned unchanged. |
| RuleByRule.TextIsPattern | app/evaluation.py:131-138 | A text that is exactly the pattern becomes the rule's single placeholder. |
| RuleByRule.WholeTextMatched | app/evaluation.py:120-140 | An untouched string that is exactly rule `n - 1`'s pattern becomes that rule's placeholder. |
| RuleByRule.SlotsPassThrough | app/evaluation.py:123-124 | A work list of placeholders only is passed through by every rule. |
| RuleByRule.OnlySlotsLeft | app/evaluation.py:120-140 | Once only placeholders are left, no later rule changes the work list. |
| RuleByRule.UnfoundTextKept | app/evaluation.py:126-138 | A non-empty text in which the pattern is not found is kept whole. |
| RuleByRule.UnfoundPatternKeepsParts | app/evaluation.py:121-138 | Placeholders, and non-empty texts without the pattern, are passed through unchanged. |
| RuleByRule.RewriteOf | app/evaluation.py:142-146 | The result is the expansion of the final work list. |
| RuleByRule.OverlappingImage | app/evaluation.py:126-138 | In "aaa" the pattern "aa" is cut at 0 and at 1, leaving an empty text between the two placeholders. |
| RuleByRule.OverlappingOccurrencesOn | app/evaluation.py:115-146 | Any text spelling "aaa", with `("aa","X")`, becomes "XX". |
| RuleByRule.OverlappingOccurrencesExample | app/evaluation.py:130 | Overlapping occurrences are each replaced: "aaa" with `("aa","X")` gives "XX". |
| RuleByRule.QuirkOccurrences | app/evaluation.py:126-130 | "ab" occurs in "ababc" at 0 and 2. |
| RuleByRule.QuirkFirstImage | app/evaluation.py:131-138 | The first rule cuts "ababc" into a placeholder, an empty text, a placeholder and "c". |
| RuleByRule.QuirkSecondRule | app/evaluation.py:121-138 | The second rule turns those four pieces into three. |
| RuleByRule.QuirkApplied | app/evaluation.py:139-140 | The length guard discards the three-piece list. |
| RuleByRule.QuirkExpansion | app/evaluation.py:142-146 | The kept list expands to "XXc". |
| RuleByRule.LengthGuardOn | app/evaluation.py:115-146 | Any text spelling "ababc", with `[("ab","X"),("c","Y")]`, becomes "XXc". |
| RuleByRule.LengthGuardDropsRuleExample | app/evaluation.py:139-140 | The guard drops the second rule's work: "ababc" becomes "XXc". |
| RuleByRule.SharedPrefixOnAb | app/evaluation_tests.py:85-92 | With the pass sorted to `('ab','e') ('a','d') ('c','e')`, "ab" becomes "e". |
| RuleByRule.OnlyCFound | app/evaluation.py:127 | None of "ab", "a" and "b" is found in "c". |
| RuleByRule.SharedPrefixOnC | app/evaluation_tests.py:85-92 | With the same pass, "c" becomes "e". |
| RuleByRule.SharedPrefixExample | app/evaluation_tests.py:85-92 | The response "ab" and the answer "c" both become "e". |
| RuleByRule.ChainedFirstImage | app/evaluation.py:131-138 | `('a','b')` cuts "ab" into its placeholder and "b". |
| RuleByRule.ChainedSecondStep | app/evaluation.py:121-138 | `('b','d')` turns the remaining "b" into its placeholder and skips the first. |
| RuleByRule.ChainedAbApplied | app/evaluation.py:120-140 | "ab" ends as the placeholders of rules 0 and 1. |
| RuleByRule.ChainedOnAb | app/evaluation_tests.py:76-83 | "ab" becomes "bd". |
| RuleByRule.ChainedOnC | app/evaluation_tests.py:76-83 | "c" becomes "bd". |
| RuleByRule.ReplacementNotRescannedExample | app/evaluation_tests.py:76-83 | The "b" put in by `('a','b')` is not rewritten by `('b','d')`: "ab" and "c" both become "bd". |
| RuleByRule.ShortestFirstOccurrences | app/evaluation.py:126-130 | "c" occurs in "abc bc c" at 2, 5 and 7. |
| RuleByRule.ShortestFirstImage | app/evaluation.py:131-138 | `('c','r')` cuts "abc bc c" into "ab", " b" and " ", each followed by its placeholder. |
| RuleByRule.UnchangedStep | app/evaluation.py:120-140 | A rule that changes nothing in the work list keeps it. |
| RuleByRule.ThreeCutsKept | app/evaluation.py:121-138 | Three texts without the pattern, each followed by a placeholder, pass through the rule. |
| RuleByRule.ShortestFirstPieces | app/evaluation.py:127 | Neither "bc" nor "abc" is found in "ab", " b" or " ". |
| RuleByRule.ThreeCutsApplied | app/evaluation.py:120-140 | When the later patterns are not found in the first rule's pieces, the work list stays as the first rule left it. |
| RuleByRule.ThreeCutsRewrite | app/evaluation.py:142-146 | Such a list expands to the three texts, each followed by the first replacement. |
| RuleByRule.ShortestFirstOn | app/evaluation.py:115-146 | Any text spelling "abc bc c", with `[("c","r"),("bc","q"),("abc","p")]`, becomes "abr br r". |
| RuleByRule.EarlierRulesClaimTextExample | app/expression_utilities.py:44-45 | Earlier rules claim text first: "abc bc c" with the shortest pattern first gives "abr br r". |
| Passes.SplitPasses | app/evaluation.py:41-57 | The parsing loop returns `ParsePasses`: the sorted passes, or the error for an unreadable group or an unclosed one. |
| Passes.StepExtendsPass | app/evaluation.py:45-51 | A group read with no `|` in the window before the next `(` joins the pass in progress. |
| Passes.StepClosesPass | app/evaluation.py:50-55 | A group followed by a `|` in the window closes the pass in progress, sorted. |
| Passes.SortPassSorted | app/evaluation.py:53 | A sorted pass is ordered longest pattern first and is a permutation of its rules. |
| Passes.ParseFromSorted | app/evaluation.py:44-57 | Every pass produced from any point of the loop is sorted. |
| Passes.PassesAreSorted | app/evaluation.py:52-57 | Every pass is sorted longest pattern first, so the longest possible match goes first. |
| Passes.FindWithinFindsBar | app/evaluation.py:51 | A `|` found inside a window is a `|` of the string. |
| Passes.ParseFromWithoutBar | app/evaluation.py:44-57 | Without any `|`, the loop adds exactly one pass. |
| Passes.NoBarMeansOnePass | app/evaluation.py:39-57 | A substitution string with no `|` is one pass. |
| Passes.UnclosedGroupRestartsScan | app/evaluation.py:45-50 | After a `(` with no match, the next search starts again at the string's first `(`, at or before the group, so the loop never ends. |
| Passes.GroupsFromLast | app/evaluation.py:45-50 | A group read and closed, with no `(` after it, is the last group of the chain. |
| Passes.GroupsFromNext | app/evaluation.py:45-51 | A group read and closed, with a `(` after it, is followed by the groups read from there; it closes its pass exactly when the window test finds a `\|`. |
| Passes.FirstSplit | app/evaluation.py:51 | The first group followed by a `\|`: no group before it is, and it is one unless there is none. |
| Passes.SegmentsOfSplit | app/evaluation.py:51-55 | A group followed by a `\|` makes its segment end with its rule. |
| Passes.SegmentsOfJoin | app/evaluation.py:47-51 | A group with no `\|` after it joins the segment that follows. |
| Passes.ParseFromGroups | app/evaluation.py:44-57 | From any group on, the loop returns the passes already closed followed by the sorted segments of the groups still to read, the pass in progress in front; or the error of the first group that cannot be read or never closes. |
| Passes.PassesFollowGroups | app/evaluation.py:39-57 | The passes of a string are the groups read along the `find('(')` chain, cut after every group whose window holds a `\|`, each cut sorted; an error is the first group's error. |
| Passes.SegmentsCover | app/evaluation.py:47-57 | The segments hold every rule read, each once, in reading order. |
| Passes.SegmentsCount | app/evaluation.py:51-57 | There is one segment more than there are groups followed by a `\|`. |
| Passes.SortAllPermutes | app/evaluation.py:53-56 | Sorting every pass keeps the rules of all passes together. |
| Passes.PassesHoldTheGroups | app/evaluation.py:39-57 | A string that parses has one pass per closing `\|` plus one; pass `i` is the `i`-th segment sorted, and the passes together hold exactly the rules read from the groups. |
| Passes.SortSingle | app/evaluation.py:53 | A one-rule pass is already sorted. |
| Passes.SpacedFirstGroup | app/evaluation.py:43-55 | In `(a) \| (bb)`, the `\|` closes the first pass after `(a)`. |
| Passes.SpacedSecondGroup | app/evaluation.py:44-57 | Then `(bb)` forms the last pass. |
| Passes.SpacedBarSplits | app/evaluation.py:51-57 | `(a) \| (bb)` gives two passes. |
| Passes.TightFirstGroup | app/evaluation.py:50-51 | In `(a)\|(bb)`, the `\|` lies outside the searched window, so no pass is closed. |
| Passes.SortTwo | app/evaluation.py:56 | A two-character pattern sorts before a one-character one. |
| Passes.TightSecondGroup | app/evaluation.py:44-57 | `(bb)` joins the same pass, which is sorted. |
| Passes.TightBarDoesNotSplit | app/evaluation.py:51 | `(a)\|(bb)` with no spaces gives one pass, `[bb, a]`. |
| Configuration.ChainValue | app/unit_system_conversions.py:153-156 | A chain as a Python value is a list with one inner list per pass. |
| Configuration.Strings | app/evaluation.py:36 | A list of string values gives the strings, in order. |
| Configuration.SubstituteAll | app/evaluation.py:11-61 | The substitution stage returns `Evaluate`: the error raised, or the rewritten answer and response. |
| Configuration.RunStrings | app/evaluation.py:39-61 | The loop over strings and passes returns `Run`, and stops at the first string that cannot be parsed. |
| Configuration.DefaultIsAChain | app/evaluation.py:11 | The default `substitutions` is a list of three lists. |
| Configuration.DimensionChainIsAList | app/evaluation.py:22 | The dimension chain is a list. |
| Configuration.NonStringRefused | app/evaluation.py:36-37 | A list holding a non-string is refused. |
| Configuration.NormalisedIsNeverAString | app/evaluation.py:34-35 | The value checked at line 34 is never a bare string, so that branch is dead. |
| Configuration.MergedSettings | app/evaluation.py:11-12 | After `update`, `substitutions` is the given one or the default, `quantities` is present exactly when given, and the comparison is "dimensions" exactly when asked. |
| Configuration.DefaultRefusedWith | app/evaluation.py:11-37 | Without `substitutions`, any default whose first element is a list is refused. |
| Configuration.DefaultSubstitutionsRefused | app/evaluation.py:11-37 | Without a `substitutions` parameter, the stage raises "not written correctly". |
| Configuration.DimensionsRefusedWith | app/evaluation.py:21-37 | For "dimensions", appending a list makes the check fail. |
| Configuration.DimensionsComparisonRefused | app/evaluation.py:21-37 | A "dimensions" comparison always raises. |
| Configuration.AcceptedWith | app/evaluation.py:14-37 | With `substitutions` given and no "dimensions", the strings are accepted if and only if the configuration is well formed, and they are `Configured`. |
| Configuration.AcceptedExactly | app/evaluation.py:11-37 | A configuration is accepted if and only if it is well formed. The strings are then `quantities`, if given, followed by the substitutions. |
| Configuration.QuantitiesComeFirst | app/evaluation.py:18-19 | The `quantities` string is the first one applied. |
| Configuration.ApplyPassesAppend | app/evaluation.py:59-61 | Applying `p + q` is applying `p` and then `q`. |
| Configuration.RunIsOneChain | app/evaluation.py:39-61 | Parsing and applying string by string equals applying the one chain of all passes to both the answer and the response, with the first parse error otherwise. |
| Configuration.ApplyPassesStep | app/evaluation.py:59-61 | One more pass rewrites what the earlier passes produced. |
| Configuration.RunStep | app/evaluation.py:39-61 | One more string's passes rewrite both the answer and the response. |
| Configuration.RunKeepsError | app/evaluation.py:46-49 | An error stays that error when another string follows. |
| Configuration.RunFailsAt | app/evaluation.py:46-49 | An unparsable string turns a successful run into its error. |
| Configuration.ErrorPersists | app/evaluation.py:46-49 | Once a prefix of the strings fails, every longer prefix fails with the same error. |
| Configuration.RunStopsAtError | app/evaluation.py:46-49 | An error in one string ends the whole run with that error. |
| Units.PrefixRow | app/unit_system_conversions.py:10-29 | Every prefix has a name and a symbol. |
| Units.BaseUnitRow | app/unit_system_conversions.py:40-46 | Every base unit has a name, a symbol and a dimension name. |
| Units.DerivedUnitRow | app/unit_system_conversions.py:57-77 | Every derived unit has a name and a symbol. |
| Units.DerivedUnitRowBelow11 | app/unit_system_conversions.py:57-67 | The first eleven derived units have a name and a symbol. |
| Units.DerivedUnitRowFrom11 | app/unit_system_conversions.py:68-77 | The remaining derived units have a name and a symbol. |
| Units.VeryCommonUnitRow | app/unit_system_conversions.py:88-97 | Every very common unit has a name and a symbol. |
| Units.OtherCommonUnitRow | app/unit_system_conversions.py:108-121 | Every other common unit has a name and a symbol. |
| Units.Names | app/unit_system_conversions.py:127-131 | The name column: one name per entry, in order. |
| Units.Values | app/unit_system_conversions.py:129 | The value column: one value per entry, in order. |
| Units.NameToValue | app/unit_system_conversions.py:154-156 | One rule per entry, from its name to its value, in order. |
| Units.SymbolToName | app/unit_system_conversions.py:149 | One rule per entry, from its symbol to its name, in order. |
| Units.Identities | app/unit_system_conversions.py:137-140 | One identity rule per word, in order. |
| Units.AppendFixesFor | app/unit_system_conversions.py:144-147 | The inner loop appends the three spellings of the prefix before each unit. |
| Units.BuildCollisionFixes | app/unit_system_conversions.py:142-147 | The nested loops build `CollisionFixes`. |
| Units.ConvertShortForms | app/unit_system_conversions.py:133-151 | `convert_short_forms` returns the protect block, then the collision fixes, then the symbol rules, each sorted longest first. |
| Units.SortIsStableLongestFirst | app/unit_system_conversions.py:31 | A sorted table is ordered longest name first, is a permutation of the source table, and keeps ties in source order. |
| Units.PrefixesShape | app/unit_system_conversions.py:5-32 | 20 prefixes, sorted stably longest name first. |
| Units.BaseUnitsShape | app/unit_system_conversions.py:34-49 | 7 base units, sorted stably longest name first. |
| Units.DerivedUnitsShape | app/unit_system_conversions.py:51-80 | 21 derived units, sorted stably longest name first. |
| Units.VeryCommonUnitsShape | app/unit_system_conversions.py:82-100 | 10 very common units, sorted stably longest name first. |
| Units.CommonUnitsShape | app/unit_system_conversions.py:102-124 | 24 common units: the other common units and the very common ones, sorted stably longest name first. |
| Units.NameCount | app/unit_system_conversions.py:126-131 | `names_of_prefixes_units_and_dimensions` lists 79 words. |
| Units.SortedMembers | app/unit_system_conversions.py:31 | An entry is in a sorted table exactly when it is in the source table. |
| Units.VeryCommonUnitsAreCommon | app/unit_system_conversions.py:122-124 | Every very common unit is a common unit. |
| Units.FixesForLength | app/unit_system_conversions.py:144-147 | Three fixes per unit. |
| Units.CollisionFixesLength | app/unit_system_conversions.py:142-147 | Three fixes for every prefix and unit pair. |
| Units.ShortFormUnitCount | app/unit_system_conversions.py:134-136 | 38 units have their short forms converted. |
| Units.ProtectedWordCount | app/unit_system_conversions.py:137-140 | 89 protected long forms. |
| Units.CollisionFixCount | app/unit_system_conversions.py:142-147 | 3 · 20 · 38 = 2280 collision fixes. |
| Units.ShortFormBlockSizes | app/unit_system_conversions.py:137-151 | The three blocks of the short-form pass hold 89, 2280 and 38 rules. |
| Units.FixesForMembers | app/unit_system_conversions.py:144-147 | A rule is a fix for a prefix exactly when it is one of the three spellings of that prefix before some unit. |
| Units.CollisionFixesComeFromPairs | app/unit_system_conversions.py:142-147 | Every collision fix is a spelling of some prefix and unit. |
| Units.PairsHaveCollisionFixes | app/unit_system_conversions.py:142-147 | Every spelling of every prefix and unit is a collision fix. |
| Units.CollisionFixMembers | app/unit_system_conversions.py:142-147 | A rule is a collision fix if and only if it is one of the three spellings of some prefix and unit. |
| Units.PrefixedSymbolsAreFixed | app/unit_system_conversions.py:142-151 | For every prefix and every converted unit, the rules taking the adjacent, `*` and space spellings to `prefix*(unit)` are all rules of the short-form pass. |
| Units.SortKeepsLabels | app/unit_system_conversions.py:31 | Sorting keeps every entry named and with a symbol. |
| Units.AppendKeepsLabels | app/unit_system_conversions.py:122 | Concatenating tables keeps every entry named and with a symbol. |
| Units.RowsLabelled | app/unit_system_conversions.py:9-30 | A table is labelled when each of its rows is. |
| Units.PrefixTableLabelled | app/unit_system_conversions.py:9-30 | Every prefix row has a name and a symbol. |
| Units.PrefixesLabelled | app/unit_system_conversions.py:5-32 | Every returned prefix has a name and a symbol. |
| Units.BaseUnitTableLabelled | app/unit_system_conversions.py:39-47 | Every base unit row has a name and a symbol. |
| Units.BaseUnitsLabelled | app/unit_system_conversions.py:34-49 | Every returned base unit has a name and a symbol. |
| Units.DerivedUnitTableLabelled | app/unit_system_conversions.py:56-78 | Every derived unit row has a name and a symbol. |
| Units.DerivedUnitsLabelled | app/unit_system_conversions.py:51-80 | Every returned derived unit has a name and a symbol. |
| Units.VeryCommonUnitTableLabelled | app/unit_system_conversions.py:87-98 | Every very common unit row has a name and a symbol. |
| Units.VeryCommonUnitsLabelled | app/unit_system_conversions.py:82-100 | Every returned very common unit has a name and a symbol. |
| Units.OtherCommonUnitTableLabelled | app/unit_system_conversions.py:107-121 | Every other common unit row has a name and a symbol. |
| Units.CommonUnitsLabelled | app/unit_system_conversions.py:102-124 | Every returned common unit has a name and a symbol. |
| Units.ShortFormUnitsLabelled | app/unit_system_conversions.py:134-136 | Every converted unit has a name and a symbol. |
| Units.BaseUnitsValued | app/unit_system_conversions.py:34-49 | Every base unit maps to a non-empty dimension name. |
| Units.WordsNonEmpty | app/unit_system_conversions.py:137-140 | Names and values of labelled tables are non-empty words. |
| Units.ProtectedWordsNonEmpty | app/unit_system_conversions.py:137-140 | No protected word is empty. |
| Units.SortKeepsNonEmptyPatterns | app/unit_system_conversions.py:141 | Sorting keeps every pattern non-empty. |
| Units.CollisionPatternsNonEmpty | app/unit_system_conversions.py:142-147 | Every collision fix has a non-empty pattern. |
| Units.ShortFormPassNonEmpty | app/unit_system_conversions.py:137-151 | A short-form pass built from non-empty words and labelled units has no empty pattern. |
| Units.ShortFormPatternsNonEmpty | app/unit_system_conversions.py:133-151 | No rule of `convert_short_forms` has an empty pattern, so scanning with it ends. |
| Units.NamesAppend | app/unit_system_conversions.py:127-131 | The names of a concatenation are the concatenated names. |
| Units.NameOfMember | app/unit_system_conversions.py:127-131 | The name of a member is among the names. |
| Units.SameWords | app/unit_system_conversions.py:126-140 | The protected words and the listed names are the same set of words, since the very common units are among the common ones. |
| Units.VeryCommonUnitsAllCommon | app/unit_system_conversions.py:122 | All very common units are common units. |
| Units.ProtectedWordsAreTheNames | app/unit_system_conversions.py:126-140 | A word is protected if and only if `names_of_prefixes_units_and_dimensions` lists it. |
| Units.ProtectedWordKept | app/unit_system_conversions.py:137-151 | Every protected word is kept by a short-form pass built from any prefixes and units. |
| Units.LongFormsSurviveShortForms | app/unit_system_conversions.py:133-151 | Every prefix, unit and dimension name is left unchanged by the short-form pass. |
| Units.NameToValueLongestFirst | app/unit_system_conversions.py:154-156 | A name→value pass from a sorted table is ordered longest pattern first. |
| Units.CommonPassLongestFirst | app/unit_system_conversions.py:153-156 | The SI chain has three passes, and the common-unit pass is ordered longest pattern first. |
| Units.DerivedPassLongestFirst | app/unit_system_conversions.py:155 | The derived-unit pass is ordered longest pattern first. |
| Units.PrefixPassLongestFirst | app/unit_system_conversions.py:156 | The prefix pass is ordered longest pattern first. |
| Units.DimensionChainShape | app/unit_system_conversions.py:158-165 | The dimension chain is the SI chain plus a fourth pass ordered longest first. The short-form variant puts `convert_short_forms()` first. |
| Units.NameToValueOfSorted | app/unit_system_conversions.py:154-156 | Each entry of a source table has its name→value rule in the pass. |
| Units.BaseUnitsBecomeDimensions | app/unit_system_conversions.py:161-162 | The dimension chain's last pass rewrites each base unit, such as "metre", to its dimension, such as "length". |

## Left out

- **The comparison after substitution**, `app/evaluation.py:63-101`: SymPy parsing, `simplify`, `evalf` and the float `rtol` test. These are calls into a library the model cannot see, and floating point. The SymPy parsing helpers at `app/expression_utilities.py:87-157` are left out for the same reason.
- **`eval` of a group's text** (`app/evaluation.py:47`) is a reader passed in as a parameter. It returns a rule, or `None` where `eval` raises `SyntaxError` or `TypeError`. Other exceptions of `eval`, and results that are not pairs of strings, are not modelled.
- **Work-list inputs to `substitute`.** Both `substitute` routines also accept a list that already holds placeholders. The model takes a string, which is how every caller in the core uses them.
- **`list.sort` with a key** is the pure function `Sorting.SortByKeyDesc`. It is proved ordered, a permutation and stable, which determines its result. The in-place mutation of the list is not modelled.
- Scanner.Substitute: requires every pattern to be non-empty. The source's loop stalls only once the scan reaches a position whose first matching rule has an empty pattern; `Scanner.ScanEnds` says exactly when that happens. Runs that end although a pattern is empty, such as an empty text or one whose every position is taken by an earlier rule, are therefore outside the modelled result too.
- Preprocessing.Preprocess: requires every alternative to be non-empty, for the same reason and with the same excluded runs.
- **Passes.SplitPasses** reports an unclosed group whose text is readable as the error `NeverTerminates`. The source loops forever there instead.
- **Configuration values** are reduced to strings, lists, rule tuples and "anything else". The `rtol` default is not modelled.
- **Units**: the conversion expressions are kept as opaque strings, and nothing is evaluated. The angstrom's symbol is kept as the two characters the source file holds.
- **Other source files**: `app/preview.py`, `app/generate_unit_conversion_arrays.py`, `app/test_sf.py` and the two test files. They are rendering, file generation and test scripts. The tests are used only as examples.
