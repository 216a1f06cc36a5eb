# sql-to-mongodb-query, modelled in Dafny

This project models the translator in `nddcoder/sql-to-mongodb-query`. The translator turns a parsed SQL `SELECT`
statement into a MongoDB query. It produces one of two results:

- a `FindQuery`: collection, filter, projection, sort, skip, limit and hint;
- an `Aggregate`: collection and a pipeline of `$match`, `$group`, `$project`, `$match`, `$sort`, `$skip` and
  `$limit` stages.

The model covers:

- the translator itself (`SqlToMongodbQuery`). It dispatches on the statement, reduces `WHERE`/`HAVING` conditions
  into a filter, converts each comparison, parses `IN` lists, validates grouped columns and builds accumulators and
  pipelines;
- the arithmetic pipeline used for expressions in the select list:
  - `PostfixConverter`, which tokenises and runs the shunting-yard algorithm;
  - `MongoExpressionConverter`, which turns a postfix list into an operator tree;
  - `GroupByArithmeticConverter`, which hoists aggregate calls out of the tree;
- the `Stack` class, the `FindQuery` value with its options, and the `str_replace_first` helper.

PHP arrays and scalars are modelled by one value type, `Php.V`. It has null, booleans, integers, numerals, strings,
regexes, opaque BSON objects, ordered string-keyed maps, lists and the empty `stdClass`. PHP exceptions and runtime
errors are `Fault` values inside a `Result`. The exceptions are `InvalidSqlQuery`, `NotSupportStatement`,
`InvalidSelectStatement`, `InvalidSelectField` and `NotSupportAggregateFunction`. The runtime errors are `TypeError`
and `ValueError`. A loop that never ends in PHP becomes `Err(Diverges)`.

Each loop in the source is a `method` with a `while` loop. Its `ensures` ties the result to a specification function,
and the lemmas state what the source promises about that function. The inline-function registry is updated in place
by `add`/`remove`, so it is a `map` field of the class `Statement.Translator`. The `Stack` is a class whose `data`
field the methods reassign.

Three inputs cannot be seen from the model, so they are parameters:

- the content hash that names hoisted aggregates (`md5(json_encode(...))`);
- `str_before`, an external helper;
- the random salt that `normalizeExpr` uses to hide identifiers.

## Model

| member | source | states |
|---|---|---|
| DataStruct.Stack.constructor | src/Lib/DataStruct/Stack.php:7-10 | the stack starts holding exactly the given items |
| DataStruct.Stack.Push | src/Lib/DataStruct/Stack.php:12-15 | the item is appended on top; nothing below changes |
| DataStruct.Stack.PushAll | src/Lib/DataStruct/Stack.php:17-22 | the items are pushed in order, the last ends on top |
| DataStruct.Stack.Pop | src/Lib/DataStruct/Stack.php:24-27 | an empty stack yields null and stays empty; otherwise the top item is returned and removed |
| DataStruct.Stack.Top | src/Lib/DataStruct/Stack.php:29-32 | null exactly when empty; otherwise the last pushed item, without removing it |
| DataStruct.Stack.Size | src/Lib/DataStruct/Stack.php:34-37 | the number of items held |
| DataStruct.Stack.IsNotEmpty | src/Lib/DataStruct/Stack.php:39-42 | true exactly when the size is positive |
| DataStruct.Stack.Clear | src/Lib/DataStruct/Stack.php:44-47 | the stack is left empty |
| DataStruct.Stack.GetData | src/Lib/DataStruct/Stack.php:49-52 | the items bottom to top |
| DataStruct.PushThenPop | src/Lib/DataStruct/Stack.php:12-27 | last in, first out: pop after push returns the pushed item and restores the stack |
| DataStruct.PushAllThenPopAll | src/Lib/DataStruct/Stack.php:17-27 | popping after pushAll returns the items reversed and restores the stack |
| QueryModel.NonZero | src/Model/FindQuery.php:20-29 | `$n ?: null` is null exactly for 0, the number otherwise |
| QueryModel.GetOptions | src/Model/FindQuery.php:20-29 | exactly the keys skip, limit, projection, sort, hint in that order; zero counts and absent parts are null |
| QueryModel.FindQueryDefaults | src/Model/FindQuery.php:8-18 | a query built from collection and filter has no projection, sort or hint and zero skip/limit; every option is null |
| QueryModel.OptionsDetermineQuery | src/Model/FindQuery.php:20-29 | two find queries on the same collection and filter with the same options are equal, so getOptions loses nothing |
| Helpers.ExplodeTwo | src/Support/helpers.php:6 | `explode($search, $subject, 2)` fails with ValueError exactly for an empty separator, otherwise gives one or two parts |
| Helpers.StrReplaceFirst | src/Support/helpers.php:4-7 | fails exactly for an empty search string |
| Helpers.NotFoundUnchanged | src/Support/helpers.php:4-7 | a subject without the search string is returned unchanged |
| Helpers.ReplacesFirstOccurrence | src/Support/helpers.php:4-7 | only the first occurrence is replaced; text before and after it is kept |
| Helpers.ReplaceFirstLength | src/Support/helpers.php:4-7 | the length changes by the replacement's length minus the search's length when found, and not otherwise |
| Helpers.ReplaceBySelf | src/Support/helpers.php:4-7 | replacing a string by itself changes nothing |
| Postfix.Priority | src/Lib/PostfixConverter.php:17-26 | `* / %` rank 2, `+ -` rank 1, non-operators 0 |
| PostfixLemmas.ListTokensSeparateOperators | src/Lib/PostfixConverter.php:28-39 | no token holds a blank, and a token holding a spaced operator or bracket is that character alone |
| PostfixLemmas.TokensIsolated | src/Lib/PostfixConverter.php:28-39 | the same separation for both spacing regexes, with or without `%` |
| PostfixLemmas.ModuloGluedAsWritten | src/Lib/PostfixConverter.php:31 | as written, `a % b` becomes the single token `a%b` |
| PostfixLemmas.ModuloSeparated | src/Lib/PostfixConverter.php:31 | with `%` spaced, `a % b` becomes `[a, %, b]` |
| Postfix.NormalizeTokens | src/Lib/PostfixConverter.php:41-81 | the loop computes the token normaliser that the lemmas below characterise |
| Postfix.ApplyClose | src/Lib/PostfixConverter.php:45-73 | the `)` branch pops back to the matching `(` and leaves the stack as the group step the lemmas below characterise |
| PostfixLemmas.CallCollapses | src/Lib/PostfixConverter.php:60-70 | `name ( args )` without operators becomes one token `name(args)` |
| PostfixLemmas.RedundantGroupUnwrapped | src/Lib/PostfixConverter.php:62-65 | brackets after an operator or bracket around operator-free tokens are dropped, leaving the joined text |
| PostfixLemmas.BottomGroupKeepsBrackets | src/Lib/PostfixConverter.php:60-70 | an operator-free group at the bottom of the stack is kept with its brackets as one token |
| PostfixLemmas.OperatorGroupRestored | src/Lib/PostfixConverter.php:72 | a group that contains an operator is pushed back unchanged, brackets included |
| Postfix.Shunting | src/Lib/PostfixConverter.php:83-114 | the loop computes the shunting-yard specification that the lemmas below characterise |
| Postfix.Convert | src/Lib/PostfixConverter.php:28-114 | tokenise with the regex as written (`%` is not spaced, so `a % b` stays the token `a%b`, as ModuloGluedAsWritten shows), normalise, then shunt as ShuntPermutes characterises |
| PostfixLemmas.EvictEmitsHigherPriority | src/Lib/PostfixConverter.php:90-96 | an operator pops exactly the run of stacked operators of priority at least its own, in stack order; what stays below has lower priority |
| PostfixLemmas.PopToOpenShape | src/Lib/PostfixConverter.php:103-107 | `)` emits everything above the nearest `(` and drops it; with no `(` on the stack the loop never ends |
| PostfixLemmas.ShuntPermutes | src/Lib/PostfixConverter.php:83-114 | with balanced brackets the output is a permutation of the non-bracket tokens, bracket-free, with operands in input order |
| PostfixLemmas.UnmatchedCloseDiverges | src/Lib/PostfixConverter.php:103-107 | more `)` than `(` makes the conversion diverge |
| PostfixLemmas.ShuntPrefixFails | src/Lib/PostfixConverter.php:83-114 | the only failure is divergence |
| Postfix.ShuntPrefixErrSticks | src/Lib/PostfixConverter.php:83-114 | once a prefix diverges, the whole input diverges |
| PostfixExamples.CallsGlued | tests/PostfixConverterTest.php:22-31 | on the test's tokens, the calls `sum(cost)`, `sum(impressions)`, `sum(clicks)` are glued and the operator group is kept |
| PostfixExamples.ExampleShunted | tests/PostfixConverterTest.php:22-31 | those tokens shunt to the nine tokens the test expects |
| PostfixExamples.ExampleTree | tests/MongoExpressionConverterTest.php:40-66 | that postfix list evaluates to the `$divide`/`$add` tree the test expects, under a root tagged `$multiple` as the code's table gives, where the test expects `$multiply` |
| MongoExpression.OperatorTag | src/Lib/MongoExpressionConverter.php:7-13 | the corrected table: every operator maps to a MongoDB arithmetic operator name, and it agrees with the table as written except that `*` gives `$multiply` |
| MongoExpression.MultiplyTagAsWritten | src/Lib/MongoExpressionConverter.php:10 | as written, `*` maps to `$multiple`, which is not a MongoDB operator; every other tag is |
| MongoExpression.OperatorTagInjective | src/Lib/MongoExpressionConverter.php:7-13 | in the table as written, different operators get different tags, so a tree names its operator unambiguously |
| MongoExpression.EvalStep | src/Lib/MongoExpressionConverter.php:27-38 | an operand is pushed as a string; an operator replaces the top two entries by one node, tagged from the table as written |
| MongoExpression.EvaluatePostfix | src/Lib/MongoExpressionConverter.php:20-41 | the loop computes the evaluation specification that the lemmas below characterise; nodes are tagged from the table as written, so `*` gives `$multiple` |
| MongoExpression.Convert | src/Lib/MongoExpressionConverter.php:20-41 | postfix conversion as written followed by evaluation; a postfix error is passed on |
| MongoExpression.EvaluateWellFormed | src/Lib/MongoExpressionConverter.php:20-41 | for a well-formed postfix list, the tree's leaves are the operand tokens in order and its internal nodes number the operators |
| MongoExpression.SecondPoppedIsLeft | src/Lib/MongoExpressionConverter.php:30-35 | `a b op` evaluates to the node `op(eval a, eval b)`, tagged as written: the second value popped is the left operand |
| MongoExpression.WellFormedAppend | src/Lib/MongoExpressionConverter.php:20-41 | two well-formed operands followed by an operator are well formed |
| MongoExpression.SingleOperand | src/Lib/MongoExpressionConverter.php:20-41 | a lone operand evaluates to itself as a string, which the translator treats as "not arithmetic" |
| MongoExpression.MissingOperandsAreNull | src/Lib/MongoExpressionConverter.php:30-35 | an operator with missing operands takes null for each one |
| MongoExpression.EvalFromAppend | src/Lib/MongoExpressionConverter.php:27-38 | evaluation of a concatenation is evaluation of the first part followed by the second |
| MongoExpression.EvalFromFrame | src/Lib/MongoExpressionConverter.php:27-38 | a well-formed segment only touches the entries it pushes |
| GroupByArithmetic.Convert | src/Lib/GroupByArithmeticConverter.php:28-59 | non-arrays are returned unchanged with nothing hoisted; an aggregate call node becomes its hash name and is hoisted |
| GroupByArithmetic.ListMappedElementwise | src/Lib/GroupByArithmeticConverter.php:52-58 | a list is converted element by element, keeping length and order |
| GroupByArithmetic.HoistedAreAggregateNodes | src/Lib/GroupByArithmeticConverter.php:28-59 | the hoisted entries are exactly the aggregate nodes of the input, outermost first, each named by its hash |
| GroupByArithmetic.EqualNodesShareName | src/Lib/GroupByArithmeticConverter.php:38-44 | two equal aggregate nodes are hoisted under the same name |
| GroupByArithmetic.ConvertSettles | src/Lib/GroupByArithmeticConverter.php:17-59 | the result has no aggregate node left, and its keys are lower-case |
| GroupByArithmetic.SettledUnchanged | src/Lib/GroupByArithmeticConverter.php:28-59 | a settled value is returned unchanged with nothing hoisted |
| GroupByArithmetic.ConvertIdempotent | src/Lib/GroupByArithmeticConverter.php:28-59 | converting a converted value changes nothing and hoists nothing |
| FilterMerge.RepeatedScalarFieldAsWritten | src/SqlToMongodbQuery.php:304-345 | as written, ANDing two filters on the same scalar field raises TypeError from `array_intersect_key` on line 327 |
| FilterMerge.RepeatedScalarField | src/SqlToMongodbQuery.php:304-345 | corrected, the two filters are combined with `$and` |
| FilterMerge.MergeAndAgrees | src/SqlToMongodbQuery.php:304-345 | the corrected merge equals the written one wherever that succeeds, and gives `$and` of both where it raises TypeError |
| FilterSemantics.MergeAndConjunction | src/SqlToMongodbQuery.php:304-345 | corrected (a scalar clash falls back to `$and`), the AND merge of two well-formed filters succeeds, is well formed and matches a document exactly when both do |
| FilterSemantics.MergeAndAsWrittenConjunction | src/SqlToMongodbQuery.php:304-345 | as written, the AND merge fails, always with TypeError, exactly when the first filter is non-empty with no `$and`, the two share exactly one key, and that key holds a scalar on either side; it succeeds when every shared key holds arrays; when it succeeds the result is well formed and matches exactly when both filters do |
| FilterSemantics.MergeOrDisjunction | src/SqlToMongodbQuery.php:236-259 | the OR merge succeeds, holds only `$or`, and matches exactly when either input does |
| FilterSemantics.MergeAndDisjoint | src/SqlToMongodbQuery.php:306-309 | with no shared keys the filters are concatenated, which is their conjunction |
| FilterSemantics.MergeAndIntoFirst | src/SqlToMongodbQuery.php:310-345 | a single shared key with array values is merged into the first filter, keeping the conjunction |
| FilterSemantics.MergeAndIntoSecond | src/SqlToMongodbQuery.php:310-345 | the same when the first filter is the single-key one |
| FilterSemantics.MergeAndShared | src/SqlToMongodbQuery.php:310-345 | with a single shared key and no `$and`, the written merge succeeds exactly when both values are arrays, fails otherwise with TypeError, and on success keeps the conjunction |
| FilterSemantics.MergeAndIntoAnd | src/SqlToMongodbQuery.php:310-345 | a filter that already holds `$and` absorbs the other as one more clause |
| Leaf.ConvertInlineFunction | src/SqlToMongodbQuery.php:482-494 | an unregistered or missing function name leaves the value; a registered one is built from the first argument, or null |
| Leaf.Inverted | src/SqlToMongodbQuery.php:542-568 | the restore table is the replacer table with each pair swapped |
| Leaf.NoIdentifiersNoReplacers | src/SqlToMongodbQuery.php:542-568 | without non-empty identifiers nothing is replaced; the non-empty cases are HideSingle and HideTwo |
| Leaf.BuildReplacers | src/SqlToMongodbQuery.php:542-568 | the loop computes the replacer specification; HideTwo, HideSingle and HideRestore below state what it hides and that restoring gives the text back |
| Leaf.ReplaceOperators | src/SqlToMongodbQuery.php:570-579 | the loop computes the operator-spacing specification; LeafText.SpacedOperator states the blanks it puts around each comparison operator |
| Leaf.NormalizeExpr | src/SqlToMongodbQuery.php:517-540 | the loop computes the normalisation specification; LeafText.GluedTokens and ProtectedTokens state the tokens it yields |
| Leaf.Without | src/SqlToMongodbQuery.php:385 | exactly the identifiers other than the field remain |
| Leaf.ConvertOperator | src/SqlToMongodbQuery.php:347-420 | the method computes the comparison converter that the LeafLemmas rows characterise from tokens and LeafText.GluedComparison and ProtectedLiteral from expression text |
| Leaf.RestoreItem | src/SqlToMongodbQuery.php:431-438 | the loop restores the hidden identifiers of one IN item; LeafText.RestoreOne and the IN-list rows below state what it gives back |
| LeafText.StrTrFresh | src/SqlToMongodbQuery.php:539 | `strtr` leaves text in which no key occurs unchanged |
| LeafText.SpacedOperator | src/SqlToMongodbQuery.php:521-535 | each comparison operator comes out of the three passes as itself with one or two blanks on each side |
| LeafText.HideTwo | src/SqlToMongodbQuery.php:542-568 | with a column and a quoted identifier, only the quoted literal is replaced by its key; the table holds both identifiers' key pairs |
| LeafText.HideSingle | src/SqlToMongodbQuery.php:542-568 | with one identifier the table is its key pair and the text is what `strtr` gives |
| LeafText.HideOne | src/SqlToMongodbQuery.php:557-560 | `strtr` puts the identifier's key in place of the single-quoted identifier and leaves the text around it |
| LeafText.RestoreOne | src/SqlToMongodbQuery.php:539 | `strtr` with the table puts the single-quoted identifier back in place of its key |
| LeafText.HideRestore | src/SqlToMongodbQuery.php:517-568 | hiding a single-quoted identifier and restoring it gives the text back, for any literal without a quote and text around it without `_` |
| LeafText.GluedTokens | src/SqlToMongodbQuery.php:517-540 | `age>=12` is cut into the same tokens `[age, >=, 12]` as `age >= 12` |
| LeafText.GluedComparison | src/SqlToMongodbQuery.php:347-420 | a column compared with an integer, operator glued to both, gives the comparison filter on that integer |
| LeafText.ProtectedTokens | src/SqlToMongodbQuery.php:517-568 | a quoted literal that holds operator characters stays one token after the column and the operator |
| LeafText.ProtectedLiteral | src/SqlToMongodbQuery.php:347-420 | that literal reaches the filter whole, as a string: `name>'a>=b'` gives `{name: {$gt: 'a>=b'}}` |
| LeafText.CommaItems | src/SqlToMongodbQuery.php:424-426 | in `('a,b', 3)` the quoted comma is hidden while the list is cut, so there are two items |
| LeafText.CommaInList | src/SqlToMongodbQuery.php:422-465 | `('a,b', 3)` gives the literal with its comma, then the number; a string unless a builder bears the literal's name |
| LeafText.BuilderItems | src/SqlToMongodbQuery.php:424-426 | `(ObjectId('x'))` is one item, its literal hidden |
| LeafText.BuilderInList | src/SqlToMongodbQuery.php:422-465 | that item is built by the builder its text names, with the literal as argument; without such a builder it stays a string |
| LeafLemmas.StringFilter | src/SqlToMongodbQuery.php:388-419 | a column compared with a quoted string gives the string without its quotes, under the operator's filter shape |
| Leaf.MapItems | src/SqlToMongodbQuery.php:428-464 | each IN item is converted on its own, keeping count and order |
| Leaf.ParseValueForInQuery | src/SqlToMongodbQuery.php:422-465 | the method computes the IN-list specification; LeafText.CommaInList and BuilderInList state it on a quoted comma and on a builder item |
| Leaf.ConvertItems | src/SqlToMongodbQuery.php:428-464 | the loop converts every item as MapItems states |
| LeafLemmas.QuotedStaysString | src/SqlToMongodbQuery.php:388-407 | a quoted value is the string between the quotes |
| LeafLemmas.IntegerValue | src/SqlToMongodbQuery.php:388-407 | an integer numeral becomes that integer |
| LeafLemmas.BareWordValue | src/SqlToMongodbQuery.php:388-407 | a bare word goes through the inline-function builders, except for IN |
| LeafLemmas.ReversedComparison | src/SqlToMongodbQuery.php:355-362 | `n op f` gives the same filter as `f mirror(op) n` |
| LeafLemmas.ComparisonFilter | src/SqlToMongodbQuery.php:409-419 | `=` gives the value, `<>`/`!=` `$ne`, and the order comparisons `$gt/$gte/$lt/$lte` |
| LeafLemmas.IsNotNull | src/SqlToMongodbQuery.php:366-373 | `f IS NOT NULL` gives `$ne: null` |
| LeafLemmas.IsNull | src/SqlToMongodbQuery.php:366-373 | `f IS NULL` gives null |
| LeafLemmas.NotLike | src/SqlToMongodbQuery.php:409-419 | `f NOT LIKE 'x'` gives `$not` of a case-insensitive regex on x |
| LeafLemmas.Like | src/SqlToMongodbQuery.php:409-419 | `f LIKE 'x'` gives a case-insensitive regex on x |
| LeafLemmas.NotIn | src/SqlToMongodbQuery.php:409-419 | `f NOT IN (...)` gives `$nin` over the parsed list |
| LeafLemmas.UnknownOperatorEmpty | src/SqlToMongodbQuery.php:409-419 | the filter is empty exactly when the operator is unknown |
| LeafLemmas.ItemWithoutTable | src/SqlToMongodbQuery.php:448-461 | with nothing hidden, an item is its own value |
| LeafLemmas.QuotedBare | src/SqlToMongodbQuery.php:467-475 | a quoted item is a string value whose content is between the quotes |
| LeafLemmas.IntegerItem | src/SqlToMongodbQuery.php:448-461 | an integer numeral item becomes that integer |
| LeafLemmas.QuotedNumeralItem | src/SqlToMongodbQuery.php:448-461 | a quoted numeral item stays a string |
| LeafLemmas.QuotedTrueItem | src/SqlToMongodbQuery.php:448-461 | `'true'` in an IN list becomes boolean true, as the quotes are stripped before the keyword test |
| Reducer.CollectOr | src/SqlToMongodbQuery.php:212-235 | the loop collects the run after OR that the specification describes |
| Reducer.CollectGroup | src/SqlToMongodbQuery.php:278-298 | the loop collects a bracketed group as the specification describes |
| Reducer.OrStep | src/SqlToMongodbQuery.php:212-260 | one OR step advances the reduction exactly as the specification does, errors included |
| Reducer.LeafStep | src/SqlToMongodbQuery.php:264-275 | one comparison step advances the reduction exactly as the specification does, merging with the AND merge as written, TypeError included |
| Reducer.GroupStep | src/SqlToMongodbQuery.php:278-298 | one group step advances the reduction exactly as the specification does, merging with the AND merge as written |
| Reducer.ParseWhereConditions | src/SqlToMongodbQuery.php:195-302 | the loop computes the reduction, AND merge as written, that the ReducerLemmas rows characterise |
| ReducerLemmas.IdentifierBracketsIgnored | src/SqlToMongodbQuery.php:496-508 | brackets inside identifiers do not count |
| ReducerLemmas.OpenBracket | src/SqlToMongodbQuery.php:496-508 | a leading `(` raises the count by one |
| ReducerLemmas.CloseBracket | src/SqlToMongodbQuery.php:496-508 | a trailing `)` lowers it by one |
| ReducerLemmas.AndChainMeaning | src/SqlToMongodbQuery.php:264-275 | an AND chain of comparisons fails only with TypeError; when it succeeds it is the conjunction of the start filter and the leaves |
| ReducerLemmas.AndChainSucceeds | src/SqlToMongodbQuery.php:264-275 | the chain succeeds when every field that the filter and the leaves share holds arrays |
| ReducerLemmas.ConjunctionOfLeaves | src/SqlToMongodbQuery.php:195-302 | conditions without OR or brackets reduce to the conjunction of their comparisons or fail with TypeError; they succeed when repeated fields hold arrays |
| ReducerLemmas.RepeatedScalarLeaves | src/SqlToMongodbQuery.php:264-275 | `a = 1 AND a = 2`: two leaves on the same scalar field make the reduction fail with TypeError |
| ReducerLemmas.OrOfSimpleRuns | src/SqlToMongodbQuery.php:212-260 | `a OR b` over simple runs is the OR merge of their AND chains |
| ReducerLemmas.DisjunctionOfRuns | src/SqlToMongodbQuery.php:212-260 | when it succeeds that filter holds only `$or` and holds exactly when all of a or all of b holds; it fails only with TypeError, and succeeds when each run repeats fields only with arrays |
| ReducerLemmas.BracketedOr | src/SqlToMongodbQuery.php:278-298 | `(x OR y) AND tail` means (x or y) and tail when it succeeds; it fails only with TypeError, and succeeds when the tail repeats fields only with arrays |
| ReducerLemmas.UnbracketedOr | src/SqlToMongodbQuery.php:212-260 | `x OR y AND tail` means x or (y and tail) when it succeeds: OR takes the rest of the chain; it fails only with TypeError, and succeeds when `y` and the tail repeat fields only with arrays |
| ReducerLemmas.DivergesOnlyOnItself | src/SqlToMongodbQuery.php:278-298 | a group's recursion is no smaller only when the group is the whole input, where PHP recurses forever |
| Select.DottedRemovesDots | src/SqlToMongodbQuery.php:772-783 | the dot escape leaves no dot and changes nothing without one |
| Select.NonEmpty | src/SqlToMongodbQuery.php:742-812 | `?: null` on a map: null exactly for the empty map |
| Select.ParseSelectFields | src/SqlToMongodbQuery.php:742-770 | the loop computes the select-field specification |
| Select.ProjectionKeys | src/SqlToMongodbQuery.php:742-770 | a key is projected exactly when some plain column names it; keys are unique and map to 1 |
| Select.FunctionsOfItems | src/SqlToMongodbQuery.php:742-770 | the function list is exactly the select items that call a function |
| Select.ParseGroupBy | src/SqlToMongodbQuery.php:772-783 | null exactly for an empty GROUP BY |
| Select.GroupByKeys | src/SqlToMongodbQuery.php:772-783 | keys are the escaped group columns, dot-free and unique |
| Select.ValidateSelect | src/SqlToMongodbQuery.php:830-843 | the loop computes the invalid-field specification |
| Select.InvalidKeys | src/SqlToMongodbQuery.php:830-843 | a field is invalid exactly when its escaped name is projected and not grouped |
| Select.GroupedColumnsAreValid | src/SqlToMongodbQuery.php:830-843 | when every projected column is grouped, nothing is invalid |
| Select.ParseSort | src/SqlToMongodbQuery.php:785-795 | null exactly for no ORDER BY |
| Select.SortDirections | src/SqlToMongodbQuery.php:785-795 | a field's direction is that of its last ORDER BY entry; unsorted fields are absent |
| Select.ParseLimit | src/SqlToMongodbQuery.php:797-803 | no LIMIT gives (0, 0), otherwise offset and row count |
| Select.ParseHint | src/SqlToMongodbQuery.php:805-812 | null exactly when there is no index hint |
| Select.MathLastIsStableSort | src/SqlToMongodbQuery.php:595-600 | the reordering is sorted under the comparator, a permutation, and keeps the relative order inside each kind |
| Select.StableSortIsMathLast | src/SqlToMongodbQuery.php:595-600 | any stable sort under that comparator gives the same order |
| Select.ArgumentField | src/SqlToMongodbQuery.php:667-673 | the field of a plain call fails exactly for an empty function name |
| Select.WalkListsLeaf | src/SqlToMongodbQuery.php:699-722 | a non-numeric leaf becomes `$leaf` and is recorded as a field |
| Select.NullLeaf | src/SqlToMongodbQuery.php:699-722 | a null leaf fails with TypeError exactly when no entry is keyed "" (`str_replace_first` takes `string $subject`); otherwise it becomes `$` |
| Select.NegatedCallFails | src/SqlToMongodbQuery.php:658-729 | the tree of `-SUM(x)`, whose left operand is missing, converts to TypeError whatever `str_before` gives |
| Select.Accumulator | src/SqlToMongodbQuery.php:617-648 | unsupported function names fail with their lower-cased name; custom entries keep their expression |
| Select.AccumulatorIgnoresCase | src/SqlToMongodbQuery.php:617 | the accumulator depends on the function name only up to case |
| Select.AddFieldsLoop | src/SqlToMongodbQuery.php:609-650 | the loop computes the field-adding specification |
| Select.ParseSelectFunctions | src/SqlToMongodbQuery.php:586-656 | the method computes the accumulator specification; a null operand of a math item (`-SUM(x)`) makes it fail with TypeError, as Select.NegatedCallFails shows |
| Select.FirstAccumulatorWins | src/SqlToMongodbQuery.php:614-616 | an existing accumulator is never overwritten; the result keys are the old keys plus the new exprs |
| Select.EarlierCallsKeepAccumulators | src/SqlToMongodbQuery.php:602-653 | a later select expression never changes an accumulator already present |
| Select.SingleAggregate | src/SqlToMongodbQuery.php:602-653 | one `sum/avg/min/max(field)` gives `{$fn: $field}` and projects its alias |
| Select.SingleCount | src/SqlToMongodbQuery.php:618-631 | `count(field)` sums 1 for documents where the field is present |
| Select.UnsupportedAggregate | src/SqlToMongodbQuery.php:645-647 | an unknown function name fails with NotSupportAggregateFunction |
| Statement.Seeded | src/SqlToMongodbQuery.php:29-40 | `date`, `ObjectId`, `Id` are added only when absent; existing builders are kept |
| Statement.ProjectGrouped | src/SqlToMongodbQuery.php:138-151 | the loop computes the grouped projection |
| Statement.BuildProject | src/SqlToMongodbQuery.php:138-151 | the method computes the final `$project` document |
| Statement.AddStage | src/SqlToMongodbQuery.php:155-181 | an optional stage is appended only when present |
| Statement.AssemblePipelines | src/SqlToMongodbQuery.php:127-181 | the method computes the pipeline specification |
| Statement.Translator.constructor | src/SqlToMongodbQuery.php:29-40 | the registry is the seeded one |
| Statement.Translator.AddInlineFunctionBuilder | src/SqlToMongodbQuery.php:42-45 | the registry maps the name to the new builder; other entries are kept |
| Statement.Translator.RemoveInlineFunctionBuilder | src/SqlToMongodbQuery.php:47-50 | the name is removed; other entries are kept |
| Statement.Translator.ParseWhere | src/SqlToMongodbQuery.php:814-820 | empty conditions give the empty filter, others the reduction |
| Statement.Translator.ParseSelectStatement | src/SqlToMongodbQuery.php:84-189 | the method computes the statement specification that the StatementLemmas rows characterise |
| Statement.Translator.Parse | src/SqlToMongodbQuery.php:60-76 | the method computes the top-level specification |
| StatementLemmas.PipelineShape | src/SqlToMongodbQuery.php:127-181 | `$match` then `$group` first; `$project`, `$match`, `$sort`, `$skip`, `$limit` follow in that order, each present exactly when non-empty |
| StatementLemmas.ProjectShowsId | src/SqlToMongodbQuery.php:138-151 | a non-empty `$project` always sets `_id`; it is empty exactly when nothing is projected |
| StatementLemmas.GroupedColumnProjected | src/SqlToMongodbQuery.php:138-151 | a grouped column is projected from `$_id.column` |
| StatementLemmas.AggregateProjected | src/SqlToMongodbQuery.php:138-151 | an aggregate's projection is kept as computed |
| StatementLemmas.AggregateQuery | src/SqlToMongodbQuery.php:115-187 | the aggregate's collection, pipelines and hint in full |
| StatementLemmas.ErrorPrecedence | src/SqlToMongodbQuery.php:84-98 | no FROM gives null, then WHERE errors, then an empty select list is rejected |
| StatementLemmas.CollectionAndHint | src/SqlToMongodbQuery.php:84-189 | every query uses the first FROM table and the parsed hint |
| StatementLemmas.FindOrAggregate | src/SqlToMongodbQuery.php:100-125 | a find exactly without GROUP BY and calls; a find never has HAVING |
| StatementLemmas.PlainSelectIsFind | src/SqlToMongodbQuery.php:100-112 | a plain select is a find with the filter, projection, sort, hint, skip and limit it names |
| StatementLemmas.PlainSelectOptions | src/SqlToMongodbQuery.php:100-112 | the options carry LIMIT's offset and row count, null for 0 |
| StatementLemmas.HavingNeedsGroupBy | src/SqlToMongodbQuery.php:101-103 | HAVING without GROUP BY is rejected |
| StatementLemmas.UngroupedColumnRejected | src/SqlToMongodbQuery.php:115-123 | a projected column not grouped (other than `_id`) is reported in InvalidSelectField |
| StatementLemmas.GroupedColumnsAccepted | src/SqlToMongodbQuery.php:115-187 | when all projected columns are grouped, an aggregate on the first table results |
| StatementLemmas.AggregateStages | src/SqlToMongodbQuery.php:127-181 | an aggregate's stages follow the fixed order; `$sort`/`$skip`/`$limit`/having-`$match` appear exactly when the statement asks for them |
| StatementLemmas.SeedingIsIdempotent | src/SqlToMongodbQuery.php:29-40 | constructing twice seeds nothing new |
| StatementLemmas.RemoveUndoesAdd | src/SqlToMongodbQuery.php:42-50 | removing a freshly added name restores the registry |
| StatementLemmas.OnlySelectTranslates | src/SqlToMongodbQuery.php:60-76 | no statement fails with InvalidSqlQuery, other statements with NotSupportStatement, SELECT is translated |
| StatementExamples.SelectStar | tests/SqlParseQueryTest.php:57-61 | `SELECT * FROM users` is a find on users with an empty filter |
| StatementExamples.SelectColumns | tests/SqlParseQueryTest.php:93-102 | `SELECT id, name` projects id and name |
| StatementExamples.FindOptions | tests/SqlParseQueryTest.php:28-47 | ORDER BY, LIMIT and USE INDEX give the options the test expects |
| StatementExamples.GroupedColumnQuery | tests/SqlParseAggregateTest.php:48-59 | `SELECT user_id ... GROUP BY user_id` is an aggregate on logs |
| StatementExamples.UserIdPipeline | tests/SqlParseAggregateTest.php:48-59 | its three stages are the ones the test expects |
| StatementExamples.UserIdValid | src/SqlToMongodbQuery.php:830-843 | the grouped column is valid |
| StatementExamples.UngroupedName | tests/SqlParseAggregateTest.php:62-72 | selecting an ungrouped `name` raises InvalidSelectField for name |
| StatementExamples.NameInvalid | src/SqlToMongodbQuery.php:830-843 | validation reports exactly `name` |

## Left out

- SQL parsing (the phpmyadmin SqlParser) is not part of this model. The translator takes an already parsed statement.
  Its conditions are given as expression text plus identifier list, its select items as expression, alias and
  function.
- MongoDB's BSON classes (`UTCDateTime`, `ObjectId`) and `date_create` are not modelled. The two builders are
  parameters of the constructor and their results are opaque values.
- The static registry `$INLINE_FUNCTION_BUILDERS` is shared by every instance in PHP. Here it is a field of one
  translator whose initial content is a constructor parameter.
- Three inputs are parameters:
  - the hash that names hoisted aggregates (`md5(json_encode(...))`);
  - `str_before`;
  - the random salt used to hide identifiers.

  The model assumes only what the code needs of them.
- LeafText: the lemmas about expression text are proved under narrower conditions than the code's:
  - the salt is all digits;
  - the column does not contain the key prefix `__tmp_identifier_`;
  - a literal holds no quote, and no blank or `_` where the lemma says so;
  - a builder name is letters only, and a builder's literal is not empty.

  Other texts are covered by the token-level lemmas in LeafLemmas, not from the raw text.
- Strings.IsNumeric: PHP's `is_numeric` also accepts exponents (`1e3`) and leading or trailing whitespace. The model
  accepts only an optional sign, digits and at most one dot. Strings.ToInt is unbounded; PHP's `intval` saturates at
  `PHP_INT_MAX`.
- MergeAndConjunction: it is about the corrected merge. The merge the translator runs is the one as written, covered
  by MergeAndAsWrittenConjunction and MergeAndShared, which fail with TypeError on a scalar clash.
- Floats: `floatval` and numeric strings containing a dot are kept as the numeral text (`Num`). No floating point
  arithmetic is modelled.
- Regex: the `i` flag of `new Regex($pattern, 'i')` is implicit in `Regex(pattern)`; regex matching is not modelled.
  FilterSemantics.Holds treats a comparison as an opaque atom evaluated by a parameter.
- Termination: PHP loops that never end (`)` with no `(` on the stack, a group that is the whole input) are modelled
  as `Err(Diverges)` rather than as non-termination.
- `Condition->expr` is rewritten in place at lines 267-269. Later steps never read those conditions again, so the
  model computes the rewritten text locally.
- The worked example from tests/PostfixConverterTest.php:22-31 is proved from the token list onward. The step from
  the raw string to its twenty tokens is covered only by the general lemmas on ListTokens.
- The third tests in tests/PostfixConverterTest.php:33-42 and tests/MongoExpressionConverterTest.php:68-101 are not
  reproduced. They expect a `__call__` token and a nested `$sum` that the code shown does not produce.
- `str_replace_first('', '', 'abc')` is expected to return `abc` by tests/HelperTest.php:3-9. The code's
  `explode('', ...)` raises ValueError under PHP 8, and the model follows the code. The `function_exists` guard would
  let a host definition replace it; that is not modelled.
- Postfix.NormalizeTokens: the contract is stated through the normaliser; only the group and call cases are proved
  as lemmas, not a full round trip to text.
- MongoExpression.EvaluateWellFormed: only postfix lists that are well formed are characterised; malformed lists
  are covered only by MissingOperandsAreNull.

## Findings

The translator follows the code as written in all three rows: the reducer merges with FilterMerge's
MergeAndAsWritten, Postfix.Convert tokenises with ListTokensAsWritten, and MongoExpression tags nodes with
OperatorTagAsWritten. The corrected definitions are separate members, with the intended property proved about them.

| source | as written | input that shows it | evidently intended | confidence | as-written member | corrected member |
|---|---|---|---|---|---|---|
| src/SqlToMongodbQuery.php:327 | `array_intersect_key` is applied to the values of shared keys, which must be arrays | `WHERE a = 1 AND a = 2`: both filters hold the scalar key `a`, so PHP 8 raises TypeError | combine the two filters with `$and` | not executed | FilterMerge.RepeatedScalarFieldAsWritten | FilterMerge.RepeatedScalarField |
| src/Lib/PostfixConverter.php:31 | the spacing regex covers `+ - * / ( )` but not `%` | `e % f`: blanks are removed first, so it becomes the single token `e%f`; tests/MongoExpressionConverterTest.php:7-38 expects `$mod` | `%` is spaced like the other operators | not executed | PostfixLemmas.ModuloGluedAsWritten | PostfixLemmas.ModuloSeparated |
| src/Lib/MongoExpressionConverter.php:10 | `*` maps to `$multiple` | `a * b` gives `{$multiple: [a, b]}`, which MongoDB rejects; the tests expect `$multiply` | `$multiply` | not executed | MongoExpression.MultiplyTagAsWritten | MongoExpression.OperatorTag |
