# sort-destructure-keys, modelled in Dafny

This project models the core of the `sort-destructure-keys` lint rule. The
rule is meant to check that the keys destructured from a single object
parameter appear in a configured order. The order can be ascending or descending. It can fold
case and use natural ordering. Scopes with fewer keys than `minKeys` are not
checked.

The model has three parts, as in the source:

- the **key-name resolver** (`getPropertyName`);
- the **comparator table** (`isValidOrders`) and the one-time selection of
  its active entry from the options;
- the **frame-stack state machine** of the visitors. A scope is an object
  whose entry pushes a frame (the `ObjectExpression` visitor). Entering a
  scope pushes a frame. Leaving it pops the frame. A spread clears the frame's previous
  name. Each keyed binding is compared with the previous resolved name.

Modules:

- `Wrappers`: `Option`, which stands for `null`/`undefined`.
- `PropertyNames`: the resolver.
- `Orders`: ordinal `<=` on strings (`LexLe`), ASCII lower-casing, the eight
  comparators, and selection through the key string.
- `RuleConfig`: option parsing (`Parse`).
- `Scope`: one scope as pure functions. `CheckKey` is the binding step.
  `Run`/`Scan` fold the step over a scope. `Expected` is an independent
  pair-by-pair statement of the same reports. This module also holds the laws.
- `Scenarios`: scopes from the rule's tests, plus two constructed scopes
  (`CaseFoldingDecides`, `ComputedKeyLiftsGate`) that show case folding and
  the `minKeys` gate, with the reports the model gives for them, and one
  nested scope driven through the `Checker`.
- `Traversal`: the `Checker` class. It holds the frame stack and the reports,
  and has one method per visitor. `CheckScope` drives one scope by calling the
  visitor methods in order (enter, each entry, exit). It is proved to leave
  the stack unchanged and to add exactly
  `Scan`'s reports.

The natural comparison from the `natural-compare` package is a function
parameter (`NaturalCompare`). Nothing is assumed about it.

## Model

| member | source | states |
|---|---|---|
| `PropertyNames.GetPropertyName` | lib/rules/sort-destructure-keys.js:30-38 | A static name wins whenever one exists, including `""`. Otherwise the key identifier's name is used. The result is `None` exactly when there is no static name and the identifier name is absent or empty. |
| `Orders.LexLe` | lib/rules/sort-destructure-keys.js:49 | Ordinal `<=`: a prefix is always before the longer string. When the first characters differ, they decide. A string that is in order before a non-empty one starts with a character no greater than its first. |
| `Orders.LexLeFirstDifference` | lib/rules/sort-destructure-keys.js:49 | At the first position where two strings differ, that character pair decides ordinal `<=`. |
| `Orders.LexLeProperExtension` | lib/rules/sort-destructure-keys.js:49 | A proper extension of a string is never before it. |
| `Orders.LexLeReflexive` | lib/rules/sort-destructure-keys.js:48-50 | Ordinal `<=` is reflexive. |
| `Orders.LexLeTotal` | lib/rules/sort-destructure-keys.js:48-50 | Any two strings are comparable under ordinal `<=`. |
| `Orders.LexLeAntisymmetric` | lib/rules/sort-destructure-keys.js:48-50 | Ordinal `<=` in both directions implies equality. |
| `Orders.LexLeTransitive` | lib/rules/sort-destructure-keys.js:48-50 | Ordinal `<=` is transitive. |
| `Orders.ToLower` | lib/rules/sort-destructure-keys.js:51-53 | Lower-casing keeps the length, maps each ASCII upper-case letter to its lower-case letter, and keeps every other character. |
| `Orders.ToLowerIdempotent` | lib/rules/sort-destructure-keys.js:57-59 | Lower-casing twice is the same as lower-casing once. |
| `Orders.IsValidOrder` | lib/rules/sort-destructure-keys.js:47-72 | The table. The ordinal entries are `LexLe`, with the arguments swapped for `desc`. The natural entries are `naturalCompare(..) <= 0`, with the arguments swapped for `descN`. Every non-natural entry accepts a name followed by itself. |
| `Orders.MirrorSymmetry` | lib/rules/sort-destructure-keys.js:60-71 | Every entry holds of `(a, b)` exactly when its mirror, the same suffixes in the other direction, holds of `(b, a)`. |
| `Orders.OrdinalExactlyOne` | lib/rules/sort-destructure-keys.js:48-62 | For two different names under ordinal comparison, exactly one of `asc` and `desc` holds. |
| `Orders.InsensitiveTies` | lib/rules/sort-destructure-keys.js:51-65 | Names that differ only in case are in order in both directions under `ascI` and `descI`. |
| `Orders.Reflexive` | lib/rules/sort-destructure-keys.js:47-72 | A name followed by itself is in order under every entry. For the natural entries this needs the natural comparator to return 0 for equal strings. |
| `Orders.CaseFolding` | lib/rules/sort-destructure-keys.js:51-58 | `ascI`/`ascIN` (and their mirrors) are the sensitive entry applied to lower-cased names. They give the same answer for a name and its lower-cased form. |
| `Orders.TruthTable` | lib/rules/sort-destructure-keys.js:48-53 | Concrete entries: `"A" <= "b"` and `"B" <= "a"` hold ordinally. Folded, `"B"` is not before `"a"`. `"$" < "A" < "_" < "a"` holds ordinally. `"_"` vs `"A"` flips under folding. |
| `Orders.LookupOrder` | lib/rules/sort-destructure-keys.js:127-129 | Over the table's own eight keys, the lookup finds the entry stored under the key. Any other key gives `None`. Inherited object members are not modelled. |
| `Orders.OrderKey` | lib/rules/sort-destructure-keys.js:128 | The key is the order string followed by "I" exactly when folding case, then "N" exactly when natural. |
| `Orders.SelectOrder` | lib/rules/sort-destructure-keys.js:122-129 | For order "asc" or "desc", selection succeeds. The entry has that direction, has "I" exactly when folding case and has "N" exactly when natural. Any entry found is the one named by the concatenated key. |
| `RuleConfig.Parse` | lib/rules/sort-destructure-keys.js:121-129 | The order defaults to "asc". Folding is on exactly when `caseSensitive` is `false`. Natural is on exactly when `natural` is `true`. Options that pass the schema always yield a comparator, and its direction and suffixes match the options. |
| `RuleConfig.ParsedGate` | lib/rules/sort-destructure-keys.js:126 | The parsed `minKeys` gates a scope exactly when the source's `numKeys < minKeys` is true. This includes `minKeys` being `undefined` when no options object is given. |
| `RuleConfig.Defaults` | lib/rules/sort-destructure-keys.js:122-126 | With no options the rule is ascending, ordinal and ungated. |
| `RuleConfig.UnvalidatedOrderStillSelects` | lib/rules/sort-destructure-keys.js:127-129 | Because the key is a concatenated string, an order string the schema would reject ("descI") still selects the folding comparator. The message label then stays empty. |
| `Scope.CheckKey` | lib/rules/sort-destructure-keys.js:188-213 | The previous name becomes this name exactly when this name resolves. An unresolved name leaves the frame unchanged. A report is made exactly when both names are present, `numKeys >= minKeys` and the pair is out of order. The report carries this name, the previous name, the order and the two labels. |
| `Scope.Apply` | lib/rules/sort-destructure-keys.js:147-151 | Per entry: a spread clears the previous name and reports nothing. An unresolvable binding leaves the frame unchanged and reports nothing. A resolvable one becomes the previous name. The key count never changes. |
| `Scope.ResetPrev` | lib/rules/sort-destructure-keys.js:147-151 | A spread clears the previous name and keeps the key count. |
| `Scope.Run` | lib/rules/sort-destructure-keys.js:136-213 | Folding the entries of a scope keeps the frame's key count and makes at most one report per entry. Every report carries the configured order and labels. |
| `Scope.Scan` | lib/rules/sort-destructure-keys.js:200-212 | The reports of a scope: at most one per entry, each carrying the configured order and the two labels. |
| `Scope.PrevNameIsAdjacent` | lib/rules/sort-destructure-keys.js:188-198 | The name an entry is compared with is the nearest resolved name before it, provided only unresolvable bindings (no spread) lie between them. When there is no such name, nothing is compared. |
| `Scope.RunMatchesExpected` | lib/rules/sort-destructure-keys.js:136-213 | After every prefix of a scope, the frame holds the adjacent partner name, and the reports equal the pair-by-pair reports so far. |
| `Scope.AdjacentPairLaw` | tests/lib/rules/sort-desctructure-keys.js:329-355 | The reports of a scope are exactly its failing adjacent pairs, in order, one per pair. |
| `Scope.RunAcrossSpread` | lib/rules/sort-destructure-keys.js:147-151 | After `a, ...s, b`, the frame is the frame of `b` alone, and the reports are those of `a` followed by those of `b`. |
| `Scope.SpreadSeparates` | lib/rules/sort-destructure-keys.js:147-151 | Names on either side of a spread are never compared. A scope reports what its two sides report separately. |
| `Scope.RunSkipsUnnamed` | lib/rules/sort-destructure-keys.js:192-198 | For a fixed key count, inserting an unresolvable binding anywhere leaves the whole outcome unchanged, frame and reports. |
| `Scope.UnnamedTransparent` | tests/lib/rules/sort-desctructure-keys.js:459-475 | For a fixed key count, inserting an unresolvable binding anywhere changes no report. |
| `Scope.RunCountIrrelevant` | lib/rules/sort-destructure-keys.js:189-198 | The key count matters only through the gate. Two counts both at or above `minKeys` give the same previous name and the same reports. |
| `Scope.UnnamedTransparentInScope` | lib/rules/sort-destructure-keys.js:139 | When the count is the scope's own length, an inserted unresolvable binding also counts as an entry. It changes no report unless it carries the count up to `minKeys`. |
| `Scope.UnnamedLiftsGate` | lib/rules/sort-destructure-keys.js:139 | At the boundary, without the inserted binding the scope is one entry short and silent. With it, the scope reports what the ungated check reports. |
| `Scope.BelowMinKeysSilent` | lib/rules/sort-destructure-keys.js:196-198 | A scope with fewer entries than `minKeys` reports nothing. |
| `Scope.AtMinKeysUngated` | lib/rules/sort-destructure-keys.js:196-198 | A scope meeting `minKeys` behaves exactly as with no gate. |
| `Scope.NoSelfReports` | lib/rules/sort-destructure-keys.js:196-200 | No report names the same key as both this name and the previous name. For the natural entries this needs the natural comparator to return 0 for equal strings. |
| `Scenarios.OutOfOrderDefault` | tests/lib/rules/sort-desctructure-keys.js:204-218 | `{a, c, b}` with default options gives one report: `b` should be before `c`. |
| `Scenarios.OutOfOrderBelowMinKeys` | tests/lib/rules/sort-desctructure-keys.js:71 | `{a, c, b}` with `minKeys: 4` reports nothing. |
| `Scenarios.SpreadsSplitReports` | tests/lib/rules/sort-desctructure-keys.js:329-355 | `{...z, ...c, d, b, ...y, ...f, e, a}` reports `b` after `d` and `a` after `e`, and nothing across the spreads. |
| `Scenarios.ComputedKeySkipped` | tests/lib/rules/sort-desctructure-keys.js:459-475 | `{a, [b+c], ''}` reports `''` after `a` across the computed key. |
| `Scenarios.ComputedKeySkippedDescending` | tests/lib/rules/sort-desctructure-keys.js:476-492 | `{'', [b+c], a}` descending reports `a` after `''`. |
| `Scenarios.DescendingInOrder` | tests/lib/rules/sort-desctructure-keys.js:109 | `{c, b, a}` descending reports nothing. |
| `Scenarios.InsensitiveOutOfOrder` | tests/lib/rules/sort-desctructure-keys.js:689-703 | `{a, _, b}` with folding reports `_` after `a`, with the "insensitive " label. |
| `Scenarios.ComputedKeyLiftsGate` | lib/rules/sort-destructure-keys.js:139 | With `minKeys: 4`, `{a, c, b}` reports nothing. `{a, [b+c], c, b}` reports `b` after `c`, because the computed key is a fourth entry. |
| `Scenarios.NestedScope` | tests/lib/rules/sort-desctructure-keys.js:60 | `{a, b: {x, y}, c}` through the `Checker`: the nested scope's frame is popped, `c` is compared with `b`, nothing is reported, and the stack ends empty. |
| `Scenarios.CaseFoldingDecides` | lib/rules/sort-destructure-keys.js:48-53 | `{B, a}` is reported when folding case, and accepted ordinally. |
| `Traversal.Checker.constructor` | lib/rules/sort-destructure-keys.js:119-132 | The configuration is the parsed options and is fixed for the traversal. The stack starts empty and there are no reports. |
| `Traversal.Checker.EnterScope` | lib/rules/sort-destructure-keys.js:135-141 | Entering a scope pushes a frame with no previous name and the scope's entry count. Nothing else changes. |
| `Traversal.Checker.ExitScope` | lib/rules/sort-destructure-keys.js:143-145 | Leaving a scope pops exactly the top frame. |
| `Traversal.Checker.SpreadElement` | lib/rules/sort-destructure-keys.js:147-151 | A spread directly inside the scope clears only the top frame's previous name. Its key count and the lower frames are unchanged. Any other spread changes nothing. |
| `Traversal.Checker.CheckBinding` | lib/rules/sort-destructure-keys.js:184-253 | For a matched pattern, the top frame and the reports change exactly as `CheckKey` says, and the lower frames are untouched. Otherwise nothing changes. |
| `Traversal.Checker.CheckScope` | lib/rules/sort-destructure-keys.js:132-253 | Enter, visit every entry through the visitor methods, exit. The stack comes back exactly as it was, so an enclosing scope's frame survives a nested one. The added reports are exactly `Scan` of the scope. |

## Left out

- The natural comparison (`natural-compare`) is a parameter of the model. Nothing about digit runs is modelled or proved.
- `toLowerCase` folds ASCII letters only. Other Unicode case mappings (for example `À` to `à`) are not modelled.
- Ordinal `<=` compares Dafny characters (Unicode scalar values). JavaScript compares UTF-16 code units. The two orders agree within the Basic Multilingual Plane. They differ for characters outside it compared with U+E000–U+FFFF.
- `astUtils.getStaticPropertyName` is not part of this model. Its result is an input to the resolver.
- The AST guards of the function-declaration and arrow-function visitors (lines 187 and 218-222) are a boolean input of `CheckBinding`. As written, these visitors read `node.key` and `node.declarations` on node types that do not carry them. The model does not represent AST nodes at all.
- The source keeps `stack` as `null` before the first scope, so a binding visitor (lines 188 and 226) reached with no open scope would throw. The model makes an open scope a precondition of `CheckBinding`. `SpreadElement` (inside a scope) and `ExitScope` carry the same precondition, which the source always meets: a spread whose parent is an object, and that object's exit, always find the frame the object pushed at line 136.
- The host is not modelled. This covers `context.report` and the report's node, location and message id, visitor registration, traversal order, the `meta` block, schema validation and schema defaulting. Reports are appended to `violations` in order.
- `RuleConfig.Parse`: the schema's default `minKeys: 2` is applied by the host, so it is not modelled. An absent `minKeys` is 0, meaning ungated, which is what the source does with `undefined`.
- `Traversal.Checker.CheckScope` drives one flat scope. Nesting is modelled by the stack: `CheckScope` and every matched `EnterScope`/`ExitScope` pair leave the enclosing frames exactly as they were.
- The key count of a frame is `node.properties.length`, so spreads count toward it; `CheckScope` uses the length of the whole entry sequence.
- `Orders.LookupOrder`: `isValidOrders` is an object literal, so `isValidOrders[key]` also returns members inherited from `Object.prototype`. The model returns `None` for them. For example, order "toString" or "constructor" gives a callable whose result is truthy, so the source never reports. Order "__proto__" gives a value that cannot be called, so the source throws at the first comparison. The options schema excludes all of these orders.
- The source pushes and pops frames on `ObjectExpression` (an object literal) and clears the previous name only for a `SpreadElement` whose parent is an `ObjectExpression`. A destructured parameter is an `ObjectPattern` whose rest entry is a `RestElement`, so, as written, no frame is pushed for it. The model, its scenarios and `CheckScope` treat the scope visitors as if they fired for the destructuring pattern's entries.
- The commented-out `Property` visitor (lines 153-182) is dead code.
- The tests expect message id `sortKeys` and use a `functionParams` option that the schema rejects. The model follows the rule's code instead.
