# Block search criteria and API query normalisation

This project models two pieces of query handling in the ARK core node.

**The block filter.** `BlockFilter.getExpression` turns block search criteria into an expression tree. It takes one criteria object or an array of them. The tree is `void`, a comparison (`equal`, `greaterThanEqual`, `lessThanEqual` or `between` on one block property), `and`, or `or`. Per recognised field:
- a bare value becomes `equal`;
- `{from, to}` becomes `between`;
- `{from}` becomes `greaterThanEqual`;
- `{to}` becomes `lessThanEqual`.

The comparisons of one object are joined with `and`. A single comparison is returned unwrapped. An object with nothing recognised becomes `void`. An array of objects is joined with `or` in input order.

The source file `packages/core-database/src/block-filter.ts` is not part of this model. The compiler is modelled from its unit tests in `__tests__/unit/core-database/block-filter.test.ts`.

**The controller.** The API `Controller` normalises query parameters:
- `getPagination` derives `offset` and `limit` from `page`, `limit` and `offset`, using JavaScript's NaN and falsy rules;
- `getOrdering` splits `orderBy` on commas;
- `getCriteria` copies every query entry except `page`, `limit`, `offset`, `orderBy` and `transform` into the criteria object.

Files:
- `wrappers.dfy`: `Option`, for JavaScript's `undefined`.
- `strings.dfy`: `Split` on one separator character, and `Join`, its inverse.
- `expressions.dfy`: the expression tree, and how an executor reads it (`Eval`: `void` matches every block, `and` needs all members, `or` needs one).
- `block_filter.dfy`: the field table, `BlockFields`, and the compiler.
- `block_filter_properties.dfy`: lemmas about the compiler.
  - The shape-to-comparison mapping per field.
  - `void` for objects with nothing recognised.
  - `and` in field order, with no singleton wrapper.
  - `or` in input order.
  - Soundness against a direct reading of the criteria (`Matches`).
  - Decompiling: the tree gives back the recognised part of its criteria, and compiling that again gives the same tree.
- `controller.dfy`: `GetPagination` and `GetCriteria` are methods, because the source builds their results step by step. `GetOrdering` is a function.

Modelling choices:
- Numbers, including big numbers, are Dafny `int`, tagged with their domain (`Str`, `Int`, `Big`). Big numbers therefore compare by exact value.
- Criteria objects are maps from key to criterion. Keys outside the field table are ignored.
- `and` lists comparisons in the field table's declaration order. The tests list the fields in this order: `id`, `version`, `timestamp`, `previousBlock`, `height`, `numberOfTransactions`, `totalAmount`, `totalFee`, `reward`, `payloadLength`, `payloadHash`, `generatorPublicKey`, `blockSignature`. The only two-field test uses the same order for its input keys, so it cannot tell declaration order from input-key order.
- Range-capable fields are `timestamp`, `height`, `numberOfTransactions`, `totalAmount`, `totalFee`, `reward` and `payloadLength`. The others are tested only with bare values. The compiler requires (`Shaped`) that they get only bare values, as the tests use them.
- No test covers a range with neither bound (`{}`) or an empty array. In the model, `{}` contributes no comparison and an empty array compiles to `void`.
- `getCriteria` writes through `set`, which follows dotted paths. The model writes each entry at the path `Split(key, '.')`, in a map from paths to values.

The model follows the code on these points:
- An explicit `offset` replaces the page-derived offset only when it is truthy. An explicit `offset` of 0 is ignored, so `{page: 3, limit: 20, offset: 0}` gives offset 40, not 0.
- `limit` falls back to 100 when it is absent and also when it is 0.
- `page` together with `limit` gives `(page - 1) * limit`, even when that is negative (for page 0).
- `getOrdering` returns the raw comma-separated pieces. It does not parse them into field and direction. An empty `orderBy` is falsy and gives no ordering.

## Model

| member | source | states |
|---|---|---|
| `BlockFilter.CompileField` | __tests__/unit/core-database/block-filter.test.ts:41-68 | a field yields no comparison exactly when its criterion is the empty range; otherwise a comparison on that field's own name |
| `BlockFilter.Collect` | __tests__/unit/core-database/block-filter.test.ts:386-397 | one object's comparisons: no more of them than table fields, and every member is a comparison (which ones, and in what order, is `CollectInTableOrder`) |
| `BlockFilterProperties.CollectInTableOrder` | __tests__/unit/core-database/block-filter.test.ts:386-397 | for any number of fields, an object's comparisons are exactly its present, non-`{}` fields compiled, one each, in ascending field-table order |
| `BlockFilter.CompileCriteria` | __tests__/unit/core-database/block-filter.test.ts:383-398 | one object compiles to `void`, a single comparison, or an `and` of two or more comparisons; never a singleton or empty `and` |
| `BlockFilter.CompileAll` | __tests__/unit/core-database/block-filter.test.ts:404-427 | the alternatives compile one by one, the same number and in input order |
| `BlockFilter.GetExpression` | __tests__/unit/core-database/block-filter.test.ts:13-430 | no `and` or `or` in any result has fewer than two members |
| `BlockFilterProperties.BlockFieldsDistinct` | __tests__/unit/core-database/block-filter.test.ts:23-381 | the thirteen block field names are pairwise distinct |
| `BlockFilterProperties.CompileVoidIff` | __tests__/unit/core-database/block-filter.test.ts:14-21 | an object compiles to `void` if and only if every recognised field it holds is the empty range |
| `BlockFilterProperties.UnrecognisedKeysCompileToVoid` | __tests__/unit/core-database/block-filter.test.ts:14-21 | for any field table, an object with no recognised key compiles to `void` |
| `BlockFilterProperties.UnknownBlockCriteria` | __tests__/unit/core-database/block-filter.test.ts:17-19 | `{unknown: v}` compiles to `{op: "void"}` for every value `v`, the test's `"123"` among them |
| `BlockFilterProperties.OnlyFieldCompiles` | __tests__/unit/core-database/block-filter.test.ts:24-28 | with exactly one recognised field present, the object compiles to that field's comparison, unwrapped, or `void` for `{}` |
| `BlockFilterProperties.SingleBlockField` | __tests__/unit/core-database/block-filter.test.ts:23-381 | for each of the thirteen block fields and each criterion it accepts, the one-field object compiles to that field's comparison, unwrapped, or `void` for `{}` |
| `BlockFilterProperties.BareValueCompilesToEqual` | __tests__/unit/core-database/block-filter.test.ts:26-28 | on any field of a table with distinct names (the block table among them), a bare value compiles to `equal` with that field name and the value unchanged |
| `BlockFilterProperties.FromToCompilesToBetween` | __tests__/unit/core-database/block-filter.test.ts:51-53 | on any range-capable field of such a table, `{from, to}` compiles to `between` with both bounds unchanged |
| `BlockFilterProperties.FromCompilesToGreaterThanEqual` | __tests__/unit/core-database/block-filter.test.ts:58-60 | on any range-capable field of such a table, `{from}` compiles to `greaterThanEqual` whose value is the `from` bound |
| `BlockFilterProperties.ToCompilesToLessThanEqual` | __tests__/unit/core-database/block-filter.test.ts:65-67 | on any range-capable field of such a table, `{to}` compiles to `lessThanEqual` whose value is the `to` bound |
| `BlockFilterProperties.NoBoundsCompilesToVoid` | __tests__/unit/core-database/block-filter.test.ts:41-68 | on any range-capable field of such a table, `{}` contributes nothing, so the object compiles to `void` |
| `BlockFilterProperties.TotalAmountBigNumber` | __tests__/unit/core-database/block-filter.test.ts:143-151 | `{totalAmount: n}` for every big number `n` (the test's 10000 among them) compiles to `equal` on `totalAmount` carrying exactly `n` |
| `BlockFilterProperties.TwoFieldsCompileToAnd` | __tests__/unit/core-database/block-filter.test.ts:386-397 | two recognised non-empty fields compile to an `and` of exactly their two comparisons, the earlier table field first |
| `BlockFilterProperties.HeightAndKeyCompiles` | __tests__/unit/core-database/block-filter.test.ts:386-397 | for every bound and key (the test's 100 and `"123"` among them), `{height: {from}, generatorPublicKey}` compiles to `and` of `height >= from` then `generatorPublicKey = key` |
| `BlockFilterProperties.AlternativesCompileToOr` | __tests__/unit/core-database/block-filter.test.ts:404-427 | an array of N >= 2 alternatives compiles to `or` of N members, member k the compiled alternative k; one alternative is unwrapped; none is `void` |
| `BlockFilterProperties.OrBlockCriteria` | __tests__/unit/core-database/block-filter.test.ts:404-427 | for every two bounds and keys (the test's 100/`"123"` and 300/`"456"` among them), the two-alternative array compiles to `or` of the two expected `and`s, in input order |
| `BlockFilterProperties.CompileSound` | __tests__/unit/core-database/block-filter.test.ts:383-398 | a compiled object holds of a stored block if and only if the block meets every recognised field's criterion |
| `BlockFilterProperties.AlternativesSound` | __tests__/unit/core-database/block-filter.test.ts:401-429 | a compiled non-empty array holds of a block if and only if the block meets one of the alternatives |
| `BlockFilterProperties.DecompileCompile` | __tests__/unit/core-database/block-filter.test.ts:383-398 | reading the compiled expression back gives exactly the recognised, non-empty fields of the object, values unchanged |
| `BlockFilterProperties.RecompileIsIdentity` | __tests__/unit/core-database/block-filter.test.ts:383-398 | compiling the criteria read back from a compiled object gives the same expression again |
| `Strings.Split` | packages/core-api/src/controllers/controller.ts:32 | the pieces joined with the separator give back the string, and no piece contains the separator |
| `Strings.SplitInjective` | packages/core-api/src/controllers/controller.ts:49 | two keys with the same path are the same key |
| `Strings.SplitWithoutSeparator` | packages/core-api/src/controllers/controller.ts:49 | a string without the separator splits into itself alone |
| `Strings.SplitCount` | packages/core-api/src/controllers/controller.ts:32 | the number of pieces is the number of separators plus one |
| `Controller.PageOffset` | packages/core-api/src/controllers/controller.ts:19 | the page-derived offset, falling back to 0 when falsy or NaN, is `(page - 1) * limit` when both are given, and 0 when either is absent or page is 1 |
| `Controller.GetPagination` | packages/core-api/src/controllers/controller.ts:17-28 | limit is the given limit when truthy, else 100; a truthy explicit offset is the offset; otherwise the offset is the page-derived one, or 0 without page or limit |
| `Controller.GetOrdering` | packages/core-api/src/controllers/controller.ts:30-36 | no `orderBy`, or an empty one, gives no ordering; otherwise comma-free pieces, one more than the commas, that join back to `orderBy` |
| `Controller.KeyToPath` | packages/core-api/src/controllers/controller.ts:49 | every key has a path of at least one segment |
| `Controller.GetCriteria` | packages/core-api/src/controllers/controller.ts:38-53 | every non-excluded entry is written at its key's path with its value unchanged; every written path comes from a non-excluded entry; no excluded key appears as a top-level path |
| `Controller.GetDefaultCriteria` | packages/core-api/src/controllers/controller.ts:38-53 | with the default exclusion list, `page`, `limit`, `offset`, `orderBy` and `transform` never appear as top-level paths, and every other entry is written at its path unchanged |
| `Controller.FlatKeyPath` | packages/core-api/src/controllers/controller.ts:49 | a key without a dot is written at the top level under its own name |

## Left out

- The compiler's own source, `packages/core-database/src/block-filter.ts`, is not part of this model. The model follows the unit tests, so anything the tests do not show is modelled by the choices listed above. One such thing is a per-field array: a single field whose criterion is an array of values. `Criterion` has no such case.
- Dependency-injection wiring and the `async`/`await` around `getExpression` are left out. The compilation itself is synchronous.
- `respondWithResource`, `respondWithCollection`, `toResource`, `toCollection` and `toPagination` (packages/core-api/src/controllers/controller.ts:55-86) are left out. They build HTTP response envelopes and a not-found error, using transformers resolved from the container, which is outside this model.
- The round factory (packages/core-test-framework/src/factories/factories/round.ts) is left out. It builds test fixtures using key and address derivation, which is outside this model.
- The BigNumber library is left out. Big numbers are exact integers, so parsing and printing decimal strings is not modelled.
- Value domains are not checked. For example, the model does not check that `height` holds an integer. The compiler never inspects values.
- A range on an exact-only field is excluded by the `Shaped` precondition, which follows how the tests use these fields. No code in the model's scope defines an error for it.
- `Eval` is the executor's reading, not code of the core. Under it, an empty array of alternatives compiles to `void` and matches every block.
- Controller.PageOffset: JavaScript numbers are doubles. The model computes `(page - 1) * limit` exactly, so rounding above 2^53 is not modelled.
- Query parameters are modelled as integers or absent, as the route validation delivers them. String arithmetic on unvalidated input is not modelled.
- Controller.GetCriteria: `set` also follows bracket paths such as `a[0]`, and it merges nested objects. The model writes whole dotted paths into a map from paths to values, so the claims hold exactly for flat keys.
- Exclusion compares whole keys. A key such as `page.size` is not excluded, so it is written under a top-level `page` object. The model shows this as the path `["page", "size"]`.
