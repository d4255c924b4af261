# Source-database queries of wgsl-analyzer, in Dafny

This project models the source-database layer of the WGSL/shader analyzer (`crates/base_db/src/lib.rs`). The database has three inputs:

- the text of each file, keyed by `FileId`;
- the custom import table, which maps an import key to its source text;
- the set of active shader defines.

Parse results are computed from these inputs by a handful of queries:

- `parse_with_unconfigured` runs the shader preprocessor. Its two callbacks collect the elided ("unconfigured") ranges and the import occurrences. It then splices import-table text into the processed source and parses the result.
- `parse` projects the tree out of that pair.
- The two import queries parse an import-table entry and fail with `Err(())` when the key is missing.
- `parse_no_preprocessor` and `line_index` delegate to the parser and to the line-index builder.

Modules:

- `Types` (`types.dfy`) holds the values: byte text, `FileId`, `TextRange` (a span with `start <= end`), `UnconfiguredCode`, import occurrences, `Option` and `Result`.
- `ShaderProcessor` (`shader_processor.dfy`) describes what the preprocessor reports: the processed text plus the callbacks it made, in call order. It also holds `CollectCallbacks`, the two closures that push onto their vectors, written as a loop over those callbacks.
- `ImportSplice` (`splice.dfy`) holds the splice loop. `SpliceImports` is the imperative loop, proved equal to the closed form `SpliceAsWritten`. Lemmas give that form's properties. A correct single forward pass, `SpliceForward`, is proved equal to in-place application in descending order, and equal to the code whenever at most one occurrence matches.
- `BaseDb` (`base_db.dfy`) holds the input record, the collaborators and the queries. The collaborators are the preprocessor, `syntax::parse` and `LineIndex::new`, passed as function values because their code is not part of this model.

The splice loop has two quirks, and the model keeps both:

- The range end is inclusive: `end - start + 1` bytes are removed.
- Each matched occurrence rebuilds the result from the pristine processed text, so only the last matched occurrence's substitution survives.

A design description of this layer asks for a splice that substitutes every occurrence. The code does not, and the model follows the code. The gap is recorded under "## Findings".

Preconditions come from the panics of the code:

- Reading the text of a file that was never set panics. The file-level queries therefore require `fileId in fileText`.
- `TextRange::new` asserts `start <= end`. The `TextRange` type therefore carries that condition, and the query requires it of every callback range.
- For a matched occurrence, `split_at(start)` and then `split_at(1 + end - start)` stay in bounds exactly when `end + 1 <= |processed|` (given `start <= end`). `SpliceDefined` states this.

## Model

| member | source | states |
|---|---|---|
| `ImportSplice.SpliceImports` | crates/base_db/src/lib.rs:108-120 | the splice loop returns exactly `SpliceAsWritten`: the processed text with only the last matched occurrence's inclusive range replaced by its table entry, or the text unchanged |
| `ImportSplice.LastMatch` | crates/base_db/src/lib.rs:109-110 | the index found is a matched occurrence with no matched occurrence after it; there is none exactly when no occurrence names a key of the table |
| `ImportSplice.SpliceNoMatch` | crates/base_db/src/lib.rs:108-121 | when no occurrence names a key of the table, the spliced text is the processed text, byte for byte |
| `ImportSplice.SpliceLastMatch` | crates/base_db/src/lib.rs:111-118 | for the last matched occurrence `[s, e]`, the result is `processed[..s] + table[id] + processed[e+1..]`, of length `|processed| - (e - s + 1) + |table[id]|` |
| `ImportSplice.EarlierMatchesLeaveNoTrace` | crates/base_db/src/lib.rs:113-117 | once a later part of the occurrence list holds a match, any earlier occurrences (matched or not) do not change the result |
| `ImportSplice.LastMatchAppend` | crates/base_db/src/lib.rs:109-117 | when a later run of occurrences holds a match, the last matched occurrence of the whole list is that run's last match, shifted by the length of what precedes it |
| `ImportSplice.UnnamedEntriesIrrelevant` | crates/base_db/src/lib.rs:109-110 | two tables that agree on every key the occurrences name (presence and text) give the same splice |
| `ImportSplice.ForwardIsDescending` | crates/base_db/src/lib.rs:108-120 | the corrected forward pass equals applying the substitutions to one buffer from the last occurrence back to the first |
| `ImportSplice.ForwardNoMatch` | crates/base_db/src/lib.rs:108-110 | with no matched occurrence the forward pass copies the text unchanged |
| `ImportSplice.ForwardSingleMatch` | crates/base_db/src/lib.rs:111-118 | with exactly one matched occurrence the forward pass replaces just its inclusive range |
| `ImportSplice.AsWrittenAgreesWithForward` | crates/base_db/src/lib.rs:108-120 | when at most one occurrence matches, the code's splice equals the corrected forward pass |
| `ImportSplice.LastMatchWins` | crates/base_db/src/lib.rs:113-117 | on text `ab` with matched occurrences at 0 and 1, the code yields `aY`, where the forward pass yields `XY` |
| `ShaderProcessor.CollectCallbacks` | crates/base_db/src/lib.rs:83-106 | the two vectors are exactly the unconfigured-code callbacks and the import callbacks, in call order, with ranges, defines and identifiers copied |
| `ShaderProcessor.UnconfiguredAppend` | crates/base_db/src/lib.rs:89-98 | call order is kept: the entries of two consecutive runs of callbacks are concatenated in order |
| `ShaderProcessor.OccurrencesAppend` | crates/base_db/src/lib.rs:99-105 | call order is kept for import occurrences in the same way |
| `ShaderProcessor.UnconfiguredExactly` | crates/base_db/src/lib.rs:89-98 | an entry is in the unconfigured list if and only if the preprocessor reported that range and define |
| `ShaderProcessor.OccurrencesExactly` | crates/base_db/src/lib.rs:99-105 | an occurrence is collected if and only if the preprocessor reported that range and identifier |
| `BaseDb.LineIndexReadsTextOnly` | crates/base_db/src/lib.rs:51-54 | the line index of a file depends on its text alone |
| `BaseDb.ParseNoPreprocessorReadsTextOnly` | crates/base_db/src/lib.rs:56-59 | parsing without the preprocessor depends on the file text alone, not on the defines or the import table |
| `BaseDb.ParseImportNoPreprocessor` | crates/base_db/src/lib.rs:61-68 | `Err` if and only if the key is absent from the import table; otherwise `Ok` of parsing the raw entry |
| `BaseDb.ParseImport` | crates/base_db/src/lib.rs:130-138 | `Err` if and only if the key is absent; otherwise `Ok` of parsing the entry after preprocessing with the current defines, with the callbacks discarded |
| `BaseDb.ImportQueriesAgree` | crates/base_db/src/lib.rs:130-138 | when preprocessing leaves the entry unchanged, both import queries return the same result |
| `BaseDb.ParseWithUnconfiguredQuery` | crates/base_db/src/lib.rs:76-124 | the query returns the parse of the spliced processed text, together with the unconfigured list collected from the callbacks |
| `BaseDb.Parse` | crates/base_db/src/lib.rs:126-128 | `parse` is the tree component of `parse_with_unconfigured`, namely the parse of the processed text after import splicing |
| `BaseDb.UnconfiguredFromCallbacks` | crates/base_db/src/lib.rs:83-123 | the returned unconfigured list holds exactly the reported elided ranges and defines, and it is the same for every import table |
| `BaseDb.ParseWithoutMatchedImports` | crates/base_db/src/lib.rs:108-122 | if no import directive names a key of the table, the tree is the parse of the processed text unchanged |
| `BaseDb.ParseIgnoresUnnamedImports` | crates/base_db/src/lib.rs:109-122 | import-table entries that no import directive of the file names never affect its tree |

## Left out

- Salsa memoization, invalidation and the generated input setters (lib.rs:22-49) come from a macro library that is not part of this model. Each query is a pure function of an explicit input record (`BaseDb.Inputs`). Replacing an input is replacing a field of that record.
- `shader_processor::SHADER_PROCESSOR.process` is not part of this model. Neither is its directive grammar or its elision rules. It is a function parameter that yields the processed text and the callbacks in call order.
- `syntax::parse` and `LineIndex::new` are not part of this model. They are function parameters, with the tree and the line index as type parameters.
- The `as u32` casts in the `TextSize` conversions are not modelled. Offsets are unbounded naturals, on the assumption that they fit in 32 bits.
- UTF-8 char-boundary panics of `str::split_at` are not modelled. Text is a byte sequence, and offsets count bytes.
- `Arc` sharing, and the hashing and iteration order of `HashMap` and `HashSet`, are not modelled. The table is a `map` and the defines a `set`.
- `editors/code/src/lsp_ext.ts` holds only editor-protocol declarations and is not modelled.

## Findings

| source | as written | input that shows it | evidently intended | confidence | as-written member | corrected member |
|---|---|---|---|---|---|---|
| crates/base_db/src/lib.rs:113-117 | each matched import occurrence rebuilds the result from the pristine processed text, so only the last matched substitution survives, and earlier import directives stay in the text | processed `ab`, occurrences `[0,0]` naming `x` and `[1,1]` naming `y`, table `{x: X, y: Y}`: the result is `aY` instead of `XY` | every matched occurrence is substituted, offsets taken against the pristine text, in one forward pass or by descending-order application | not executed | `ImportSplice.LastMatchWins` | `ImportSplice.ForwardIsDescending` |

The queries of `BaseDb` keep the code's behaviour, `SpliceAsWritten`. The corrected splice `SpliceForward` is proved equal to descending-order application (`ForwardIsDescending`). It is also proved equal to the code whenever at most one occurrence matches (`AsWrittenAgreesWithForward`), so the defect shows only with two or more matched imports in one file.
