# lexconvert phoneme conversion, modelled in Dafny

lexconvert converts pronunciations between the phoneme notations of
several speech synthesizers and dictionaries: festival, eSpeak, SAPI,
Cepstral, Mac, X-SAMPA, Acapela, CMU, MS-SAPI, BBC Micro and Unicode IPA.
All conversions go through one correspondence table with one column per
notation. This project models the conversion core of `lexconvert.py` and
proves properties of it:

- `table.dfy` (module `Table`) covers expansion of the authored table.
  - A cell is a spelling, the ditto marker `0`, or a list of alternative spellings.
  - A ditto is resolved against the previous line.
  - A line with lists yields one row per alternative of each list column, with the other lists at their first element.
  - Rows already produced from lists are skipped.
  - The module-level loop is the method `ExpandTable`, proved equal to the function `Expand`.
- `dictionary.dfy` (module `Dictionary`) covers `make_dictionary`.
  - It builds the map from source to destination spellings; the first row with a given key wins.
  - It takes the destination's syllable separator from the row after the header.
  - It collects the destination spellings whose eSpeak spelling is all consonants.
  - `BuildDictionary` is the loop, and `MakeDictionary` is its specification.
- `converter.dfy` (module `Converter`) covers `convert`.
  - The input is cut greedily: a 2-character key, else a 1-character key, else the character is dropped. With an eSpeak source, an `r` after the key `e@` is consumed with it when that `r` ends the input or comes before an eSpeak consonant (line 379).
  - Stress marks are moved before or after the vowel.
  - A withheld mark (`toAddAfter`) is released later.
  - The implicit schwa is inserted before a syllabic `n`/`l`, and taken back when it becomes needless.
  - The closing pass drops a trailing separator, joins the tokens, collapses Cepstral stress and cleans up eSpeak output.
  - `ConvertText` is the `while pronunc` loop with its backward scans. It is proved equal to the function `Convert`.
- `espeak.dfy` (module `Espeak`) covers `cleanup_espeak_entry` and `espeak_probably_right_already`.
- `text.dfy` (module `Text`) holds the Python string operations used: `replace`, `endswith`, substring `in`, `split()` and `join`.
- `results.dfy` (module `Results`) holds `Option` and `Result`.

Every exception the Python code can raise on these paths is an `Err` value, not a precondition:

- a ragged table row (line 149);
- a ditto in the first row;
- an empty list beside a non-empty one (`firstItemIfList` indexes `l[0]`);
- an unknown notation name (lines 315-316);
- no vowel before an after-vowel stress mark (line 359);
- no `@` key when an implicit schwa is needed (line 368);
- a destination spelling made only of spaces (line 373);
- nothing emitted at all (line 383).

The `*added` tag that line 368 appends to an implicit schwa is modelled as the `synthetic` flag of a token. That tagged string equals no consonant spelling and no separator, so the membership tests at lines 359, 363, 368 and 374 never match a tagged token. Line 387 strips the tag on output, so the model emits the text without it.

`make_dictionary` keeps a one-entry cache (lines 310-313, 328). The cache never hits: line 313 compares the notation names with the column indices stored at line 328. Every call therefore rebuilds the dictionary, and the model has no cache.

`convert` reads the module-level expanded table. The model passes that table as a parameter and requires its shape (`Dictionary.ValidTable`):

- a header and a separator row;
- equal arity;
- at least two columns.

The table literal (lines 31-141) always has this shape. `Dictionary.ExpandedTableIsValid` proves that the expansion of any authored table with at least two notations, whose header and separator line are plain spellings, has it.

## Model

| member | source | states |
|---|---|---|
| Table.Resolve | lexconvert.py:241-244 | a resolved line keeps its arity and has no ditto left; it fails exactly when the first line holds a ditto (there is no previous line) |
| Table.VariantOf | lexconvert.py:248-251 | the row for one alternative of a list column: that alternative in its column, every other list at its first element, and an error when another list is empty (`l[0]` of an empty list); its properties are proved in `AddAltsExact` and `AddColsFails` |
| Table.ResolveLine | lexconvert.py:241-244 | the loop that replaces each ditto by the previous resolved line's cell computes `Resolve` |
| Table.ListColumnsBelow | lexconvert.py:245 | the list columns are exactly the columns holding a list, in increasing order |
| Table.AddAlts | lexconvert.py:251-254 | expanding one list column can fail only with `EmptyAlternatives`; when it fails is stated by `AddAltsExact` and `AddAltsFails` |
| Table.AddCols | lexconvert.py:247-254 | expanding every list column can fail only with `EmptyAlternatives`; when it fails is stated by `AddColsExact` and `AddColsFails` |
| Table.ExpandLine | lexconvert.py:245-254 | expanding one line can fail only with `EmptyAlternatives`; exactly when it fails is stated by `ExpandLineExact` |
| Table.ExpandFrom | lexconvert.py:240-255 | the loop over lines never reports a ragged row |
| Table.BuildVariant | lexconvert.py:251 | the comprehension building one alternative's row computes `VariantOf`: the alternative in its column, the first element of every other list |
| Table.AddAlternatives | lexconvert.py:251-254 | the loop over one column's alternatives computes `AddAlts` |
| Table.ExpandResolvedLine | lexconvert.py:245-254 | the loop over a line's list columns computes `ExpandLine` |
| Table.ExpandTable | lexconvert.py:238-256 | the module-level loop, arity check included, computes `Expand` |
| Table.AddAltsExact | lexconvert.py:251-254 | every alternative's row ends up among the rows seen, the rows appended are new, distinct and exactly the new rows seen, and each is a variant of the line |
| Table.AddColsExact | lexconvert.py:247-254 | the same for all list columns of a line whose lists are all usable |
| Table.ExpandLineExact | lexconvert.py:245-254 | a line without lists is appended as it is, even if repeated; a line with lists expands exactly when no empty list sits beside a non-empty one, and then appends only new variants and covers every variant |
| Table.AddColsFails | lexconvert.py:248-251 | a non-empty list beside an empty list aborts the line |
| Table.AddAltsFails | lexconvert.py:248-251 | any alternative of a column beside an empty list aborts |
| Table.ExtendsTransitive | lexconvert.py:252-254 | appending only unseen rows and recording them is preserved across successive appends |
| Table.ExpandPreservesArity | lexconvert.py:238-256 | every expanded row has the header's arity |
| Table.ExpandChecksArity | lexconvert.py:149 | the expansion reports a ragged row exactly when some row's arity differs from the header's |
| Table.Expand | lexconvert.py:238-256 | the expanded table that replaces `table`, or the error that stops the loop; the loop itself is `ExpandTable`, and its properties are `ExpandChecksArity`, `ExpandPreservesArity` and `ExpandStartsWithPlainLines` |
| Table.ExpandLineKeepsRows | lexconvert.py:246-254 | expanding a line only appends to the rows already produced |
| Table.ExpandFromKeepsRows | lexconvert.py:240-255 | the loop over the lines only appends to the rows already produced |
| Table.PlainLine | lexconvert.py:245-246 | a line of plain spellings has no ditto and no list column, so it is kept as it is |
| Table.PlainStep | lexconvert.py:240-246 | a line of plain spellings resolves to itself and is appended as it is, whatever the previous line |
| Table.PlainLinesFirst | lexconvert.py:240-255 | when the first two lines are plain spellings, the loop's rows start with them |
| Table.ExpandStartsWithPlainLines | lexconvert.py:238-256 | when the header and the separator line are plain spellings, they are the first two expanded rows |
| Dictionary.IndexOf | lexconvert.py:317 | `list.index`: the first position of the name, and none exactly when the name is absent |
| Dictionary.FirstWins | lexconvert.py:321-322 | the map from source to destination spelling filled row by row without overwriting; its keys and values are stated by `FirstWinsKeys`, `FirstWinsExact` and `FirstWinsStable` |
| Dictionary.ConsonantsOf | lexconvert.py:323-327 | the destination spellings of the rows whose eSpeak spelling is all consonants; stated exactly by `ConsonantsExact` |
| Dictionary.MakeDictionary | lexconvert.py:311-329 | the dictionary with its separator and consonant list, or the unknown-name failure; computed by `BuildDictionary` and characterised by `MakeDictionaryCorrect` |
| Dictionary.BuildDictionary | lexconvert.py:311-329 | the loop filling the map and the consonant list computes `MakeDictionary` |
| Dictionary.FirstWinsKeys | lexconvert.py:321-322 | the keys are exactly the source spellings of the rows |
| Dictionary.FirstWinsExact | lexconvert.py:321-322 | a source spelling maps to the destination spelling of the first row that has it |
| Dictionary.FirstWinsStable | lexconvert.py:322 | later rows never overwrite an entry |
| Dictionary.ConsonantsExact | lexconvert.py:323-327 | a spelling is a destination consonant exactly when some row with that destination spelling has an eSpeak spelling made of `bdDfghklmnNprsStTvwjzZ` only (vacuously so for an empty one) |
| Dictionary.MakeDictionaryCorrect | lexconvert.py:311-329 | an unknown source name fails first, then an unknown destination; otherwise the separator is the destination cell of the row after the header, and keys, first-row values and consonants are as above, over the whole table |
| Dictionary.TableKeys | lexconvert.py:321-322 | the dictionary keys are the source spellings of the table rows after the header |
| Dictionary.TableFirstRows | lexconvert.py:321-322 | the first table row with a source spelling gives its value |
| Dictionary.TableConsonants | lexconvert.py:323-327 | the consonant set over the table rows after the header |
| Dictionary.ExpandedTableIsValid | lexconvert.py:238-256 | the expansion of an authored table whose header and separator line are plain spellings, with at least two notations, has the shape `MakeDictionary` requires, those two lines first |
| Converter.LastVowel | lexconvert.py:357-363 | the position found by the backward scans is that of the last token that is neither a consonant nor tagged, and none exactly when every token is one of those |
| Converter.BbcPitch | lexconvert.py:350-352 | the mark as written into the destination: `1` and `2` become pitch levels `3` and `4` for bbcmicro; stated by `BbcPitchLevels` |
| Converter.AfterVowel | lexconvert.py:357-360 | the list with the mark inserted right after the last vowel, or the failure when there is none; computed by `InsertAfterVowel`, stated by `StressAfterLastVowel` |
| Converter.BeforeVowel | lexconvert.py:362-365 | the list with the mark inserted right before the last vowel, or first; computed by `InsertBeforeVowel`, stated by `StressBeforeLastVowel` |
| Converter.Schwa | lexconvert.py:368-369 | the implicit-schwa step: a tagged `@` spelling appended before `n`/`l` after a consonant, or the tagged token two back removed; stated by `ImplicitSchwa` and `SchwaRetracted` |
| Converter.Append | lexconvert.py:371-377 | the value's first phoneme, then the withheld mark if released, then its other phonemes; stated by `WithheldMarkReleased` and `AppendAddsPieces` |
| Converter.Emit | lexconvert.py:348-377 | the handling of one matched value (stress placement, implicit schwa, append); computed by `EmitValue`, stated by the stress, schwa and append lemmas |
| Converter.Step | lexconvert.py:344-381 | one iteration of `while pronunc`: emit the longest key's value, or drop one character; stated by `TokenizerProgress` and `EmitInVocabulary` |
| Converter.Run | lexconvert.py:343-381 | the whole `while pronunc` loop as a recursion on the rest of the input; stated by `RunInVocabulary` |
| Converter.Finish | lexconvert.py:382-389 | the closing pass: release the withheld mark, drop one trailing separator, join, then collapse Cepstral stress or clean up eSpeak; computed by `FinishText`, stated by the four lemmas after it |
| Converter.Glue | lexconvert.py:384-385 | no glue for the notations where a space separates words, a space otherwise; used by `WithheldMarkLast` and `TrailingSeparatorDropped` |
| Converter.Polish | lexconvert.py:387-389 | Cepstral output has the space before `1` and `0` removed; eSpeak output is cleaned up; used by the closing-pass lemmas |
| Converter.Convert | lexconvert.py:331-389 | the whole of `convert`: dictionary, loop, closing pass; computed by `ConvertText`, with the lemmas above about its parts and `ConvertEmptyInput` |
| Converter.InsertAfterVowel | lexconvert.py:357-360 | the backward scan inserting a mark after the last vowel computes `AfterVowel`, failing when the scan runs off the list |
| Converter.InsertBeforeVowel | lexconvert.py:362-365 | the backward scan inserting a mark before the last vowel, or first, computes `BeforeVowel` |
| Converter.EmitValue | lexconvert.py:348-377 | the handling of one matched value computes `Emit` |
| Converter.LongestKey | lexconvert.py:344-347 | the `[2,1,0]` loop finds `MatchLength` |
| Converter.FinishText | lexconvert.py:382-389 | the closing pass computes `Finish` |
| Converter.ConvertText | lexconvert.py:331-389 | the whole of `convert` computes `Convert` |
| Converter.MatchLength | lexconvert.py:344-347 | never more characters than the input holds |
| Converter.Advance | lexconvert.py:346-379 | each iteration consumes between one character and the rest of the input |
| Converter.TokenizerPrefersLongest | lexconvert.py:344-347 | a 2-character key wins over a 1-character key; nothing matches exactly when neither is a key; a match is a key |
| Converter.TokenizerProgress | lexconvert.py:343-380 | each iteration consumes 1 to 3 characters; 3 exactly for an eSpeak-source `e@r` before the end or a consonant with `e@` a key; otherwise the key length, or 1 for a dropped character |
| Converter.AfterVowelMarksAreNotBeforeVowelMarks | lexconvert.py:349-361 | `0`, `1`, `2` never take the before-vowel branch |
| Converter.StressBeforeLastVowel | lexconvert.py:361-366 | into eSpeak or IPA from any other notation, a stress mark (or an empty spelling) is inserted immediately before the last vowel, or at the front when there is none; nothing else changes |
| Converter.StressAfterLastVowel | lexconvert.py:349-360 | otherwise an after-vowel mark, as a bbcmicro pitch level if need be, is inserted immediately after the last vowel; it fails exactly when there is no vowel |
| Converter.BbcPitchLevels | lexconvert.py:350-352 | for bbcmicro `0`, `1`, `2` become `0`, `3`, `4`; other notations keep the mark |
| Converter.StressWithheld | lexconvert.py:354-355 | from eSpeak or IPA an after-vowel mark is withheld, replacing any mark withheld before, and the list is unchanged |
| Converter.WithheldMarkReleased | lexconvert.py:371-377 | a withheld mark is written right after the first phoneme of the first appended value whose first phoneme is not a consonant, before its other phonemes; otherwise it stays withheld unless a new mark replaces it |
| Converter.ImplicitSchwa | lexconvert.py:368 | an `n` or `l` after a non-empty consonant is preceded by the tagged `@` spelling, or fails when the source has no `@` |
| Converter.SchwaRetracted | lexconvert.py:369 | a value that is not a consonant, the separator or empty removes the tagged token two back and keeps the rest in order |
| Converter.AppendAddsPieces | lexconvert.py:371-377 | appending keeps the list as a prefix and adds only phonemes of the value and the withheld mark |
| Converter.RunInVocabulary | lexconvert.py:343-381 | whatever the input, every emitted token and withheld mark is a destination spelling, one of its phonemes, or a bbcmicro pitch level |
| Converter.EmitInVocabulary | lexconvert.py:348-377 | one matched value keeps every token within the destination vocabulary |
| Converter.FinishFailsOnlyWhenEmpty | lexconvert.py:382-383 | the closing pass fails exactly when nothing was emitted and no mark is withheld |
| Converter.WithheldMarkLast | lexconvert.py:382-389 | for every destination, a mark still withheld at the end that is not the separator is written last, after the glue, before the Cepstral or eSpeak pass |
| Converter.WithheldSeparatorDropped | lexconvert.py:382-389 | a withheld mark equal to the separator (eSpeak `%` into festival or CMU `0`) is appended and then deleted as a trailing separator, so the output is the join of the other tokens |
| Converter.TrailingSeparatorDropped | lexconvert.py:383-389 | for every destination, exactly one trailing separator token is removed before the join and the final pass: joining it back gives the full list |
| Converter.ConvertEmptyInput | lexconvert.py:331-389 | an unknown source, then an unknown destination, is reported first; an empty pronunciation otherwise fails for want of output |
| Espeak.SuffixRule | lexconvert.py:393-399 | the cascade changes the length by at most one character and keeps everything before the last three |
| Espeak.FixReplacements | lexconvert.py:392 | the three replacements `k'a2n`, `ka2n`, `gg`, in order; shortening is stated by `CleanupShape` via `ReplaceShrinks` |
| Espeak.CleanupEspeakEntry | lexconvert.py:391-402 | the replacements followed by the ending rules; stated by `CleanupShape` and `CleanupCascadeOrder` |
| Espeak.Simplify | lexconvert.py:407-420 | the fifteen folds in order; stated by `SimplifyNormalForm`, `SimplifyFixesPlain` and `FoldExamples` |
| Espeak.ProbablyRightAlready | lexconvert.py:404-422 | two pronunciations agree when equal or equal after the folds; stated by `ProbablyRightAlreadyIsEquivalence`, `ProbablyRightAlreadyPlain` and `FoldExamples` |
| Espeak.CleanupShape | lexconvert.py:391-402 | the cleanup never lengthens an entry, and past the three replacements it changes only the last three characters |
| Espeak.CleanupCascadeOrder | lexconvert.py:393-399 | `i@r` and `U@r` win over the general `@r` rule; `e@r` and `i@l` endings are left alone |
| Espeak.ChainKeepsAbsent | lexconvert.py:407-420 | the fold chain never brings in a character absent from the input and every replacement |
| Espeak.ChainRemoves | lexconvert.py:407-420 | a fold that deletes or rewrites a one-character pattern leaves none of it, since no later fold brings it back |
| Espeak.SimplifyNormalForm | lexconvert.py:407-420 | a folded pronunciation contains none of `;`, `%`, `,`, `3`, `L`, `I`, `s` |
| Espeak.ProbablyRightAlreadyIsEquivalence | lexconvert.py:404-422 | two pronunciations agree exactly when their folds are equal, so agreement is reflexive, symmetric and transitive |
| Espeak.ChainSkips | lexconvert.py:407-420 | folds whose pattern cannot start anywhere in the string leave it unchanged |
| Espeak.SimplifyFixesPlain | lexconvert.py:407-420 | a pronunciation without any character a fold starts with is its own fold |
| Espeak.ProbablyRightAlreadyPlain | lexconvert.py:404-422 | two such pronunciations agree only when equal: the test is no looser than its folds |
| Espeak.StrippedFirst | lexconvert.py:407-408 | removing `;` and `%` beforehand does not change the result of a chain that starts by removing them |
| Espeak.ProbablyRightAlreadyIgnoresMarkers | lexconvert.py:407-408 | a pronunciation agrees with itself stripped of `;` and `%` |
| Espeak.MergeOne | lexconvert.py:407-420 | a string equal to one fold's pattern becomes its replacement when no earlier pattern can start in it and no later pattern in the replacement |
| Espeak.PlainAvoidsPatterns | lexconvert.py:407-420 | no fold pattern can start in a string without fold-start characters |
| Espeak.FoldMergesA2 | lexconvert.py:409 | `a2` folds to `@` |
| Espeak.FoldMergesS | lexconvert.py:415 | `s` folds to `z` |
| Espeak.FoldExamples | lexconvert.py:404-422 | `a2` agrees with `@` and `s` agrees with `z`: the test accepts spellings that are not equal |
| Text.WordLength | lexconvert.py:372 | the leading run of non-space characters |
| Text.Replace | lexconvert.py:392 | `str.replace`: non-overlapping, left to right; stated by `ReplaceKeepsAbsent`, `ReplaceRemoves`, `ReplaceShrinks` and `ReplaceAbsent` |
| Text.ReplaceKeepsAbsent | lexconvert.py:392 | a replacement brings in no character absent from the string and the replacement |
| Text.ReplaceRemoves | lexconvert.py:408 | replacing a one-character pattern by text without it leaves no occurrence |
| Text.ReplaceAbsent | lexconvert.py:407-420 | a pattern whose first character does not occur leaves the string unchanged |
| Text.Split | lexconvert.py:372 | `split()` gives non-empty, space-free pieces, and none exactly when the string is all spaces |
| Text.ReplaceShrinks | lexconvert.py:392 | a replacement no longer than its pattern never lengthens the string |
| Text.SubstringStartsInside | lexconvert.py:361 | a non-empty substring starts with a character of the containing string |
| Text.JoinSnoc | lexconvert.py:386 | joining one more part adds the glue and the part at the end |
| Text.Join | lexconvert.py:386 | `glue.join(parts)`; stated by `JoinSnoc` |

## Left out

- Unicode pre-decoding of IPA input (lines 332-340) is not modelled. It relies on `eval`, on byte decoding and on swallowed exceptions. The input is taken as already-decoded characters.
- The warning printed for an unknown eSpeak phoneme (line 345) is not modelled. It is a diagnostic; the character is dropped as in the original.
- Python 2's mixing of byte strings and unicode strings is not modelled. Spellings are sequences of characters, so the substring test of line 361 compares characters.
- Converter.Finish: the tag is removed from tagged tokens only. The model does not capture `replace('*added','')` removing that text if it occurred inside a table spelling, because no spelling contains it.
- Converter.StressAfterLastVowel: the model reports the failure as soon as the backward scan runs off the list. Python's negative indices make that scan wrap around once before it raises IndexError, with the same outcome.
- The cache of `make_dictionary` and the globals `dest_consonants` and `dest_syllable_sep` (lines 310-328) are not modelled as state. The cache never hits, and the two globals are fields of the `Dict` result.
- The concrete table (lines 31-141) is not transcribed. The model is parametric in the authored table, and `convert` takes the expanded table as a parameter. So there are no lemmas about particular conversions such as festival `h @0 l ou1` to eSpeak `h@%l'oU`.
- `compare_tables`, `squash_table` (lines 151-232) and `OED_alt_to_espeak` (lines 258-308) are not modelled. They are maintenance and front-end helpers outside the conversion path.
- The dictionary file parsing, the batch pipeline that calls espeak, lexicon writing and the command line (lines 424-646) are not modelled. They consist of file, process and terminal I/O.
- Espeak.ProbablyRightAlreadyIsEquivalence: the Python function returns `None` rather than `False` when the strings disagree. The model returns `false`, since callers only test truthiness.
