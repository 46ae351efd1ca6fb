# SESNA fertiliser lists: a verified model of the cleaning and matching core

The repository cleans the public lists of the Mexican fertiliser programme:
the producer list and the yearly beneficiary lists 2019-2022. It matches each
state, municipality and locality name to the INEGI catalogue of
geostatistical codes. The matching normalises the names, builds composite
keys, and takes the best fuzzy match above a threshold. It then joins the
dictionaries this produces back onto the lists.

This project models four Python modules as Dafny functions, methods and
lemmas, and proves what each stage promises:

- `data_cleaning_inegi.py` cleans the INEGI catalogues: it drops columns,
  drops duplicate rows, normalises the three names and renames the columns.
- `inegi_uniqueloc.py` handles each state's catalogue. It builds municipality
  and locality keys, reports repeated keys, and keeps the most populous
  locality per municipality and locality name. `generate_uniqueloc` then saves
  one file per state and year.
- `data_cleaning_and_merge.py` builds the producer dictionary. It fuzzy-matches
  the INEGI state-municipality keys against the producers' keys with an inner
  join, then joins the dictionary onto the producer list.
- `data_cleaning_and_merge_e3.py` runs the beneficiary pipeline
  (`data_cleaning3`):
  - a municipality stage: padded codes, the fuzzy municipality dictionary,
    a curated dictionary, and the two left joins;
  - one locality branch per year, 2019 to 2022. Each branch splits the list by
    state into a dictionary shared by every call, fuzzy-matches each state
    against that state's unique localities, and completes the list with two
    more left joins.

## How the model works

**Tables.** A pandas table is a `Frames.Frame`: a header of distinct labels
and rows of cells. A cell is `NaN`, a string or a number. Every pandas
operation the core uses is a function that returns a `Result`. It returns
`Err` exactly where pandas raises: `KeyError` for a missing column,
`AttributeError` for `clean_text` on a number, `TypeError` for `extractOne`
when the query or a candidate is not text (`Fuzzy.ExtractCell` under
"## Left out" says where this is stricter than `thefuzz`), and a shape error
for `str.split(expand=True)`.

**In-place updates.** The source changes tables in place
(`inplace=True`, `df[c] = ...`, the mutable default dictionary of
`create_listados_por_entidad`). The model does the same with two classes:

- `Tables.Table` has one method per in-place operation. Each method is
  specified against the pure function on the table's value.
- `Listados.Listados` holds the shared dictionary. `fuzzy_merge_benef2019_2022`
  assigns `best_match` and `match_score` into the table it is given, and
  each locality block gives it the dictionary's own entry. So each block
  leaves those two columns in the shared dictionary, even when its join
  then raises, and the next block sees them (`Localities.Annotated`,
  `Localities.RunBlocks`).

The per-year driver `Localities.DataCleaning3` is a method on a
`Listados.Listados`. It is proved equal, result and new dictionary alike, to
the pure `Localities.CleaningOutcome`.

**Parameters.** Two foreign pieces are parameters:

- `tr` stands for `unidecode`;
- `score` stands for the `thefuzz` scorer with its preprocessing, which
  gives a real value in 0..100. `extractOne` compares the unrounded value
  with the cutoff and picks the highest unrounded value. It then reports
  that value rounded to the nearest integer, a tie going to the even one.
  A scorer whose values are whole numbers gives the behaviour of the
  integer-scoring releases of `thefuzz`.

Actual file reads become table parameters, or a `read` function from file
name to table.

**Behaviour of the code worth knowing:**

- **Normaliser idempotence.** `clean_text` (src/data_cleaning_inegi.py) is
  not idempotent on every input. `re.sub('-.*-', '', t)` does not match
  across a newline, and the later whitespace step turns the newline into a
  space. So `"a-b\nc-d"` becomes `"a-b c-d"` and then `"ad"`. The model
  proves idempotence only for newline-free text.
- **BOM label.** e3:388 renames the first label of each curated locality
  dictionary, which carries a byte-order mark, back to its plain name
  (`Localities.Unmarked`).
- **`groupby` and missing keys.** `groupby` drops rows with a missing key
  component, so the duplicate total counts only rows whose key has no missing
  component.

## Model

| member | source | states |
|---|---|---|
| Base.AllOk | src/data_cleaning_and_merge_e3.py:274-348 | A list of steps run in order succeeds exactly when every step does, with their values in order. |
| Base.AllOkFirstError | src/data_cleaning_and_merge_e3.py:274-348 | The first failing step, after steps that all succeed, decides the error. |
| Base.AllOkSnoc | src/data_cleaning_and_merge_e3.py:274-348 | One more successful step appends its value to the list of values. |
| Seqs.KeepFirstKeys | src/data_cleaning_and_merge_e3.py:189-192 | Keep-first de-duplication keeps the set of keys: every key of the input survives and no new key appears. |
| Seqs.KeepFirstUnique | src/data_cleaning_and_merge_e3.py:189-192 | After keep-first de-duplication no two elements share a key. |
| Seqs.KeepFirstSubsequence | src/data_cleaning_and_merge_e3.py:189-192 | The survivors are input elements in input order. |
| Seqs.KeepFirstFirsts | src/data_cleaning_and_merge_e3.py:189-192 | Each survivor is the first input element with its key (keep='first'). |
| Seqs.KeepFirstOrder | src/data_cleaning_and_merge_e3.py:189-192 | Survivors come in the order in which their keys first occur in the input. |
| Seqs.KeepFirstOfUnique | src/data_cleaning_and_merge_e3.py:217 | On input whose keys are already unique, keep-first removes nothing. |
| Seqs.KeepFirstLength | src/data_cleaning_and_merge_e3.py:189-192 | De-duplication never lengthens its input. |
| Seqs.FirstRepeat | src/data_cleaning_and_merge.py:74-76 | Gives the first position that repeats an earlier element, and gives the length exactly when the elements are distinct. |
| Seqs.CountRepeated | src/inegi_uniqueloc.py:21 | An element occurs more than once exactly when another position holds it (`duplicated(keep=False)`). |
| Seqs.SumCountsCovers | src/inegi_uniqueloc.py:25-32 | Over distinct groups that cover a sequence, the group sizes add up to its length. |
| Seqs.PickSubsequence | src/inegi_uniqueloc.py:36 | `loc` at increasing positions gives a subsequence. |
| Text.Strip | src/data_cleaning_and_merge_e3.py:46 | `str.strip()`: the result is a slice of the input with only whitespace before and after it, and has no whitespace at either end. |
| Text.StripOfStripped | src/data_cleaning_and_merge_e3.py:51 | Text with no whitespace at either end is its own strip. |
| Text.LowerStr | src/data_cleaning_and_merge_e3.py:47 | `str.lower()`: the length is kept and each character is mapped by Python's lower-casing of ASCII and Latin-1 capitals. |
| Text.ReplaceChar | src/data_cleaning_and_merge_e3.py:86 | `replace(' ', '_')` keeps the length, and every place that held the old character holds the new one. |
| Keys.Split | src/data_cleaning_and_merge.py:149-150 | `split(sep)` gives at least one piece, and no piece contains the separator. |
| Keys.JoinSplit | src/data_cleaning_and_merge.py:149-150 | Joining the pieces of a split gives the text back. |
| Keys.SplitWithoutSeparator | src/data_cleaning_and_merge.py:149-150 | Text without the separator splits into itself alone. |
| Keys.SplitJoinKey | src/data_cleaning_and_merge.py:98-99 | When neither component holds a hyphen, splitting the key at '-' gives exactly the two components back. |
| Keys.JoinKeyInjective | src/data_cleaning_and_merge_e3.py:183-187 | Hyphen-free components are determined by their key. |
| Keys.JoinKeyCollision | src/data_cleaning_and_merge_e3.py:242-243 | With a hyphen inside a component, two different pairs ("a-b","c" and "a","b-c") share one key. |
| Keys.JoinKeyOfMissing | src/data_cleaning_and_merge_e3.py:180-181 | A missing component enters the key as "nan". |
| Keys.ZFill | src/data_cleaning_and_merge_e3.py:169-171 | `zfill(w)` gives length max(len, w) and leaves text that is already wide enough alone. Unsigned text gains only leading zeros and stays a suffix of the result; a leading sign stays in front. |
| Keys.ZFillIdempotent | src/data_cleaning_and_merge_e3.py:169-171 | Padding twice to the same width is padding once. |
| Keys.ZFillCell | src/data_cleaning_and_merge_e3.py:169-171 | `astype(str).str.zfill(w)`: the text is at least `w` wide and never shorter than the cell's text; unsigned text ends with the original. |
| Keys.ZFillMissing | src/data_cleaning_and_merge_e3.py:169-171 | A missing code is not padded away: it becomes "nan", or "0nan" at width 4. |
| Normalizer.DeleteHyphenSpans | src/data_cleaning_and_merge_e3.py:49 | `re.sub('-.*-', '', t)` never lengthens the text and never adds a hyphen. |
| Normalizer.FewHyphensUntouched | src/data_cleaning_and_merge_e3.py:49 | With fewer than two hyphens the substitution changes nothing. |
| Normalizer.SpanBetweenHyphensDeleted | src/data_cleaning_and_merge_e3.py:49 | On newline-free text with two or more hyphens, everything from the first to the last hyphen is deleted and the rest is kept. |
| Normalizer.AtMostOneHyphenLeft | src/data_cleaning_and_merge_e3.py:49 | On newline-free text at most one hyphen survives the substitution. |
| Normalizer.Collapse | src/data_cleaning_and_merge_e3.py:50 | Collapsing whitespace never lengthens the text, and nonempty input gives nonempty output. |
| Normalizer.CollapseCollapsed | src/data_cleaning_and_merge_e3.py:50 | After collapsing, every whitespace character is a space and no space follows another. |
| Normalizer.CollapseNonSpaces | src/data_cleaning_and_merge_e3.py:50 | Collapsing keeps every non-whitespace character, in order. |
| Normalizer.CollapseOfCollapsed | src/data_cleaning_and_merge_e3.py:50 | Collapsing collapsed text changes nothing. |
| Normalizer.CleanString | src/data_cleaning_and_merge_e3.py:46-51 | The normalised string has no whitespace at either end, and its only whitespace is single spaces. |
| Normalizer.CleanText | src/data_cleaning_and_merge_e3.py:40-52 | `clean_text_inegi` on a cell: a missing value is returned as is, text is normalised to stripped, collapsed text, and a number raises AttributeError. `clean_text` at src/data_cleaning_and_merge.py:28-40 and src/data_cleaning_inegi.py:13-25 has the same body. |
| Normalizer.CleanStringShape | src/data_cleaning_and_merge_e3.py:46-51 | The result is folded lower-case ASCII with at most one hyphen. |
| Normalizer.CleanStringIdempotent | src/data_cleaning_and_merge_e3.py:40-52 | Normalising newline-free text twice gives the result of normalising once, under the transliteration assumptions. |
| Normalizer.CleanTextIdempotent | src/data_cleaning_and_merge_e3.py:40-52 | A second application to a cell returns the first result, under the same assumptions. |
| Normalizer.AsciiFoldMeetsAssumptions | src/data_cleaning_and_merge_e3.py:48 | Some transliteration meets the assumptions, so they are satisfiable. |
| Frames.AssignColumn | src/data_cleaning_and_merge.py:98-99 | `f[c] = vals` overwrites an existing column where it stands, or appends a new one on the right. Every other cell is kept. |
| Frames.Select | src/data_cleaning_and_merge.py:134 | `f[cs]` gives exactly the listed columns in order with their values. It raises KeyError on the first absent label, and a repeated label is reported. |
| Frames.Drop | src/data_cleaning_and_merge.py:69-71 | `drop(columns=cs)` removes exactly the listed columns and keeps the rest in order with their values. An absent label raises KeyError. |
| Frames.DropDuplicates | src/data_cleaning_and_merge.py:74-76 | `drop_duplicates()` gives distinct rows forming a subsequence of the input, with the same set of rows as the input. |
| Frames.DropDuplicatesFrom | src/data_cleaning_and_merge.py:74-76 | Every kept row is an input row. |
| Frames.DropDuplicatesCovers | src/data_cleaning_and_merge.py:74-76 | Every input row is equal to a kept row. |
| Frames.DropDuplicatesKeepsFirst | src/data_cleaning_and_merge.py:74-76 | Each kept row is the first occurrence of that row in the input (keep='first'). |
| Frames.DropDuplicatesFirstOrder | src/data_cleaning_and_merge.py:74-76 | The kept rows come in the order of their first occurrences in the input. |
| Frames.DropDuplicatesOn | src/data_cleaning_and_merge_e3.py:192 | `drop_duplicates(subset)`: KeyError exactly when a label is absent; otherwise a subsequence of the rows with unique keys and the same set of keys. |
| Frames.DropDuplicatesOnOneColumn | src/data_cleaning_and_merge_e3.py:206 | After de-duplicating on one column, no two rows share its value. |
| Frames.DropDuplicatesOnOneColumnCovers | src/data_cleaning_and_merge_e3.py:206 | Every value of the column keeps a row. |
| Frames.DropDuplicatesOnKeepsFirst | src/data_cleaning_and_merge_e3.py:206 | Each survivor is the first input row with its key. |
| Frames.DropDuplicatesOnFirstOrder | src/data_cleaning_and_merge_e3.py:206 | The survivors come in the order in which their keys first occur in the input. |
| Frames.DropNa | src/data_cleaning_and_merge_e3.py:215 | `dropna()` keeps exactly the rows without a missing cell, in order. |
| Frames.FilterEq | src/inegi_uniqueloc.py:12 | `f[f[c] == v]` keeps exactly the rows whose cell is v, in order; a missing cell never equals v. |
| Frames.FilterNe | src/data_cleaning_and_merge.py:144 | `f[f[c] != v]` keeps exactly the rows whose cell is not v; missing cells are kept. |
| Frames.Rename | src/data_cleaning_inegi.py:46-57 | `rename(columns=m)` changes labels and no cell. A mapping that would give two columns one label is reported. |
| Frames.Concat | src/data_cleaning_and_merge_e3.py:91 | `pd.concat([a, b])` gives the rows of a, then those of b, on the union of the headers, with NaN where a table lacks a label. |
| Frames.ConcatAll | src/data_cleaning_and_merge_e3.py:351-367 | The concatenation of a list of tables has as many rows as the tables together, on all their labels. |
| Frames.ConcatAllCarries | src/data_cleaning_and_merge_e3.py:351-367 | Row i of table k is row TotalRows(fs[..k]) + i of the concatenation. |
| Merge.MatchesUpToSpec | src/data_cleaning_and_merge_e3.py:219-220 | The right rows a key matches are listed exactly once each, in ascending order. |
| Merge.PairsOrdered | src/data_cleaning_and_merge_e3.py:219-220 | Output pairs come grouped by left row, in left order: pandas' merge order. |
| Merge.JoinCoversRow | src/data_cleaning_and_merge_e3.py:219-220 | Every left row with a match contributes an output row, and in a left join so does every other left row. |
| Merge.LeftJoinLength | src/data_cleaning_and_merge_e3.py:219-220 | A left join never has fewer rows than its left table. |
| Merge.DoubleMatchAddsRow | src/data_cleaning_and_merge_e3.py:406-411 | A left row with two matches makes the left join longer than its left table. |
| Merge.LeftJoinOneToOne | src/data_cleaning_and_merge_e3.py:219-220 | When no left row has two matches, output row i is left row i, with its match or with padding. |
| Merge.InnerJoinAllMatched | src/data_cleaning_and_merge.py:63-64 | In an inner join every output row has a partner. |
| Merge.UniqueKeysAtMostOne | src/data_cleaning_and_merge_e3.py:221-223 | Unique right keys give each left key at most one match. |
| Merge.PairsMatchKeys | src/data_cleaning_and_merge_e3.py:219-220 | A pair joins rows with equal keys; a padded pair is a left row whose key no right row has. |
| Merge.MergedColumns | src/data_cleaning_and_merge_e3.py:34-35 | The output header is the left labels, then the kept right labels. A label found on both sides takes its side's suffix. |
| Merge.MergeFrames | src/data_cleaning_and_merge_e3.py:34-35 | `pd.merge(left_on, right_on, how, suffixes)`. A missing key raises KeyError. It succeeds exactly when both keys exist and the output labels are distinct. Each row has equal keys, and a padded row's key matches no right row. |
| Merge.MergeGetLeft | src/data_cleaning_and_merge_e3.py:219-220 | An unsuffixed left column reads the value of the left row each output row came from. |
| Merge.MergeGetRight | src/data_cleaning_and_merge_e3.py:219-220 | An unsuffixed kept right column reads the joined right row's value, or NaN on a padded row. |
| Merge.MergeLeftUnique | src/data_cleaning_and_merge_e3.py:221-223 | A left join on a right key without repeats has one output row per left row, in left order. |
| Merge.MergeCovers | src/data_cleaning_and_merge_e3.py:219-220 | Every left row reaches a left join's output. In an inner join, so does every left row whose key some right row shares. |
| Merge.MergeLeftGrows | src/data_cleaning_and_merge_e3.py:406-411 | Two right rows sharing a left row's key make a left join longer than its left table. |
| Merge.MergeUniqueRight | src/data_cleaning_and_merge.py:63-64 | On a right key without repeats, output rows come from strictly increasing left rows. |
| Merge.MergeSharedKey | src/data_cleaning_and_merge.py:63-64 | Two right rows sharing a left row's key give that left row two output rows, in either join. |
| Merge.MergeUniqueLeftCells | src/data_cleaning_and_merge_e3.py:219-220 | On unique right keys, output row i of a left join holds left row i's cells under the unsuffixed labels. |
| Merge.MergeUniquePair | src/data_cleaning_and_merge_e3.py:219-220 | On unique right keys, output row i pairs left row i with the right row that shares its key. |
| Merge.MergeUniqueMatched | src/data_cleaning_and_merge_e3.py:219-220 | On unique right keys, output row i holds the matching right row's cells under the unsuffixed kept right labels. |
| Merge.MergeUniqueUnmatched | src/data_cleaning_and_merge_e3.py:219-220 | On unique right keys, a left row whose key no right row has gets NaN under the kept right labels. |
| Merge.MergeHasPair | src/data_cleaning_and_merge.py:63-64 | A left row and a right row with one key make an output pair, in either join. |
| Merge.JoinedRowWhole | src/data_cleaning_and_merge.py:63-64 | Joined on two different key labels, an output row is the left row followed by the whole right row. |
| Tables.Table.constructor | src/data_cleaning_and_merge.py:85 | A new table holds the given well-formed value. |
| Tables.Table.Assign | src/data_cleaning_and_merge.py:98-99 | `df[c] = vals` in place: the new value is the old one with the column assigned. |
| Tables.Table.DropColumns | src/data_cleaning_and_merge_e3.py:55-60 | `drop(..., inplace=True)`: columns go as `Frames.Drop` says. On KeyError the table is unchanged and the error is returned. |
| Tables.Table.DropDuplicateRows | src/data_cleaning_and_merge_e3.py:406 | `drop_duplicates(inplace=True)`: the new value is the old one de-duplicated. |
| Tables.Table.DropDuplicateKeys | src/data_cleaning_and_merge_e3.py:262-263 | `drop_duplicates(subset=cs, inplace=True)`: keep-first on cs, or the KeyError with the table unchanged. |
| Tables.Table.DropMissing | src/data_cleaning_and_merge_e3.py:215 | `dropna(inplace=True)`: the new value is the old one without incomplete rows. |
| Tables.Table.RenameColumns | src/data_cleaning_and_merge_e3.py:69-81 | `rename(columns=m, inplace=True)`, or the duplicate-label error with the table unchanged. |
| Derive.CleanCells | src/data_cleaning_and_merge.py:102-103 | `apply(clean_text)` over a column: each cell normalised, or AttributeError when some cell is a number. |
| Derive.CleanColumn | src/data_cleaning_and_merge.py:102-103 | `f[c].apply(clean_text)`: KeyError when c is absent, otherwise the cleaned cells, row by row. |
| Derive.KeyColumn | src/data_cleaning_and_merge.py:98-99 | `f[a].astype(str) + '-' + f[b].astype(str)`: row i holds the key of row i's two cells. |
| Derive.ZFillColumn | src/data_cleaning_and_merge_e3.py:169-171 | `astype(str).str.zfill(w)`: row i holds row i's code padded to width w. |
| Derive.TextColumn | src/data_cleaning_and_merge.py:116-117 | `astype(str)`: row i holds row i's cell as text. |
| Derive.WithPieces | src/data_cleaning_and_merge.py:149-150 | The first two split pieces are assigned to the two target columns; the other columns stay. |
| Derive.SplitColumn | src/data_cleaning_and_merge.py:149-150 | `f[[a, b]] = f[c].str.split('-', expand=True)` succeeds exactly when c exists and the split gives two columns. Otherwise it raises KeyError or a shape error. |
| Derive.SplitKeyColumn | src/data_cleaning_and_merge.py:149-150 | A column of keys of hyphen-free cells splits back into the two component columns, as text. |
| Derive.AssignClean | src/data_cleaning_and_merge.py:102-103 | `f[t] = f[c].apply(clean_text)`: the new column holds the cleaned cells and all other cells are kept. |
| Derive.AssignText | src/data_cleaning_and_merge.py:123-124 | `f[c] = f[c].astype(str)`: column c becomes text, with nothing else changed. |
| Derive.AssignKey | src/data_cleaning_and_merge.py:98-99 | `f[t] = key of a and b`: the new column holds the row keys and all other cells are kept. |
| Derive.AssignCleanPair | src/data_cleaning_and_merge.py:111-117 | Two names cleaned and turned to text into two new columns, which fails exactly when a name column is absent or holds a number. |
| Derive.NameKeySplits | src/data_cleaning_and_merge.py:119 | When neither cleaned name holds a hyphen, the name key splits back into the two cleaned names. |
| Derive.AssignNameKey | src/data_cleaning_and_merge.py:111-119 | The producer key: row i's key is the key of the cleaned state and municipality of row i, with every other cell kept. |
| Derive.AssignCleanKey | src/data_cleaning_and_merge_e3.py:208-213 | The two cleaned names and their key, row by row, with the other cells kept; it fails exactly when a column is absent or holds a number. |
| Derive.AssignCodeAndNameKeys | src/data_cleaning_and_merge.py:98-126 | An error is a KeyError or AttributeError; the row count is kept and the header gains the four labels. |
| Derive.AssignCodeAndNameKeysOk | src/data_cleaning_and_merge.py:98-126 | Both keys can be built exactly when the four source columns exist and neither name column holds a number. |
| Derive.AssignCodeAndNameKeysRows | src/data_cleaning_and_merge.py:98-126 | Row by row: the code key, the two cleaned names, and the key of those names. |
| Derive.AssignCodeAndNameKeysOthers | src/data_cleaning_and_merge.py:98-126 | Row by row, every other column keeps its cell. |
| Fuzzy.BestUpToSpec | src/data_cleaning_and_merge_e3.py:26 | The pick is None exactly when no unrounded score reaches the cutoff. Otherwise its unrounded score reaches the cutoff, is at least every candidate's, and is above every earlier one's. |
| Fuzzy.ExtractOneSpec | src/data_cleaning_and_merge_e3.py:26 | `extractOne` with a cutoff finds nothing exactly when all unrounded scores are below it. What it finds is a candidate with the highest unrounded score, the earliest of those, at or above the cutoff, together with that unrounded score. |
| Fuzzy.ExtractCell | src/data_cleaning_and_merge_e3.py:26 | `process.extractOne` on one query cell: the best match when the query and all candidates are text, and TypeError otherwise, which is stricter than `thefuzz` for non-text candidates (see "## Left out"). |
| Fuzzy.ExtractColumn | src/data_cleaning_and_merge_e3.py:26 | One match per query, in order, or the first error. |
| Fuzzy.BestMatchCells | src/data_cleaning_and_merge_e3.py:29 | `best_match` holds each match's candidate, or NaN where there is none. |
| Fuzzy.Round | src/data_cleaning_and_merge_e3.py:26 | The score `extractOne` reports: the nearest integer to the unrounded score, a tie going to the even one, and the score itself when it is whole. |
| Fuzzy.ScoreCells | src/data_cleaning_and_merge_e3.py:31 | `match_score` holds each match's rounded score, or NaN where there is none. |
| Fuzzy.Annotate | src/data_cleaning_and_merge_e3.py:23-31 | KeyError for a missing key column, the candidate key checked first; the rows are kept. |
| Fuzzy.WithMatches | src/data_cleaning_and_merge_e3.py:29-31 | The two assignments keep every other column and set the two match columns row by row. |
| Fuzzy.AnnotateRow | src/data_cleaning_and_merge_e3.py:26-31 | Each row records the best match of its query and its rounded score, with both missing when no unrounded score reaches the threshold. |
| Fuzzy.AnnotateSpec | src/data_cleaning_and_merge_e3.py:23-31 | Annotation keeps every other column and each row records the best match of its query. |
| Fuzzy.AnnotateColumns | src/data_cleaning_and_merge_e3.py:29-31 | The labels of an annotated table are the old ones, then `best_match` and `match_score` unless already there. |
| Fuzzy.FuzzyMergeBenef | src/data_cleaning_and_merge_e3.py:14-37 | The annotated beneficiary table left-joined to the catalogue on `best_match` = key2; KeyError in the order the source looks the columns up, and a well-formed result. |
| Fuzzy.FuzzyMergeProd | src/data_cleaning_and_merge.py:44-66 | The annotated INEGI table inner-joined to the producers on `best_match` = key2; KeyError in the order the source looks the columns up, and a well-formed result. |
| Fuzzy.FuzzyMergeBenefKeepsRows | src/data_cleaning_and_merge_e3.py:34-35 | No beneficiary is lost: each one reaches the output with its own cells, matched or not. |
| Fuzzy.FuzzyMergeBenefRow | src/data_cleaning_and_merge_e3.py:14-37 | With unique catalogue keys the merge is one-to-one: row i is beneficiary i, with its cells, its best match and its score. |
| Fuzzy.FuzzyMergeBenefPartner | src/data_cleaning_and_merge_e3.py:34-35 | With unique catalogue keys, row i carries the catalogue row whose key is its best match, or NaN throughout when it has none. |
| Fuzzy.FuzzyMergeProdRow | src/data_cleaning_and_merge.py:63-64 | Every output row joins an INEGI row to a producer row whose key is that row's best match, and the match reached the threshold. |
| Fuzzy.FuzzyMergeProdCovers | src/data_cleaning_and_merge.py:63-64 | An INEGI row with a producer key scoring at least the threshold reaches the output with its own cells. |
| Fuzzy.FuzzyMergeProdOnce | src/data_cleaning_and_merge.py:63-64 | The output rows come from strictly increasing INEGI rows. |
| Fuzzy.FuzzyMergeProdTwice | src/data_cleaning_and_merge.py:63-64 | Two producer rows with the matched key give the INEGI row two output rows. |
| Fuzzy.AnnotateTable | src/data_cleaning_and_merge_e3.py:23-31 | The two assignments into the caller's table, which changes it exactly when annotation succeeds. |
| Fuzzy.FuzzyMergeBenefTable | src/data_cleaning_and_merge_e3.py:14-37 | The merge on the caller's table, which keeps the two new columns even when the join then raises. |
| Fuzzy.FuzzyMergeProdTable | src/data_cleaning_and_merge.py:44-66 | The same for the producer merge on the caller's INEGI table. |
| InegiCleaning.Targets | src/data_cleaning_inegi.py:40-43 | The labels `clean_text_column` writes are the `_Clean` labels of the listed columns. |
| InegiCleaning.CleanColumns | src/data_cleaning_inegi.py:40-43 | The loop leaves the table and error that the column-by-column function gives; the table stays well-formed and keeps its row count. |
| InegiCleaning.CleanTextColumn | src/data_cleaning_inegi.py:40-43 | The loop over the columns on the caller's table gives `CleanColumns`' table and error. |
| InegiCleaning.CleanStep | src/data_cleaning_inegi.py:40-43 | After the first assignment, the rest of the loop runs on the new table. |
| InegiCleaning.CleanColumnsFails | src/data_cleaning_inegi.py:40-43 | For independent columns the pass fails exactly when a listed column is absent (KeyError) or holds a number (AttributeError). |
| InegiCleaning.CleanColumnOk | src/data_cleaning_inegi.py:41-42 | Normalising one column fails exactly when it is absent or holds a number. |
| InegiCleaning.CleanColumnsKeeps | src/data_cleaning_inegi.py:40-43 | Every old label and every value under a label it does not write survive, even when the pass fails part-way. |
| InegiCleaning.CleanColumnsLabels | src/data_cleaning_inegi.py:40-43 | The labels afterwards are exactly the old ones plus the `_Clean` labels. |
| InegiCleaning.CleanColumnsValues | src/data_cleaning_inegi.py:40-43 | On success each `c_Clean` holds `clean_text` of c, row by row. |
| InegiCleaning.RenameSpec | src/data_cleaning_inegi.py:46-57 | Renaming changes only labels: a mapped column takes its new label, and an unmapped one keeps its label and cells. |
| InegiCleaning.InegiNamesFacts | src/data_cleaning_inegi.py:46-57 | The fixed mapping sends the three names and their clean copies to the labels later stages read. |
| InegiCleaning.CleanThenRename | src/data_cleaning_inegi.py:80-83 | After cleaning then renaming, the renamed `c_Clean` equals `clean_text` of the renamed c in every row. |
| InegiCleaning.CleanPass | src/data_cleaning_inegi.py:80-83 | A missing drop column raises KeyError; a result is well-formed. |
| InegiCleaning.CleanPassRows | src/data_cleaning_inegi.py:80-83 | Every output row comes from a distinct row left after the drop and keeps the cells of the columns neither cleaned nor renamed. |
| InegiCleaning.InegiNamesAgree | src/data_cleaning_inegi.py:46-57 | Normalising the three names and renaming makes the normalised names agree with the raw ones. |
| InegiCleaning.CleanInegiNames | src/data_cleaning_inegi.py:78-84 | Each output row has `Entidad_c_inegi` equal to `clean_text` of `Entidad_inegi`, and likewise for the municipality and locality names. |
| InegiCleaning.CleanInegi | src/data_cleaning_inegi.py:64-92 | Stops at the first failing catalogue: those before it are saved with their pass results, and the error is that catalogue's. |
| InegiCleaning.DatasetCleaningInegi | src/data_cleaning_and_merge_e3.py:63-66 | The three assignments amount to `clean_text_column` with the three name columns. |
| InegiCleaning.CleaningInegi | src/data_cleaning_and_merge_e3.py:136-160 | On success, drop, then clean, then rename, and the saved names agree; a failed drop changes nothing and reports its error. |
| UniqueLoc.KeysOn | src/inegi_uniqueloc.py:21 | Each row's cells under the grouping labels, in order. |
| UniqueLoc.DuplicateTotalCounts | src/inegi_uniqueloc.py:21-32 | The total reported is the number of rows whose key has no missing component and is shared with another row. |
| UniqueLoc.DuplicateTotalOfDistinct | src/inegi_uniqueloc.py:21-32 | With no repeated key nothing is reported. |
| UniqueLoc.DuplicateReport | src/inegi_uniqueloc.py:21-32 | KeyError exactly when a key label is absent. |
| UniqueLoc.ArgMaxUpTo | src/inegi_uniqueloc.py:36 | `idxmax` of a group: the earliest position with the largest population, or None. |
| UniqueLoc.WinnersUpTo | src/inegi_uniqueloc.py:36 | The winning positions, increasing, one per group. |
| UniqueLoc.Winners | src/inegi_uniqueloc.py:36 | `groupby(...).idxmax()` gives the winners, or an error when some group's population is not numeric or is missing. |
| UniqueLoc.SelectMax | src/inegi_uniqueloc.py:36 | For each group with no missing key component, the first row with the largest population. |
| UniqueLoc.SelectMaxSubsequence | src/inegi_uniqueloc.py:36 | The selected rows are input rows, in input order. |
| UniqueLoc.SelectMaxLargest | src/inegi_uniqueloc.py:36 | Every selected row is the largest of its group, and strictly larger than the group's earlier rows. |
| UniqueLoc.SelectMaxUnique | src/inegi_uniqueloc.py:36 | No two selected rows share a group. |
| UniqueLoc.SelectMaxCovers | src/inegi_uniqueloc.py:36 | Every group without a missing key component has a selected row. |
| UniqueLoc.Keyed | src/inegi_uniqueloc.py:8-9 | The municipality key is joined from the cleaned state and municipality names (`Entidad_c_inegi`, `Municipio_c_inegi`), and the locality key from the cleaned municipality and locality names (`Municipio_c_inegi`, `Localidad_c_inegi`). |
| UniqueLoc.OfState | src/inegi_uniqueloc.py:12-15 | The distinct rows whose state is the given one. |
| UniqueLoc.ProcesarDatosInegiPorEstado | src/inegi_uniqueloc.py:3-45 | The whole call on the table read from disk, with the keys assigned into it in place. |
| UniqueLoc.DropKeepsUniqueKeys | src/inegi_uniqueloc.py:39-42 | Once no two rows share a group, dropping other columns and de-duplicating on it removes nothing. |
| UniqueLoc.FinalDedupRemovesNothing | src/inegi_uniqueloc.py:42 | The finished table is exactly the selection with the municipality key dropped. |
| UniqueLoc.FinishOnePerPair | src/inegi_uniqueloc.py:36-42 | No two finished rows share a municipality and locality name pair. |
| UniqueLoc.FinishFromCandidate | src/inegi_uniqueloc.py:36-42 | Each finished row is a candidate row, less the municipality key, that is the largest of its name pair. |
| UniqueLoc.FinishCovers | src/inegi_uniqueloc.py:36-42 | Every candidate with both names present has a finished row with its name pair. |
| UniqueLoc.CandidateFromInput | src/inegi_uniqueloc.py:8-15 | A candidate row is a keyed input row of the state. |
| UniqueLoc.InputInCandidates | src/inegi_uniqueloc.py:8-15 | Every input row of the state has a copy among the candidates. |
| UniqueLoc.SavedOnePerPair | src/inegi_uniqueloc.py:12-42 | Every saved row belongs to the state, and no two share a name pair. |
| UniqueLoc.CandidateLargest | src/inegi_uniqueloc.py:12-36 | The largest candidate of a name pair is the largest input row of the state with that pair. |
| UniqueLoc.SavedLargest | src/inegi_uniqueloc.py:3-45 | Every saved row comes from a row of the state with both names present and the largest population of its name pair. |
| UniqueLoc.FinishDropsKey | src/inegi_uniqueloc.py:39 | A saved row reads NaN under the municipality key. |
| UniqueLoc.SavedCovers | src/inegi_uniqueloc.py:3-45 | Every input row of the state with both names present has a saved row with its name pair. |
| UniqueLoc.RawNamesKeptApart | src/inegi_uniqueloc.py:36 | Grouping is by name, not by key: two rows with different name pairs both keep a saved row, whatever their locality key. |
| FileNames.Slug | src/inegi_uniqueloc.py:55 | `lower().replace(" ", "_")` keeps the length. |
| FileNames.OutputPathShared | src/inegi_uniqueloc.py:55 | Two states of one year share a file exactly when their slugs agree. |
| FileNames.StripCsv | src/data_cleaning_and_merge_e3.py:125 | Removing ".csv" from a dot-free stem followed by ".csv" gives the stem. |
| FileNames.LoadedUnderStem | src/data_cleaning_and_merge_e3.py:125 | A saved state file loads back under its stem when neither the year nor the name holds a dot. |
| FileNames.MichoacanSlug | src/inegi_uniqueloc.py:55 | The slug of "Michoacán de Ocampo" is "michoacán_de_ocampo". |
| FileNames.MichoacanFile | src/data_cleaning_and_merge_e3.py:317 | The 2019 file of Michoacán is the one the beneficiary pipeline looks up. |
| Generate.Paths | src/inegi_uniqueloc.py:55 | Exactly the set of the states' paths. |
| Generate.Save | src/inegi_uniqueloc.py:54-56 | No failure exactly when every outcome is Ok; a failure is the first failing outcome's error. |
| Generate.SaveKeys | src/inegi_uniqueloc.py:54-56 | A run writes only its states' paths, and all of them when it does not fail. |
| Generate.SaveKeepsOthers | src/inegi_uniqueloc.py:54-56 | A file no state maps to keeps its table. |
| Generate.SaveWrites | src/inegi_uniqueloc.py:54-56 | After a successful run, a state whose path no later state shares holds its own table. |
| Generate.Saved | src/inegi_uniqueloc.py:55-56 | Ok exactly when the per-state call is Ok, with its saved table, or its error. |
| Generate.Outcomes | src/inegi_uniqueloc.py:54-56 | One outcome per state, in order. |
| Generate.GenerateYear | src/inegi_uniqueloc.py:54-56 | The loop over the states equals `RunYear`. |
| Generate.StatesDotFree2019 | src/inegi_uniqueloc.py:51 | No 2019 state name holds a dot. |
| Generate.StatesDotFreeLater | src/inegi_uniqueloc.py:61 | No state name of the 2020-2022 lists holds a dot. |
| Generate.StatesApart | src/inegi_uniqueloc.py:51 | Each year's states get distinct files. |
| Generate.YearsApart | src/inegi_uniqueloc.py:55 | Two different years of four digits save to different files. |
| Generate.YearWrites | src/inegi_uniqueloc.py:54-56 | A successful year leaves each state's own table in its file. |
| Generate.YearKeepsOthers | src/inegi_uniqueloc.py:54-56 | A year leaves the other years' files alone. |
| Generate.GenerateUniqueloc | src/inegi_uniqueloc.py:47-86 | The four years in turn, each against its own catalogue, stopping at the first failure. |
| Generate.EveryStateSaved | src/inegi_uniqueloc.py:47-86 | A successful run leaves every state of every year its own table: no state overwrites another. |
| Loading.CsvFiles | src/data_cleaning_and_merge_e3.py:119 | Exactly the CSV files, in order. |
| Loading.LoadedKeys | src/data_cleaning_and_merge_e3.py:119-127 | The dictionary's keys are the keys of the files read. |
| Loading.LoadedValue | src/data_cleaning_and_merge_e3.py:119-127 | A file whose key no later file shares is what its key holds. |
| Loading.LoadedState | src/data_cleaning_and_merge_e3.py:103-133 | A state's saved table is found under the stem the pipeline looks up. |
| Loading.LoadInegiUniqueloc | src/data_cleaning_and_merge_e3.py:103-133 | The loop over the folder gives `Loaded` on its CSV files. |
| Listados.EntityRows | src/data_cleaning_and_merge_e3.py:87 | A subsequence of the list's rows, on the same header. |
| Listados.AddEntity | src/data_cleaning_and_merge_e3.py:89-94 | The entries stay well-formed. |
| Listados.Gathered | src/data_cleaning_and_merge_e3.py:85-95 | The entries stay well-formed. |
| Listados.AddEntityRows | src/data_cleaning_and_merge_e3.py:89-94 | The entry a pass touches grows by the state's rows. |
| Listados.GatheredKeys | src/data_cleaning_and_merge_e3.py:85-95 | A call creates an entry for each listed entity and no other. |
| Listados.GatheredRows | src/data_cleaning_and_merge_e3.py:85-95 | Each entry holds its old rows followed by the rows collected for it. |
| Listados.CollectedRows | src/data_cleaning_and_merge_e3.py:85-95 | An entry collects exactly the rows whose state is a listed entity mapping to it. |
| Listados.RepeatedCall | src/data_cleaning_and_merge_e3.py:84 | With the shared default, repeating an identical first call appends the same rows to every entry a second time. |
| Listados.GuerreroSharesEntry | src/data_cleaning_and_merge_e3.py:470 | "Guerrero" and "GUERRERO" share one entry. |
| Listados.PueblaSharesEntry | src/data_cleaning_and_merge_e3.py:470 | "Puebla" and "PUEBLA" share one entry. |
| Listados.GatheredHasEntries | src/data_cleaning_and_merge_e3.py:85-95 | Whatever the start, a call keeps every existing entry. |
| Listados.GatheredHasEntry | src/data_cleaning_and_merge_e3.py:85-95 | Whatever the start, a call leaves an entry for each listed entity. |
| Listados.Listados.constructor | src/data_cleaning_and_merge_e3.py:84 | The default dictionary starts empty. |
| Listados.Listados.Add | src/data_cleaning_and_merge_e3.py:86-94 | One pass updates the shared dictionary as `AddEntity` says. |
| Listados.Listados.Create | src/data_cleaning_and_merge_e3.py:84-100 | With `ENTIDAD`, the entries become `Gathered`; without it, nothing changes, and KeyError is raised exactly when the entity list is nonempty. |
| Producers.InegiDistinct | src/data_cleaning_and_merge.py:90-95 | The catalogue less the dropped columns, without repeated rows. Any other column survives. It raises KeyError when a dropped column is absent. |
| Producers.InegiStage | src/data_cleaning_and_merge.py:93-126 | The catalogue with its code key, two cleaned names and name key, one row per distinct row. |
| Producers.InegiStageOk | src/data_cleaning_and_merge.py:93-126 | The stage succeeds exactly when the drop does, the four source columns exist and neither name holds a number. |
| Producers.InegiStageRow | src/data_cleaning_and_merge.py:98-126 | Row by row: the code key of its codes, the cleaned names as text, and their key. |
| Producers.CodeKeySplits | src/data_cleaning_and_merge.py:98-99 | With hyphen-free codes, splitting `CVE_MUN_Unique` gives both codes back. |
| Producers.ProducerPairs | src/data_cleaning_and_merge.py:106-108 | The distinct state-municipality pairs, or KeyError. |
| Producers.ProducerKeys | src/data_cleaning_and_merge.py:111-129 | The cleaned names and key of each pair, distinct, or AttributeError on a number. |
| Producers.ProducerStage | src/data_cleaning_and_merge.py:106-129 | The producer keys: distinct rows, or the first error. |
| Producers.ProducerKeysFrom | src/data_cleaning_and_merge.py:111-129 | Each keyed row comes from a pair. |
| Producers.ProducerKeysCovers | src/data_cleaning_and_merge.py:111-129 | Each pair gives a keyed row. |
| Producers.ProducerPairsFrom | src/data_cleaning_and_merge.py:106-108 | Each pair is some producer's state and municipality. |
| Producers.ProducerPairsCovers | src/data_cleaning_and_merge.py:106-108 | Each producer's state and municipality are a pair. |
| Producers.ProducerStageOk | src/data_cleaning_and_merge.py:106-129 | The stage succeeds exactly when both columns exist and neither holds a number. |
| Producers.ProducerStageFrom | src/data_cleaning_and_merge.py:106-129 | Each output row is the cleaned key of some producer. |
| Producers.ProducerStageCovers | src/data_cleaning_and_merge.py:106-129 | Each producer's cleaned key is some output row. |
| Producers.ProducerStageLabels | src/data_cleaning_and_merge.py:128 | The output has exactly the two cleaned names and the key. |
| Producers.ListadoKeys | src/data_cleaning_and_merge.py:139-142 | Each list row gets its cleaned name key, with every other cell kept. |
| Producers.ListadoKeyFound | src/data_cleaning_and_merge.py:139-142 | `ListadoKeys` succeeds exactly when the producer stage does, and each list key is a producer key. |
| Producers.Dictionary | src/data_cleaning_and_merge.py:132-134 | KeyError with `KEY_prod` checked first, then `KEY_inegi`; otherwise the header is the five columns. |
| Producers.DictionaryRow | src/data_cleaning_and_merge.py:132-134 | Each row copies a catalogue row's codes and names, under a producer key that reaches the threshold and that no producer key outscores. |
| Producers.Completed | src/data_cleaning_and_merge.py:144-148 | KeyError in source order; a result is well-formed. |
| Producers.CompletedKeepsRows | src/data_cleaning_and_merge.py:147-148 | No producer is lost from the joined list. |
| Producers.CompletedNoVeracruz | src/data_cleaning_and_merge.py:144 | No output row names Veracruz. |
| Producers.CompletedOneEach | src/data_cleaning_and_merge.py:147-148 | On unique dictionary keys, exactly one row per producer with its own cells. |
| Producers.CompletedGrows | src/data_cleaning_and_merge.py:147-148 | Two dictionary rows with a producer's key add a row. |
| Producers.ProducerSameKeySameRow | src/data_cleaning_and_merge.py:119 | With hyphen-free names, one key means one row. |
| Producers.ProducerKeysUnique | src/data_cleaning_and_merge.py:119-129 | With hyphen-free names no producer key repeats. |
| Producers.DictionaryOnce | src/data_cleaning_and_merge.py:132 | The dictionary rows are the matched INEGI rows, in increasing order. |
| Producers.CleanPairInPlace | src/data_cleaning_and_merge.py:111-117 | The four assignments on the caller's table give `AssignCleanPair`'s table. |
| Producers.NameKeyInPlace | src/data_cleaning_and_merge.py:111-119 | The same plus the key gives `AssignNameKey`'s table. |
| Producers.CodeAndNameKeysInPlace | src/data_cleaning_and_merge.py:98-126 | The catalogue assignments give `AssignCodeAndNameKeys`'s table. |
| Producers.PrepareInegi | src/data_cleaning_and_merge.py:90-126 | The in-place catalogue preparation gives `InegiStage`'s table. |
| Producers.PrepareProducers | src/data_cleaning_and_merge.py:106-129 | The in-place producer preparation gives `ProducerStage`'s table. |
| Municipalities.Padded | src/data_cleaning_and_merge_e3.py:169 | One code column padded, with every other cell kept. |
| Municipalities.PaddedCodes | src/data_cleaning_and_merge_e3.py:169-171 | The three codes padded to widths 2, 3 and 4. |
| Municipalities.PaddedCodesRow | src/data_cleaning_and_merge_e3.py:169-171 | A padded row holds its codes padded and every other cell as before. |
| Municipalities.Catalogue | src/data_cleaning_and_merge_e3.py:169-187 | Padding, then the municipality and locality keys. |
| Municipalities.CatalogueRow | src/data_cleaning_and_merge_e3.py:169-187 | Each row's codes are padded to widths 2, 3 and 4, and its two keys are joined from its cleaned names. |
| Municipalities.CataloguePaddedOnce | src/data_cleaning_and_merge_e3.py:169-171 | Padding a padded code again changes nothing. |
| Municipalities.UniqueMun | src/data_cleaning_and_merge_e3.py:189-192 | Ok exactly when the locality columns and the key exist; never more rows; the labels are the catalogue's less the locality columns. |
| Municipalities.UniqueMunKeys | src/data_cleaning_and_merge_e3.py:189-192 | No two rows share a municipality key. |
| Municipalities.UniqueMunCovers | src/data_cleaning_and_merge_e3.py:189-192 | Every municipality of the catalogue keeps a row. |
| Municipalities.UniqueMunFrom | src/data_cleaning_and_merge_e3.py:189-192 | Every kept row is a catalogue row on the labels it keeps. |
| Municipalities.MunicipalityPairs | src/data_cleaning_and_merge_e3.py:174-181 | The distinct beneficiary state-municipality pairs with cleaned names and key. |
| Municipalities.MunicipalityPairsFrom | src/data_cleaning_and_merge_e3.py:174-181 | Each pair is a beneficiary's pair, keyed by its cleaned names. |
| Municipalities.MunicipalityPairsCovers | src/data_cleaning_and_merge_e3.py:174-181 | Every beneficiary's pair appears. |
| Municipalities.MunicipalityPairsDistinct | src/data_cleaning_and_merge_e3.py:174-181 | No pair is listed twice. |
| Municipalities.DictionaryMun | src/data_cleaning_and_merge_e3.py:194-197 | KeyError without the municipality key; otherwise the name columns are gone. |
| Municipalities.DictionaryMunRow | src/data_cleaning_and_merge_e3.py:194-197 | Each dictionary row is one pair, in order, with its best catalogue match when one reaches 85, or NaN. |
| Municipalities.OverrideMun | src/data_cleaning_and_merge_e3.py:206 | The first curated row of each key. |
| Municipalities.OverrideMunFirst | src/data_cleaning_and_merge_e3.py:206 | Each kept row is the first with its key, and every key keeps a row. |
| Municipalities.OverrideMunCovers | src/data_cleaning_and_merge_e3.py:206 | Every curated key keeps a row. |
| Municipalities.OverrideMunKeyAbsent | src/data_cleaning_and_merge_e3.py:206 | A key no curated row holds is not kept. |
| Municipalities.CuratedDedupRemovesNothing | src/data_cleaning_and_merge_e3.py:217 | The second de-duplication removes nothing. |
| Municipalities.KeyedBeneficiaries | src/data_cleaning_and_merge_e3.py:208-215 | Cleaned names and key, then only the complete rows. |
| Municipalities.NameKeyedRow | src/data_cleaning_and_merge_e3.py:208-213 | Before `dropna`, each row has its key and its other cells. |
| Municipalities.KeyedBeneficiariesFrom | src/data_cleaning_and_merge_e3.py:208-215 | Each kept row is a complete beneficiary row carrying its key. |
| Municipalities.KeyedBeneficiariesCovers | src/data_cleaning_and_merge_e3.py:208-215 | Each complete beneficiary row is kept. |
| Municipalities.ParteI | src/data_cleaning_and_merge_e3.py:206-220 | The keyed beneficiaries left-joined to the first curated row of each key; a successful join is a well-formed table, whose rows `ParteILeft`, `ParteIMatched` and `ParteIUnmatched` give. |
| Municipalities.ParteILeft | src/data_cleaning_and_merge_e3.py:219-220 | Row i is keyed beneficiary i, with its own cells. |
| Municipalities.ParteIMatched | src/data_cleaning_and_merge_e3.py:219-220 | A listed key gets the kept curated row's cells. |
| Municipalities.ParteIUnmatched | src/data_cleaning_and_merge_e3.py:219-220 | An unlisted key gets NaN under every curated label. |
| Municipalities.Listado | src/data_cleaning_and_merge_e3.py:221-231 | A well-formed table without the dropped columns. |
| Municipalities.ListadoKeepsBeneficiary | src/data_cleaning_and_merge_e3.py:221-231 | One row per keyed beneficiary, in order, with its own cells. |
| Municipalities.ParteIIMatched | src/data_cleaning_and_merge_e3.py:221-223 | Row i gets the municipality row sharing its key. |
| Municipalities.ListadoCarriesMunicipality | src/data_cleaning_and_merge_e3.py:206-231 | A listed beneficiary gets its municipality's catalogue cells. |
| Municipalities.LocKeyed | src/data_cleaning_and_merge_e3.py:235-243 | Cleaned names and the municipality-locality key. |
| Municipalities.LocKeyedRow | src/data_cleaning_and_merge_e3.py:235-243 | Row i's cleaned state and key. |
| Municipalities.LocKeyedKeeps | src/data_cleaning_and_merge_e3.py:235-243 | Row i keeps every other cell. |
| Municipalities.LocKeySplits | src/data_cleaning_and_merge_e3.py:242-243 | A hyphen-free key splits back into the cleaned municipality and locality. |
| Municipalities.DictionaryMunLength | src/data_cleaning_and_merge_e3.py:194-196 | One dictionary row per pair. |
| Municipalities.ListadoLength | src/data_cleaning_and_merge_e3.py:206-231 | One list row per keyed beneficiary. |
| Municipalities.MunicipalityStage | src/data_cleaning_and_merge_e3.py:169-243 | A success implies that each step succeeded; a missing code column gives KeyError. |
| Municipalities.MunicipalityStageParts | src/data_cleaning_and_merge_e3.py:169-243 | A successful stage's two tables are the ones the steps compute. |
| Municipalities.MunicipalityStageRows | src/data_cleaning_and_merge_e3.py:169-243 | One dictionary row per pair and one list row per keyed beneficiary. |
| Municipalities.MunicipalityStageKey | src/data_cleaning_and_merge_e3.py:235-243 | List row i carries its locality key. |
| Municipalities.PadInPlace | src/data_cleaning_and_merge_e3.py:169 | The padding into the caller's table. |
| Municipalities.CleanInPlace | src/data_cleaning_and_merge_e3.py:176-177 | A cleaned name into the caller's table. |
| Municipalities.CleanKeyInPlace | src/data_cleaning_and_merge_e3.py:208-213 | Cleaned names and key into the caller's table. |
| Municipalities.KeysInPlace | src/data_cleaning_and_merge_e3.py:183-187 | The two catalogue keys into the caller's table. |
| Municipalities.PadCodesInPlace | src/data_cleaning_and_merge_e3.py:169-171 | The three paddings on the caller's catalogue. |
| Municipalities.BuildPairs | src/data_cleaning_and_merge_e3.py:174-181 | The pairs table equals `MunicipalityPairs`. |
| Municipalities.BuildUniqueMun | src/data_cleaning_and_merge_e3.py:189-192 | The municipality table equals `UniqueMun`. |
| Municipalities.BuildDictionaryMun | src/data_cleaning_and_merge_e3.py:194-197 | The dictionary equals `DictionaryMun`. |
| Municipalities.BuildParteI | src/data_cleaning_and_merge_e3.py:206-220 | The first join equals `ParteI`. |
| Municipalities.BuildKeyedBeneficiaries | src/data_cleaning_and_merge_e3.py:208-215 | The keyed list equals `KeyedBeneficiaries`. |
| Municipalities.BuildListado | src/data_cleaning_and_merge_e3.py:206-231 | The list equals `Listado`. |
| Municipalities.LocKeyInPlace | src/data_cleaning_and_merge_e3.py:235-243 | The locality key on the caller's list equals `LocKeyed`. |
| Municipalities.DataCleaning3Mun | src/data_cleaning_and_merge_e3.py:169-243 | Step by step, the result equals `MunicipalityStage`. |
| Localities.LookupsOf | src/data_cleaning_and_merge_e3.py:274-348 | Each block looks up its state's entry and that state's saved file. |
| Localities.Blocks2019 | src/data_cleaning_and_merge_e3.py:274-366 | The 2019 blocks in the order they run: Guerrero first, then the others in list order. |
| Localities.LookupFindsEntry | src/data_cleaning_and_merge_e3.py:271-348 | Every block finds its entry after the split. |
| Localities.LookupFindsUniqueloc | src/data_cleaning_and_merge_e3.py:272-348 | Every block finds the state file `generate_uniqueloc` saved. |
| Localities.PlanOf | src/data_cleaning_and_merge_e3.py:246-866 | Prefixes 19-22 select a branch; any other has none. |
| Localities.DropIndexKeeps | src/data_cleaning_and_merge_e3.py:249 | Dropping the index keeps every other column. |
| Localities.KeyedIf | src/data_cleaning_and_merge_e3.py:250-258 | The list keyed when the plan says so. |
| Localities.PreparedFor | src/data_cleaning_and_merge_e3.py:249-258 | The index dropped, then the keys. It succeeds exactly when the index and the three names exist and hold no number. |
| Localities.PreparedForColumns | src/data_cleaning_and_merge_e3.py:249-258 | Every other column is kept. |
| Localities.PreparedForRow | src/data_cleaning_and_merge_e3.py:249-258 | Row i keeps its other cells and holds its key. |
| Localities.OnePerKey | src/data_cleaning_and_merge_e3.py:262-263 | The first row of each locality key. |
| Localities.OnePerKeyCovers | src/data_cleaning_and_merge_e3.py:262-263 | Every locality key keeps a row. |
| Localities.SplitSource | src/data_cleaning_and_merge_e3.py:262-263 | The copy to split: deduplicated on `KEY_benef_loc`, without the index, or as is; KeyError exactly when the needed label is absent. |
| Localities.EntriesFor | src/data_cleaning_and_merge_e3.py:271 | The split into the shared dictionary. Without `ENTIDAD` it raises KeyError at the first state, and with no states it changes nothing. |
| Localities.Split | src/data_cleaning_and_merge_e3.py:262-271 | The copy made, then split. |
| Localities.Piece | src/data_cleaning_and_merge_e3.py:274-282 | One block: a missing entry or table raises KeyError, in that order. |
| Localities.Annotated | src/data_cleaning_and_merge_e3.py:29-31 | The dictionary after one block: the entry the block looks up holds its annotated table, even when the join then raises. Every other entry is unchanged, and a block whose lookup or annotation raises changes nothing. |
| Localities.RunBlock | src/data_cleaning_and_merge_e3.py:274-282 | One block on the shared dictionary returns `Piece` and leaves `Annotated`. |
| Localities.RunBlocks | src/data_cleaning_and_merge_e3.py:272-348 | The blocks in order, each on the dictionary the earlier blocks left. The names stay the same and every entry stays well-formed; on success there is one well-formed match per block. |
| Localities.RunBlocksSnoc | src/data_cleaning_and_merge_e3.py:274-348 | One more block is one more step: nothing after a failure, otherwise its annotation and its match or error. |
| Localities.RunBlocksStop | src/data_cleaning_and_merge_e3.py:274-348 | After a failing block the later blocks change nothing, neither the dictionary nor the error. |
| Localities.StateMatchesLast | src/data_cleaning_and_merge_e3.py:274-348 | A successful run's matches are those of all blocks but the last, then the last block's. |
| Localities.StateMatches | src/data_cleaning_and_merge_e3.py:274-348 | On success, one well-formed match per block. |
| Localities.StateMatchesPiece | src/data_cleaning_and_merge_e3.py:274-348 | Match k is block k's on the dictionary the blocks before it left. |
| Localities.StateMatchesOk | src/data_cleaning_and_merge_e3.py:274-348 | Blocks that all succeed, each on the dictionary the earlier blocks left, give their matches. |
| Localities.StateMatchesFirstError | src/data_cleaning_and_merge_e3.py:274-348 | The first failing block decides the error. |
| Localities.AnnotatedKeepsCells | src/data_cleaning_and_merge_e3.py:29-31 | One block only adds `best_match` and `match_score` to its entry. |
| Localities.RunBlocksKeepsCells | src/data_cleaning_and_merge_e3.py:272-348 | The blocks change the dictionary only by annotating. Names, row counts and labels are kept, and so is every cell outside `best_match` and `match_score`. |
| Localities.RunBlocksKeepEntry | src/data_cleaning_and_merge_e3.py:274-348 | Blocks that do not look an entry up leave it as it was. |
| Localities.RunBlocksAnnotate | src/data_cleaning_and_merge_e3.py:274-348 | In a successful run, block k annotates its entry, and the next block finds the annotated table. |
| Localities.RunBlocksLastAnnotation | src/data_cleaning_and_merge_e3.py:274-348 | When no later block looks the entry up, the run ends with block k's annotation of it. |
| Localities.RunBlocksRecordMatch | src/data_cleaning_and_merge_e3.py:23-31 | After a successful run, each row of block k's entry records the best match of its locality key among the state's `KEY_inegi_localidad` keys, and its score. |
| Localities.LocDictionary | src/data_cleaning_and_merge_e3.py:351-374 | A failing block's error propagates; on success the table is well-formed with as many rows as the matches together. |
| Localities.BlockCarriesRow | src/data_cleaning_and_merge_e3.py:274-282 | Each row of block k's entry, as the split left it, reaches a row of the block's match. |
| Localities.StackedCarries | src/data_cleaning_and_merge_e3.py:351-374 | A carried row still carries its cells after stacking and dropping. |
| Localities.LocDictionaryKeepsBeneficiary | src/data_cleaning_and_merge_e3.py:274-374 | Every entry row reaches a dictionary row. |
| Localities.MatchKeyed | src/data_cleaning_and_merge_e3.py:392-397 | The match key from the cleaned municipality and locality. |
| Localities.PreparedMatchKeyed | src/data_cleaning_and_merge_e3.py:392-397 | Keying a prepared list never fails. |
| Localities.MatchKeyAgrees | src/data_cleaning_and_merge_e3.py:392-401 | The match key equals the locality key row by row. |
| Localities.MatchKeyedKeeps | src/data_cleaning_and_merge_e3.py:392-397 | Every other column is kept. |
| Localities.Listed | src/data_cleaning_and_merge_e3.py:541 | The list without repeated rows, when the plan says so. |
| Localities.ListedCovers | src/data_cleaning_and_merge_e3.py:541 | Every keyed row stays. |
| Localities.Unmarked | src/data_cleaning_and_merge_e3.py:388 | The BOM-marked label renamed to `KEY_benef_loc`. With both labels present, a duplicate is reported. |
| Localities.Trimmed | src/data_cleaning_and_merge_e3.py:536 | Labels stripped when the plan says so. A collision is reported. |
| Localities.Curated | src/data_cleaning_and_merge_e3.py:388-536 | On success, a well-formed table with the same rows. |
| Localities.CuratedLabels | src/data_cleaning_and_merge_e3.py:536 | The stripped labels have no surrounding whitespace. |
| Localities.LocParteI | src/data_cleaning_and_merge_e3.py:406-413 | The list left-joined to the de-duplicated curated dictionary. |
| Localities.LocParteIKeepsRows | src/data_cleaning_and_merge_e3.py:408-411 | No beneficiary row is lost. |
| Localities.LocParteIMatched | src/data_cleaning_and_merge_e3.py:406-411 | Each curated row with a beneficiary's key is joined to it. |
| Localities.LocParteIFrom | src/data_cleaning_and_merge_e3.py:408-411 | Each row is a beneficiary plus a curated row with its key, or NaN. |
| Localities.UniqueLocs | src/data_cleaning_and_merge_e3.py:415-419 | The catalogue with one row per locality key. |
| Localities.UniqueLocsKeys | src/data_cleaning_and_merge_e3.py:415-419 | No locality key repeats. |
| Localities.UniqueLocsCovers | src/data_cleaning_and_merge_e3.py:415-419 | Every locality key keeps a row. |
| Localities.UniqueLocsFrom | src/data_cleaning_and_merge_e3.py:415-419 | Kept rows are catalogue rows. |
| Localities.LocParteII | src/data_cleaning_and_merge_e3.py:420-425 | KeyError when either side lacks the locality key; a result is well-formed. |
| Localities.LocParteIIRows | src/data_cleaning_and_merge_e3.py:420-425 | One-to-one: row i with its locality's cells, or NaN. |
| Localities.UniqueKeyJoin | src/data_cleaning_and_merge_e3.py:420-425 | On any catalogue whose locality keys do not repeat, the second join keeps each list row once, with its own cells and either its locality's cells or NaN. |
| Localities.Finalized | src/data_cleaning_and_merge_e3.py:425-447 | The working columns dropped and the rest renamed. |
| Localities.Completed | src/data_cleaning_and_merge_e3.py:415-447 | On success, a well-formed table with one row per list row. |
| Localities.LocParteIIRowCount | src/data_cleaning_and_merge_e3.py:420-425 | The second join keeps the row count. |
| Localities.CompletedKeeps | src/data_cleaning_and_merge_e3.py:415-447 | An untouched label keeps its cells under its final name. |
| Localities.LocParteIGetLeft | src/data_cleaning_and_merge_e3.py:408-411 | A result row holds its list row's cells. |
| Localities.LocParteIIKeeps | src/data_cleaning_and_merge_e3.py:420-425 | A list label keeps its cell through the second join. |
| Localities.MatchedListado | src/data_cleaning_and_merge_e3.py:388-447 | On success, curation and keying succeeded; the errors come in source order: the rename, then the keying, then a missing `KEY_benef_loc`. |
| Localities.ListedCompleted | src/data_cleaning_and_merge_e3.py:406-447 | The joins and completion on the keyed list. |
| Localities.MatchedListadoSteps | src/data_cleaning_and_merge_e3.py:388-447 | A success goes through its steps. |
| Localities.TraceCell | src/data_cleaning_and_merge_e3.py:388-447 | One cell through the steps. |
| Localities.MatchedListadoKeeps | src/data_cleaning_and_merge_e3.py:388-447 | Each list row has a final row carrying its traced cells. |
| Localities.LocalityBranch | src/data_cleaning_and_merge_e3.py:246-448 | A failed preparation's error propagates. On success the shared entries are kept, as the blocks annotated them, and every table is well-formed. |
| Localities.SharedAfter | src/data_cleaning_and_merge_e3.py:249-348 | The shared dictionary after the branch. It is unchanged when preparation or the split fails. Otherwise it is the split dictionary with the blocks' annotations, which keep every row and every cell outside `best_match` and `match_score`, even when a later step fails. |
| Localities.SharedAfterRecordsMatch | src/data_cleaning_and_merge_e3.py:271-348 | In the shared dictionary after the blocks, each entry row records its best match and score. |
| Localities.LocalityBranchEntries | src/data_cleaning_and_merge_e3.py:271-348 | A successful branch returns the shared dictionary as split and annotated by the blocks. |
| Localities.LocalityBranchListado | src/data_cleaning_and_merge_e3.py:388-447 | A successful branch returns the list its final step completes. |
| Localities.LocalityBranchErrors | src/data_cleaning_and_merge_e3.py:262-374 | The split fails before any block, and a block fails before curation. |
| Localities.LocalityBranchMissingKey | src/data_cleaning_and_merge_e3.py:406-411 | A curated dictionary without `KEY_benef_loc` fails with KeyError. |
| Localities.LocalityBranchKeepsBeneficiary | src/data_cleaning_and_merge_e3.py:246-448 | No beneficiary is lost. |
| Localities.PrepareInPlace | src/data_cleaning_and_merge_e3.py:249-258 | The preparation on the caller's list. |
| Localities.CopyForSplit | src/data_cleaning_and_merge_e3.py:262-263 | Equals `SplitSource`. |
| Localities.BuildStateMatches | src/data_cleaning_and_merge_e3.py:272-348 | The loop over the blocks equals `StateMatches` and leaves the dictionary `RunBlocks` leaves. |
| Localities.BuildLocDictionary | src/data_cleaning_and_merge_e3.py:272-374 | Equals `LocDictionary` and leaves the annotated dictionary. |
| Localities.BuildLocParteI | src/data_cleaning_and_merge_e3.py:406-413 | Equals `LocParteI`. |
| Localities.BuildCompleted | src/data_cleaning_and_merge_e3.py:415-447 | Equals `Completed`. |
| Localities.PrepareAndSplit | src/data_cleaning_and_merge_e3.py:249-271 | Prepare, copy, split; a failure leaves the dictionary unchanged. |
| Localities.MatchInPlace | src/data_cleaning_and_merge_e3.py:388-447 | The matching on the caller's list. |
| Localities.CompleteInPlace | src/data_cleaning_and_merge_e3.py:406-447 | The completion on the caller's list. |
| Localities.DataCleaning3Loc | src/data_cleaning_and_merge_e3.py:246-448 | One branch on the shared dictionary equals `LocalityBranch` and leaves `SharedAfter`. |
| Localities.LocalityStage | src/data_cleaning_and_merge_e3.py:246-866 | The branch the prefix selects, if any. |
| Localities.SharedAfterStage | src/data_cleaning_and_merge_e3.py:246-866 | The dictionary after the selected branch; an unknown prefix leaves it unchanged. |
| Localities.CleaningOutcome | src/data_cleaning_and_merge_e3.py:163-866 | `data_cleaning3`: the municipality stage, then the branch. |
| Localities.SharedAfterCall | src/data_cleaning_and_merge_e3.py:163-866 | The dictionary after a call. |
| Localities.LocalityStageInPlace | src/data_cleaning_and_merge_e3.py:246-866 | The selected branch on the shared dictionary. |
| Localities.DataCleaning3 | src/data_cleaning_and_merge_e3.py:163-866 | The whole call equals `CleaningOutcome`, and the dictionary becomes `SharedAfterCall`. |

## Left out

- File I/O: CSV reading and writing, encodings and `print`. Every read is a
  table parameter or a `read` function, and every write updates a map
  from path to table.
- The `try`/`except` around file reads (e3:379-386) is left out; a read
  always gives a table.
- The `.shape` calls, which have no effect.
- `main.py`, the scrapers and the download helpers are outside the core.
- `unidecode` and the fuzzy scorer are parameters. Their internals are not
  modelled.
- Case mapping covers ASCII and Latin-1 only.
- Fuzzy.ExtractCell: raises TypeError when any candidate is not text. The
  `thefuzz` releases differ here: 0.19 scores a non-text candidate as its
  `str()`, and the rapidfuzz-backed releases skip missing candidates. Only a
  query that is not text raises in every release. No caller in the core can
  pass such a candidate, because every candidate key is built with
  `astype(str)` (e3:180-187, 242-243, 257-260, 399-401; src/inegi_uniqueloc.py:8-9;
  src/data_cleaning_and_merge.py:115-117, 121-124).
- Fuzzy.Round: rounds the exact real score. Binary floating point, where a
  score printed as some `x.5` may lie just above or below the tie, is not
  modelled.
- Normalizer.CleanTextIdempotent: states idempotence only for newline-free
  text, and only under assumptions on `unidecode`. With a newline,
  `re.sub('-.*-', '', t)` can delete more the second time, as
  `"a-b\nc-d"` shows.
- UniqueLoc.SelectMax: keeps input order rather than pandas' sorted group
  order. The `sort_values` at line 18 is therefore not modelled as affecting
  the result.
- Duplicate column labels, which pandas allows, are reported as errors.
- Merge.MergeFrames: cells compare by value, so NaN keys match NaN keys, as
  pandas does.
- The no-op `drop_duplicates` at e3:198.
- The order of the file reads at e3:164/167.
- On error, the in-place methods (for example Producers.CleanPairInPlace)
  leave the table unspecified: pandas may have applied part of the update.
- The end of `data_cleaning_and_merge.main` (lines 149-153) is not modelled.
  It reads `CVE_MUN_Unique`, which line 134 has already dropped, so that
  script raises KeyError there. The model proves the pieces up to the left
  join instead.
- Localities.RunBlocksRecordMatch: states the recorded match only for the
  last block that looks an entry up. An earlier block's columns are
  overwritten by the later one.
- Keys.ZFill: the "pads only with leading zeros" property is stated for
  unsigned text only, because Python keeps a leading sign in front.
- Merge.MergeFrames: the row order of inner joins follows the left table,
  as in current pandas.
