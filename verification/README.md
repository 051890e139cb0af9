# Data anonymizer — a Dafny model

The application loads a spreadsheet into a data frame and anonymises it. The user
lists numeric columns, string columns and a threshold k. Each numeric column gets
Laplace noise scaled by its value range and a per-column epsilon. Rows are grouped
by the string columns. A row whose group has fewer than k members is "risky". Each
string column then has its risky rows rewritten by one of three methods:
suppression (`*`), generalisation (keep a prefix and mask the rest) or synthetic
replacement (a fake value chosen by the column's name). A second button builds a
wholly synthetic table with the loaded table's column names.

The model has these modules:

- `Tables`: the data frame as ordered column names plus a map from name to a numeric
  or text column; `WellFormed` says names are unique and every column has one value
  per row. Also the shared `Option`, `Result` and `Error` types.
- `Strings`: lower-casing, substring search, `strip`, `split` and `join`.
- `ColumnList`: parsing the comma-separated column entries.
- `Masking`: `generalize_value`.
- `Domains`: the name rule that picks a fake-value generator (`synthetic_value` and
  the column rule of `generate_synthetic_dataset`).
- `Synthetic`: `generate_synthetic_dataset`, as an imperative loop that fills a map.
- `Noise`: `apply_differential_privacy`.
- `Risk`: group sizes and the risky-row flags.
- `Redaction`: the three rewrite methods.
- `Anonymizer`: the whole run, as a pure function `Anonymize` and as the class
  `AnonymizerApp`, whose `df` field the methods update step by step.
- `AnonymizerExample`: one worked run. Four rows have city "X" and one has "Y", with
  k = 2. Only the "Y" row is suppressed.

Random sources are parameters. These are the Laplace unit draws (`Config.laplace`),
the Faker generators (`faker: (Domain, nat) -> string`) and the raw draws behind
them and behind `randint` (`draw`). The Tk dialogs are parameters too: a map of
confirmed epsilons and a map of confirmed methods. A column missing from a map is
one whose dialog was closed without pressing OK.

In these places the model follows what the code does:

- The code does not check epsilon before dividing. numpy refuses a Laplace scale
  whose sign is negative. For a non-empty column that is every negative epsilon,
  a constant column included, since zero divided by a negative number is -0.0. An
  empty numeric column has a NaN range, draws no noise and comes back empty,
  except with epsilon 0: pandas gives that NaN as a plain Python float, and
  dividing it by zero raises.
- k is not checked beyond being an integer. A k of 0 or less is accepted and flags
  no row.
- The columns are noised one by one into the frame itself. A run that fails later,
  at a missing epsilon or at grouping, leaves the columns noised before the
  failure noised.
- Grouping by a string column listed twice fails, because `reset_index` cannot
  insert the same key column twice. The model reports `DuplicateGroupColumn`.
- The fallback differs between the two generators. `synthetic_value` falls back to a
  word. `generate_synthetic_dataset` falls back to an integer in [10, 100). Both
  rules are modelled (`ValueDomain`, `ColumnDomain`).

## Model

| member | source | states |
|---|---|---|
| Strings.ContainsIff | assign2.py:21-25 | the `in` test on the lower-cased name holds exactly when the word occurs at some position |
| Strings.Lower | assign2.py:21-25 | the result has the input's length, and each character is lower-cased on its own |
| Strings.Contains | assign2.py:21-25 | a match needs the word to fit in the name; the empty word is always found |
| Strings.Strip | assign2.py:101-102 | the result is the input with exactly its leading and trailing whitespace removed: it starts after the leading whitespace and, when not empty, ends where the trailing whitespace begins; it is empty exactly when the input is all whitespace |
| Strings.Split | assign2.py:101-102 | splitting gives at least one piece and no piece contains the separator |
| Strings.JoinSplit | assign2.py:101-102 | joining the pieces of a split with the separator gives back the input |
| Strings.SplitJoin | assign2.py:101-102 | splitting separator-free pieces joined by the separator gives back the pieces |
| Strings.SplitConcat | assign2.py:101-102 | splitting at one separator gives the pieces of the part before it followed by the pieces of the part after it |
| ColumnList.StripNonBlank | assign2.py:101-102 | the comprehension keeps at most one name per piece; every name is non-empty and stripped; names are comma-free when the pieces are |
| ColumnList.ParseColumnList | assign2.py:101-102 | every parsed name is non-empty, contains no comma and has no surrounding whitespace |
| ColumnList.StripNonBlankAppend | assign2.py:101-102 | the comprehension over two runs of pieces is the comprehension over the first followed by that over the second |
| ColumnList.ParseOnePiece | assign2.py:101-102 | an entry without commas lists its stripped self, or nothing when it is blank |
| ColumnList.ParseConcat | assign2.py:101-102 | an entry cut at a comma lists the names of the part before it, then those of the part after it |
| ColumnList.TrailingComma | assign2.py:101-102 | a trailing comma after a name adds no column |
| ColumnList.BlankPieceBetweenNames | assign2.py:101-102 | a blank piece between two names adds no column |
| ColumnList.StrippedInOrder | assign2.py:101-102 | when no piece is blank, the result has one name per piece, in order, each the stripped piece |
| ColumnList.ParseJoined | assign2.py:101-102 | parsing comma-free, non-blank pieces joined by commas gives each piece stripped, in order |
| ColumnList.ParseJoinedNames | assign2.py:101-102 | round trip: parsing clean names joined by commas gives back exactly those names |
| ColumnList.BlankEntry | assign2.py:101-102 | an entry of only commas and whitespace, or an empty one, lists no columns |
| Masking.Stars | assign2.py:18 | `'*' * n` has n characters, none when n is not positive, all of them `*` |
| Masking.Generalize | assign2.py:16-18 | the result has the value's length; position i is the value's character when i < level and `*` otherwise |
| Masking.GeneralizeShortValue | assign2.py:16-18 | a level at or above the value's length leaves the value unchanged |
| Masking.GeneralizeIdempotent | assign2.py:16-18 | generalising twice at one level equals generalising once |
| Masking.GeneralizeLevelZero | assign2.py:16-18 | level 0 masks every character |
| Masking.GeneralizeExamples | assign2.py:16-18 | "secret" at level 2 is "se****"; "hi" at level 10 is "hi" |
| Domains.ValueDomain | assign2.py:20-28 | the rule of `synthetic_value` never picks integers |
| Domains.ColumnDomain | assign2.py:32-40 | the rule of `generate_synthetic_dataset` never picks a word |
| Domains.SyntheticValue | assign2.py:20-28 | the value is one that the generator of the name's domain yields for some draw |
| Domains.ValueDomainRule | assign2.py:20-28 | name generator iff the lower-cased name contains "name"; city iff "city" but not "name"; e-mail iff "email" but neither earlier word; word otherwise |
| Domains.DomainRulesAgree | assign2.py:20-40 | the two rules pick the same generator except in the fallback, where one picks a word and the other an integer |
| Domains.DomainIgnoresCase | assign2.py:21-25 | lower-casing the column name first changes neither rule's choice |
| Domains.FirstMatchWins | assign2.py:21-24 | "CityName" gets person names: the "name" test comes first |
| Domains.EmailColumn | assign2.py:25-26 | "Email_Addr" gets e-mail addresses under both rules |
| Domains.FallbackColumn | assign2.py:27-28 | "Salary" gets a word from `synthetic_value` and integers from `generate_synthetic_dataset` |
| Synthetic.RandInt | assign2.py:40 | `randint(10, 100)` lies in [10, 100) |
| Synthetic.GenerateColumn | assign2.py:33-40 | one column has exactly `rows` values, all in the domain its name selects |
| Synthetic.FirstIndex | assign2.py:32-40 | the index holds the name, and no earlier index does |
| Synthetic.FirstOccurrences | assign2.py:31-41 | the dict's key order has no duplicates and exactly the given names; a list without repeats is kept as it is |
| Synthetic.FirstOccurrencesInOrder | assign2.py:31-41 | the keys are ordered by where each name first occurs |
| Synthetic.GenerateSyntheticDataset | assign2.py:30-41 | the table is well formed; its columns are the names in first-occurrence order; it has `rows` rows (none for no columns or a negative count); every column lies in its domain; a repeated name holds the column generated at its last occurrence |
| Synthetic.FillStep | assign2.py:32-40 | one loop step keeps the key order, the key set, the column domains and the last-occurrence values |
| Synthetic.ZeroRows | assign2.py:30-41 | with zero rows every listed column is empty |
| Noise.Max | assign2.py:12 | `np.max` is a value of the column and no value exceeds it |
| Noise.Min | assign2.py:12 | `np.min` is a value of the column and no value is below it |
| Noise.Sensitivity | assign2.py:12 | the range is non-negative, and zero exactly when all values are equal |
| Noise.ApplyDifferentialPrivacy | assign2.py:11-14 | a zero epsilon always fails; a negative one fails exactly for a non-empty column, with its own error; success iff epsilon is positive or the column is empty with a negative epsilon; on success the column keeps its length and value i gains range / epsilon times unit draw i |
| Noise.ConstantColumnUnchanged | assign2.py:12-14 | a non-empty column whose values are all equal comes back unchanged for a positive epsilon and is refused for any other |
| Noise.NoiseShrinksAsEpsilonGrows | assign2.py:13 | for the same unit draws, a larger positive epsilon moves no value further from the original |
| Risk.Count | assign2.py:131 | a group size is at most the number of rows |
| Risk.CountIsMultiplicity | assign2.py:131 | a group size is the key's multiplicity in the multiset of row keys |
| Risk.CountIsGroupSize | assign2.py:131 | a group size is the number of row indices with that key |
| Risk.CountOfPresentKey | assign2.py:131-132 | every row is in a group of size at least 1 |
| Risk.GroupSizes | assign2.py:131-132 | after the merge, each row's `count` is the size of its own group |
| Risk.RiskyRows | assign2.py:133 | row i is flagged iff its group has fewer than k rows |
| Risk.SameKeySameRisk | assign2.py:131-133 | rows with equal keys get equal flags |
| Risk.NoRiskBelowTwo | assign2.py:131-133 | with k at most 1 no row is flagged |
| Risk.RiskIgnoresRowOrder | assign2.py:131-133 | reordering the rows does not change the flag of a row with a given key |
| Risk.GroupSizeExample | assign2.py:131-133 | keys X, X, X, Y have sizes 3, 3, 3, 1; with k = 2 only the Y row is flagged |
| Risk.CheckGroupColumns | assign2.py:131 | no error iff every grouping column exists and holds text; an error names an offending column |
| Risk.RowKeys | assign2.py:131 | a row's key is its tuple of values in the grouping columns, in order |
| Risk.ClassifyRisk | assign2.py:131-133 | fails with no grouping columns, with a missing or non-text column, or with a column listed twice, and only then; otherwise flag i holds iff fewer than k row indices share row i's key |
| Redaction.Replacement | assign2.py:149-164 | suppression gives `*`; generalisation keeps the value's length, its characters before the level and masks the rest; synthetic replacement gives the row's own fake value |
| Redaction.Redact | assign2.py:149-164 | the column keeps its length; unflagged rows keep their value; flagged rows get the strategy's replacement |
| Redaction.NoRiskNoChange | assign2.py:149-164 | with no flagged rows every method leaves the column unchanged |
| Redaction.SuppressionIdempotent | assign2.py:149 | suppressing twice with the same flags equals suppressing once |
| Redaction.GeneralizationShape | assign2.py:157 | every row keeps its length; a flagged row keeps its prefix up to the level and is `*` after it |
| Redaction.GeneralizationIdempotent | assign2.py:157 | generalising twice with the same flags and level equals generalising once |
| Redaction.GeneralizationOfShortValues | assign2.py:157 | when no value is longer than the level, generalisation changes nothing |
| Redaction.SyntheticReplacementUsesFakes | assign2.py:163-164 | a flagged row takes the fake value of its own position; an unflagged row keeps its value |
| Anonymizer.NoiseColumn | assign2.py:126-128 | an absent column is skipped; a present one without an epsilon fails, as does a text one; success keeps the shape and every other column, and the column is the old one noised once with its epsilon |
| Anonymizer.NoiseColumns | assign2.py:126-128 | the table keeps its columns and rows; text columns and unlisted columns are unchanged; numeric columns stay numeric; when the loop completes over distinct names, each listed column is noised once from its old values |
| Anonymizer.FakeValues | assign2.py:163 | one fake value per row, each what the generator of the column name's domain yields for that row's draw |
| Anonymizer.StrategyFor | assign2.py:147-164 | each dialog choice selects its own method: suppression, generalisation at the entered level, or synthetic replacement with one fake per row from the name's domain |
| Anonymizer.Redacted | assign2.py:136-164 | unflagged rows keep their values; without a confirmed method nothing changes; with one, each flagged row holds that method's replacement |
| Anonymizer.RedactColumn | assign2.py:136-165 | only the named column changes, and it becomes `Redacted` of its old values |
| Anonymizer.RedactAll | assign2.py:136-169 | unlisted columns are unchanged; every listed column stays text and keeps its unflagged rows; over distinct names, each listed column becomes `Redacted` of its old values |
| Anonymizer.Anonymize | assign2.py:96-171 | a run keeps the table well formed, with the same column names and row count; an invalid k fails at once and changes nothing; a column in neither list, and a text column not listed as a string column, is unchanged |
| Anonymizer.NoiseKeepsKeys | assign2.py:126-131 | noising does not change any row's grouping key |
| Anonymizer.RunRedactsOnlyRiskyRows | assign2.py:126-164 | after a completed run the grouping columns exist and hold text, and every text column differs from the input only in rows whose group in the input is smaller than k |
| Anonymizer.RunNoisesListedColumns | assign2.py:126-128 | after a completed run, each numeric column named once in the list is its old values noised once with its epsilon |
| Anonymizer.RunRedactsListedColumns | assign2.py:131-164 | after a completed run the string columns are distinct, and each is `Redacted` of its old values with the flags of the table as it was |
| Anonymizer.RunRewritesRiskyRows | assign2.py:147-164 | after a completed run, a flagged row of a listed string column holds `*` under suppression, the value generalised at the entered level under generalisation, and the row's generated value under synthetic replacement |
| Anonymizer.RunWithSmallKKeepsText | assign2.py:131-164 | a completed run with k at most 1 leaves every text column unchanged |
| Anonymizer.FailedRunRedactsNothing | assign2.py:96-133 | a run that stops with an error leaves every text column and every unlisted column unchanged |
| Tables.WithColumn | assign2.py:128 | assigning an existing column keeps the table well formed with the same names and rows, and changes only that column |
| Anonymizer.AnonymizerApp.constructor | assign2.py:49-50 | the application starts with no data frame |
| Anonymizer.AnonymizerApp.UploadFile | assign2.py:89-92 | after loading, the data frame is the loaded table |
| Anonymizer.AnonymizerApp.ApplyNoise | assign2.py:126-128 | the loop leaves `df` and the error equal to `NoiseColumns` of the old frame |
| Anonymizer.AnonymizerApp.FindRiskyRows | assign2.py:131-133 | the flags equal `ClassifyRisk`; on success the `count` column holds each row's group size |
| Anonymizer.AnonymizerApp.RedactStringColumns | assign2.py:136-169 | the loop leaves `df` equal to `RedactAll` of the old frame |
| Anonymizer.AnonymizerApp.DropCount | assign2.py:171 | the `count` column is gone |
| Anonymizer.AnonymizerApp.AnonymizeData | assign2.py:96-171 | without a frame the run fails with "no file"; otherwise the new frame and the outcome are those of `Anonymize` on the old frame, and no `count` column remains |
| AnonymizerExample.LoneCityIsSuppressed | assign2.py:131-149 | with k = 2 and suppression on "City", only the single "Y" row becomes `*` |

## Left out

- The Tk window, its widgets, the message boxes and the file dialogs are not modelled. The dialog answers are given in `Config`.
- Reading and writing Excel files (lines 92, 173, 183) is not modelled. `UploadFile` takes the table that was read.
- The `generate_synthetic` button handler (lines 176-184) is not modelled on its own. It only calls `generate_synthetic_dataset` with 50 rows and writes the result.
- Faker and `np.random` are not modelled. Their outputs are function parameters, so the model proves nothing about their distributions.
- Floating point is modelled as exact reals: rounding, infinities and NaN are not captured.
- Noise.ApplyDifferentialPrivacy: epsilon 0 is always reported as an error. For an empty column the source raises too. For any other column it divides a numpy scalar by zero, which gives a NaN or infinite scale that numpy accepts, and the column fills with non-finite values that exact reals cannot represent.
- Strings.Lower: only ASCII letters are lower-cased. Python's full Unicode case mapping is not modelled.
- Values are not coerced with `str()`. A grouping or redaction column that holds numbers is reported as `NotText`, where pandas would group or stringify it. Noise on a text column is reported as `NotNumeric`, where numpy would raise.
- Missing values (NaN) in grouping columns, which pandas drops from groups, are not modelled.
- A data column named `count`, which would clash with the merged helper column, is not modelled. The helper is the separate field `counts`.
- Parsing the epsilon and level entries is not modelled. Epsilons come as reals, and the level is a `nat`, so a negative level is not modelled. The k entry is `Option<int>`, with `None` for a value `int()` rejects.
- Anonymizer.Config: the Laplace draws and the fake-value draws are keyed by column name and row. A numeric column listed twice is noised twice with the same unit draws, where numpy would draw fresh noise the second time.
- Anonymizer.NoiseColumns: for a numeric column listed twice, the model states only that the column stays numeric; the exact values are stated for columns listed once.
- Risk.RiskIgnoresRowOrder: order independence is stated for a row with a given key under any reordering with the same multiset of keys. It is not stated as a permutation of row indices.
