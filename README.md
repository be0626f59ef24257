# AppalachianData: the record normaliser, modelled in Dafny

AppalachianData collects the register of hikers who finished the
Appalachian Trail. Each record has an `id` and an `info` text of the form

    Last, First 'Trail Name'; State, Country, HIKETYPE

`process_to_csv.py` turns each record into one pipe-separated line. The
line holds the id and six fields: last name, first name, trail name,
state, country and hike type. This project models that normaliser.

- **`process_info`** splits the text at `;`. It matches the first part
  against `name_pattern`. Only when there are exactly two parts does it
  match the second part against `origin_pattern`. Every captured group is
  stripped, and an empty capture becomes `None`. The placeholder `'-`
  is dropped only from the trail name and the state.
- **`ProcessedInfo.to_str`** renders the six fields joined by `|`. A
  missing field is rendered as the empty text.
- **`single_read_and_write`** writes `id|fields` and a newline for every
  record of one file, in order. **`read_and_write_to_output_file`** does
  this for every file, one after the other.

## Structure

- `wrappers.dfy` (`Wrappers`): `Option`, which stands for Python's `None`.
- `text.dfy` (`Text`): the string operations the normaliser relies on.
  - The regular-expression character classes `\s`, `\w` and `[^...]`.
  - Greedy runs of a class (`RunEnd`).
  - `str.split` (`Split`), with its inverse `Join`.
  - `str.strip` (`Strip`), over the set of characters for which Python's
    `str.isspace()` holds.
- `patterns.dfy` (`Patterns`): the two regular expressions, written as
  deterministic scanners.
  - `MatchName` stands for `name_pattern.match`.
  - `MatchOrigin` stands for `origin_pattern.match`.
  - Each scanner is proved equal to a declarative description of what its
    pattern accepts and captures (`NameShape`, `OriginLayout`), in both
    directions.
  - The scan gives the same groups as the backtracking regex engine:
    - In `name_pattern`, `[^,]+` runs to the first comma, and no shorter
      last name is followed by a comma.
    - `[^;']+` first runs to the first `;` or `'`. When a trail name
      follows, ` '` cannot start there, so the engine gives back one
      character: the first name ends on the space before that `'`. Giving
      back more cannot help, since an earlier ` '` would need a `'` inside
      the first name. `MatchTrailName` takes the same step.
    - The lazy `.+?` of the trail name can only end at the one closing
      quote that `$` accepts.
    - In `origin_pattern`, `[^,]*` runs to the first comma, and no shorter
      state is followed by a comma. Everything after that comma (`\s*`,
      `[^,]*`, `,?`, `\s*`, `(\w+)?`) can match the empty text, and the
      pattern has no `$`. So the engine's first attempt, with every piece
      greedy, succeeds, and that attempt is the match.
- `process_to_csv.dfy` (`ProcessToCsv`):
  - the `ProcessedInfo` record, `process_info` and `to_str`;
  - the output text of a sequence of records (`Rows`);
  - an `OutputFile` class, whose `contents` field stands for the open file;
  - the two loops as methods that append to it, each proved to write
    exactly `Rows` of its input.
- `worked_examples.dfy` (`WorkedExamples`):
  - the six cases of `test.py`, each proved for `ProcessInfo`;
  - a placeholder case and a name-mismatch case.

## Model

| member | source | states |
|---|---|---|
| `Text.IndexOf` | process_to_csv.py:57 | the result is the position of the first occurrence of the separator, or the length when there is none |
| `Text.Split` | process_to_csv.py:57 | `str.split` gives at least one part, and no part contains the separator |
| `Text.SplitLength` | process_to_csv.py:57 | the number of parts is one more than the number of separators in the text |
| `Text.JoinSplit` | process_to_csv.py:57 | joining the parts with the separator gives back the original text |
| `Text.SplitJoin` | process_to_csv.py:57 | splitting a join of parts that are free of the separator gives back those parts |
| `Text.SplitNotIn` | process_to_csv.py:57 | a character absent from the text is absent from every part |
| `Text.Join` | process_to_csv.py:43 | `"|".join` starts with the first part, and the separator follows it when there are more parts |
| `Text.JoinCount` | process_to_csv.py:43 | joining parts free of the separator puts exactly one separator between each two parts |
| `Text.JoinNotIn` | process_to_csv.py:43 | a character that is neither the separator nor in any part is absent from the join |
| `Text.RunEnd` | process_to_csv.py:47 | a greedy run of a character class ends at the first character outside the class |
| `Text.StripStart` | process_to_csv.py:64 | what `lstrip` leaves does not start with whitespace and is no longer than its input |
| `Text.StripStartFacts` | process_to_csv.py:64 | stripping the front removes exactly a whitespace prefix, and what is left does not start with whitespace |
| `Text.StripEnd` | process_to_csv.py:64 | what `rstrip` leaves does not end with whitespace and is no longer than its input |
| `Text.StripEndFacts` | process_to_csv.py:64 | stripping the back removes exactly a whitespace suffix, and what is left does not end with whitespace |
| `Text.Strip` | process_to_csv.py:79 | the result of `str.strip()` neither starts nor ends with whitespace and is no longer than its input |
| `Text.StripWithin` | process_to_csv.py:64 | stripping never introduces a character |
| `Text.StripSurrounded` | process_to_csv.py:79 | stripping text that has only whitespace around a stripped core gives that core |
| `Text.StripAllSpace` | process_to_csv.py:79 | an all-whitespace capture strips to the empty text |
| `Patterns.ContentEnd` | process_to_csv.py:47 | `$` matches at the end of the text or just before a final newline |
| `Patterns.MatchName` | process_to_csv.py:46-48 | on a match, the last name is all of the text before the first comma, non-empty, and that comma is followed by a space; `MatchNameIff` states exactly what it computes |
| `Patterns.MatchNameSound` | process_to_csv.py:46-48 | every match of the name scanner has the shape `name_pattern` accepts |
| `Patterns.NameShapeMatches` | process_to_csv.py:46-48 | every text and groups of that shape are found by the scanner |
| `Patterns.MatchNameIff` | process_to_csv.py:46-48 | the name scanner gives groups `g` if and only if the text has the `name_pattern` shape with groups `g` |
| `Patterns.MatchNameValid` | process_to_csv.py:47 | the last name is non-empty and comma-free; the first name is non-empty and has no `;` or `'`; the trail name is non-empty |
| `Patterns.MatchNameWithin` | process_to_csv.py:47 | every captured name group is cut out of the text |
| `Patterns.MatchOrigin` | process_to_csv.py:49-51 | `origin_pattern.match` succeeds exactly when the text has a comma, and the state is the text before the first comma; `MatchOriginIff` states exactly what it computes |
| `Patterns.MatchOriginFields` | process_to_csv.py:49-51 | `origin_pattern` matches if and only if the text has a comma; the state is the text before the first comma; the country has no comma and no leading whitespace; the hike type is a non-empty run of word characters |
| `Patterns.MatchOriginLayout` | process_to_csv.py:50 | a match cuts the text into state, comma, whitespace, country, optional comma, whitespace, hike type and an unread rest |
| `Patterns.OriginLayoutMatches` | process_to_csv.py:50 | every text laid out that way is matched with exactly those groups |
| `Patterns.MatchOriginIff` | process_to_csv.py:49-51 | the origin scanner gives groups `g` if and only if some layout of the text has groups `g` |
| `Patterns.MatchOriginWithin` | process_to_csv.py:50 | every captured origin group is cut out of the text |
| `ProcessToCsv.Clean` | process_to_csv.py:64 | `v.strip() if v else None` is `None` exactly for a missing or empty capture; otherwise the result is stripped |
| `ProcessToCsv.DropPlaceholder` | process_to_csv.py:67 | the placeholder `'-` becomes `None`, and every other value is kept |
| `ProcessToCsv.PlaceholderDropped` | process_to_csv.py:62-84 | a trail name or a state whose captured group strips to `'-` is recorded as `None` |
| `ProcessToCsv.WithName` | process_to_csv.py:62-69 | a name match sets only the three name fields, a failed match changes nothing, and the trail name is never `'-` |
| `ProcessToCsv.WithOrigin` | process_to_csv.py:75-84 | an origin match sets only the three origin fields, a failed match changes nothing, and the state is never `'-` |
| `ProcessToCsv.ProcessInfo` | process_to_csv.py:53-86 | neither the trail name nor the state of a result is ever the placeholder |
| `ProcessToCsv.OriginNeedsOneSemicolon` | process_to_csv.py:71-73 | unless the text has exactly one `;`, the state, country and hike type are all `None` |
| `ProcessToCsv.ProcessInfoEmpty` | process_to_csv.py:53-86 | the empty text gives a record whose six fields are all `None` |
| `ProcessToCsv.ProcessInfoNameOnly` | process_to_csv.py:57-73 | a text without `;` is read only for its name fields |
| `ProcessToCsv.ProcessInfoParts` | process_to_csv.py:57-84 | a text with one `;` is the name match of its first part, followed by the origin match of its second part |
| `ProcessToCsv.MatchedParts` | process_to_csv.py:53-86 | for any name part and origin part of the shapes their patterns accept, the record is exactly their groups, stripped (an empty capture as `None`), with `'-` dropped from the trail name and the state |
| `ProcessToCsv.NameFieldsIgnoreRest` | process_to_csv.py:59-69 | the name fields depend only on the text before the first `;` |
| `ProcessToCsv.OriginFieldsIgnoreName` | process_to_csv.py:62-84 | the origin fields do not depend on the name part; a name part that does not match leaves the name fields `None` while the origin is still read |
| `ProcessToCsv.NameFieldsMatch` | process_to_csv.py:62-69 | the last name is set if and only if the first part matches `name_pattern`; the first name is set exactly when the last name is; a trail name needs a match; the set names are stripped and free of their excluded characters |
| `ProcessToCsv.NamedFields` | process_to_csv.py:62-69 | the same facts, stated for any outcome of the name match |
| `ProcessToCsv.OriginFieldsMatch` | process_to_csv.py:71-84 | an origin field is set only with exactly two parts and a comma in the second; then the state is the stripped text before that comma, with `'-` dropped; the country has no comma; the hike type is word characters |
| `ProcessToCsv.OriginFields` | process_to_csv.py:75-84 | the same facts, stated for the origin part alone |
| `ProcessToCsv.CleanWord` | process_to_csv.py:82 | a captured hike type is already stripped, so it is kept as captured |
| `ProcessToCsv.FieldsWithin` | process_to_csv.py:53-86 | no field contains a character the record text lacks |
| `ProcessToCsv.ProcessedWithin` | process_to_csv.py:53-86 | the same fact, stated field by field |
| `ProcessToCsv.Render` | process_to_csv.py:36-41 | `x if x else ""` gives the empty text exactly for a missing or empty value, and the value itself otherwise |
| `ProcessToCsv.Fields` | process_to_csv.py:35-43 | a record renders to exactly six fields |
| `ProcessToCsv.ToStr` | process_to_csv.py:35-43 | `to_str` is the six rendered fields in order, with `|` between them |
| `ProcessToCsv.ToStrSeparators` | process_to_csv.py:43 | `to_str` has exactly five `|` of its own, plus any inside the fields |
| `ProcessToCsv.ToStrSplit` | process_to_csv.py:43 | when no field contains `|`, splitting `to_str` at `|` gives back the six fields |
| `ProcessToCsv.ProcessedColumns` | process_to_csv.py:43 | for a record text without `|`, the line has exactly the six columns of its processed fields |
| `ProcessToCsv.RowText` | process_to_csv.py:113 | the line `id|to_str()` of a record without newlines has no newline |
| `ProcessToCsv.RowTexts` | process_to_csv.py:104-114 | there is one line per record, and line `k` is the line of record `k` |
| `ProcessToCsv.Lines` | process_to_csv.py:113 | lines each followed by a newline give the empty text for no lines, and otherwise text that ends in a newline |
| `ProcessToCsv.Rows` | process_to_csv.py:104-114 | the output for a file is empty exactly when it has no records, and otherwise ends with a newline |
| `ProcessToCsv.RowsAppend` | process_to_csv.py:104-114 | the output for two runs of records is the output of the first, followed by the output of the second |
| `ProcessToCsv.RowsSnoc` | process_to_csv.py:112-114 | one more record adds its line and a newline at the end |
| `ProcessToCsv.RowsLines` | process_to_csv.py:104-114 | for records without newlines, splitting the output at newlines gives the records' lines in order, then the empty text after the last newline |
| `ProcessToCsv.RowColumns` | process_to_csv.py:113 | for a record without `|`, the line splits into the id followed by the six fields |
| `ProcessToCsv.OutputFile.constructor` | process_to_csv.py:131 | a newly opened output file is empty |
| `ProcessToCsv.OutputFile.Write` | process_to_csv.py:112-114 | writing appends the text to what the file holds |
| `ProcessToCsv.SingleReadAndWrite` | process_to_csv.py:104-114 | the loop appends exactly the lines of the file's records, in order |
| `ProcessToCsv.ConcatSnoc` | process_to_csv.py:122-126 | the records of one more file come after those already read |
| `ProcessToCsv.RowsConcatSnoc` | process_to_csv.py:122-126 | the output for one more file comes after the output already written |
| `ProcessToCsv.ReadAndWriteToOutputFile` | process_to_csv.py:120-126 | the loop over files appends exactly the lines of all their records, file after file |
| `WorkedExamples.Example` | process_to_csv.py:53-86 | the special case of `MatchedParts` used by the examples: name groups and a country that need no stripping, a non-empty country, and a state that is a non-empty stripped text after leading whitespace give exactly those values, with `'-` dropped from the trail name and the state |
| `WorkedExamples.MismatchExample` | process_to_csv.py:62-84 | a name part without a comma leaves the name fields `None`, and the origin part is still read |
| `WorkedExamples.LanierExample` | test.py:8-18 | a trailing comma with no hike type gives `None` for the hike type |
| `WorkedExamples.MillerExample` | test.py:19-29 | the trail name `'-` and the state `'-` become `None`, while the hike type `-` does not match `\w+` |
| `WorkedExamples.BradleyExample` | test.py:30-40 | a trail name with non-ASCII punctuation is kept, and `SOBO` is the hike type |
| `WorkedExamples.ShattuckExample` | test.py:41-51 | a last name with an initial, and the placeholder trail name dropped |
| `WorkedExamples.McDonaldExample` | test.py:52-62 | a trail name that ends in an apostrophe keeps it, and the country may contain a space |
| `WorkedExamples.OKeefeExample` | test.py:63-73 | apostrophes inside the last name and the trail name are kept |
| `WorkedExamples.PlaceholderExample` | process_to_csv.py:80 | `'-` is dropped from the state but kept as a last name and as a country |
| `WorkedExamples.NameMismatchExample` | process_to_csv.py:62-84 | `Smith; GA, USA, NOBO` has no name fields but has all three origin fields |

## Left out

- Reading the input: globbing the directory for `*.ndjson` files, opening
  and reading them, and `json.loads`. The loops take the records as values
  (`Entry` holds the id as the text it renders to, and `info`), and a
  directory as a sequence of such files, in the order the glob yields them.
- The year and page number parsed from the file name (process_to_csv.py:94-98).
  They are logged only and do not affect the output.
- Logging (`logger.info`, `logger.warning`): it has no effect on the output.
- `main` (process_to_csv.py:130-136) and the file system behind the output
  file: the `OutputFile` class stands for `output.csv` opened for writing,
  which starts empty.
- pydantic validation of `ProcessedInfo`: every field is a `str` or `None`
  by construction here.
- The regular-expression engine itself: the two patterns are modelled by
  scanners that are proved equivalent to the shapes the patterns accept.
- Text.IsWordChar: `\w` is modelled as ASCII letters, digits and `_`. The
  Python engine also accepts non-ASCII letters and digits in a `str`
  pattern. Such a hike type is cut short in this model.
- `one_year.py`, which fetches the register pages over the network, is not
  part of this model.
