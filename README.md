# MDF agreement extractor — verified model of the extraction core

The extractor reads a partner marketing-fund (MDF) agreement PDF. From it, it recovers:

- three header fields: partner, PO number and plan period;
- one line-item record per planned activity, holding a description and a normalised amount.

This project models the pure extraction logic of `app.py` in Dafny. The model works on the page text and on the table grids that the PDF engines would return. The modules follow the source's structure:

- `Text` (`text.dfy`) models `normalize_header` and `truncate`. It also holds the whitespace collapsing and stripping that they and `_first_match` use: `re.sub(r"\s+", " ", …)` and `str.strip()`.
- `Amount` (`amount.dfy`) models `clean_amount`. Each rewriting step is a function: strip, NBSP to blank, `\bUSD\b` removal, dropping `$` and `,`, unwrapping parentheses, the leftmost `-?\d+(?:\.\d+)?` search, and the `^-?\d+\.0+$` collapse.
- `HeaderFields` (`header_fields.dfy`) models `_first_match` over abstract matchers. The eleven `HEADER_PATTERNS` regexes are written as scanners: greedy `\s*`, `\b`, case-insensitive words, an optional separator, and `[^\n\r]+` or `[0-9\-]+` groups. It also models the map that `extract_headers` returns for a text.
- `Columns` (`columns.dfy`) models `_pick_column_indices`. Each of its loops is a method proved equal to a specification function:
  - the header-row search, with its `break` and its 20-row depth;
  - the synonym loop over header cells and roles;
  - the per-column currency scoring;
  - the head of the descending sort of `(score, j)` pairs.
  Lemmas then state what those functions mean.
- `Records` (`records.dfy`) models the table loop and row loop of `extract_table_records` as methods. They are proved equal to a left fold `Run` over the tables, and lemmas cover the skip, reuse and clear rules for `last_col_map` and the row filters.
- `Extraction` (`extraction.dfy`) models `extract`, the composition of the header map and the records.

Three behaviours of the code are easy to misread; the model follows the code in each:

- PO number. `PO Number: PO-9001` does not give the PO number `"PO-9001"`. The code's groups are `[0-9\-]+`, so the first three PO patterns fail on that text. The fourth, `\bPO\s*[:\-]\s*([0-9\-]+)`, matches at the second "PO": it takes the hyphen as its separator and captures `"9001"`. Because of the key mismatch under "## Findings", `extract` returns `""` anyway.
- Ties in the amount fallback. Equal scores do not go to the first-seen column. `cand_scores.sort(reverse=True)` puts the highest column index first among equal scores, and `BestColumn` models that.
- Setting `last_col_map`. A table's map is not carried to the next table when roles are absent. In the code, the line that sets it is reached only when the activity and description columns are both known; only the amount may be `None`. `Consistent` states this invariant.

## Model

| member | source | states |
|---|---|---|
| `Text.SkipSpace` | app.py:72 | the index of the first non-whitespace character at or after `i`; everything skipped is whitespace |
| `Text.SpaceBefore` | app.py:72 | the end of `s[lo..hi]` once trailing whitespace is dropped |
| `Text.Strip` | app.py:78 | `str.strip()`: the result has no outer whitespace, is no longer than the input and leaves an already-stripped string unchanged |
| `Text.StripShape` | app.py:78 | the stripped string is a slice of the input with only whitespace before and after it |
| `Text.StripAllSpace` | app.py:81 | a blank string strips to "" |
| `Text.StripSplit` | app.py:78 | a string is its leading whitespace, its stripped middle and its trailing whitespace |
| `Text.CollapseSpace` | app.py:43 | `re.sub(r"\s+", " ", s)`: the result has single blanks only; it is empty exactly when the input is; its first character is the input's first, or a blank for whitespace; a single-spaced input is unchanged; `CollapseWords` proves that it keeps the words, so no two words merge |
| `Text.SingleSpacedCons` | app.py:43 | prepending a non-space character, or a blank before a non-space character, to a single-spaced string keeps it single-spaced |
| `Text.SqueezeAppend` | app.py:43 | the non-whitespace characters of a concatenation are those of the parts, in order |
| `Text.SqueezeAllSpace` | app.py:43 | a blank string has no non-whitespace characters |
| `Text.SqueezeStrip` | app.py:43 | stripping keeps every non-whitespace character, in order |
| `Text.SqueezeSkipSpace` | app.py:43 | skipping leading whitespace keeps every non-whitespace character |
| `Text.CollapseKeepsText` | app.py:43 | collapsing whitespace keeps every non-whitespace character, in order |
| `Text.SliceSingleSpaced` | app.py:43 | any slice of a single-spaced string is single-spaced |
| `Text.LowerKeepsShape` | app.py:72 | lower-casing keeps the absence of outer spaces and single spacing, leaves no upper-case letter and is the identity on a string without one |
| `Text.Tidy` | app.py:43 | `re.sub(r"\s+", " ", t).strip()`: no outer whitespace and single blanks inside; `TidyWords` proves it is the words of `t` joined by single blanks |
| `Text.TidyKeepsText` | app.py:43 | tidying drops and merges only whitespace |
| `Text.TidyFixpoint` | app.py:43 | tidy text is left unchanged |
| `Text.TidyIdempotent` | app.py:43 | tidying twice is tidying once |
| `Text.WordEnd` | app.py:43 | the end of the run of non-whitespace characters from `i`: none of them is whitespace, and whitespace or the end of the text follows |
| `Text.Words` | app.py:43 | `s.split()`, defined on its own: the maximal runs of non-whitespace characters in order, each a non-empty word without whitespace |
| `Text.JoinWords` | app.py:43 | `" ".join(ws)`, by its definition: the words in order with one blank between neighbours |
| `Text.WordEndIs` | app.py:43 | a run of non-whitespace characters followed by whitespace or the end is where the word ends |
| `Text.SkipSpaceIs` | app.py:72 | a run of whitespace followed by a non-whitespace character or the end is where the skip stops |
| `Text.WordsSpaceFront` | app.py:43 | leading whitespace adds no word |
| `Text.WordsWordFront` | app.py:43 | a word followed by whitespace or by nothing is the first word |
| `Text.WordsCons` | app.py:43 | a non-whitespace character in front is a new first word before whitespace, and joins the first word otherwise |
| `Text.WordsSpaceBack` | app.py:43 | trailing whitespace adds no word |
| `Text.StripWords` | app.py:43 | stripping keeps the words |
| `Text.CollapseCons` | app.py:43 | a non-whitespace character stays in front of the collapsed rest |
| `Text.CollapseSpaceFront` | app.py:43 | a whitespace run before a non-whitespace character becomes exactly one blank |
| `Text.CollapseWords` | app.py:43 | `re.sub(r"\s+", " ", s)` keeps the words: no two of them merge and none is split |
| `Text.GapAfterWord` | app.py:43 | in tidy text whitespace after a word is one blank with a further word after it |
| `Text.JoinedNormalForm` | app.py:43 | tidy text is its own words joined by single blanks |
| `Text.TidyWords` | app.py:43 | `re.sub(r"\s+", " ", t).strip()` equals `" ".join(t.split())`: the words of `t`, in order, exactly one blank apart |
| `Text.WordsOfPair` | app.py:43 | whitespace between two words separates them and belongs to neither |
| `Text.TwoWords` | app.py:72 | "plan  period" has the two words "plan" and "period" |
| `Text.TidyTwoWords` | app.py:72 | "plan  period" tidies to "plan period", not "planperiod" |
| `Text.NormalizeHeader` | app.py:71-72 | `normalize_header`: the result is in normal form (stripped, single-spaced, lower case); `NormalizeHeaderWords` proves it is the words joined by single blanks, lower-cased |
| `Text.NormalizedFixpoint` | app.py:71-72 | a string in normal form is left unchanged |
| `Text.NormalizeHeaderIdempotent` | app.py:116 | normalising twice, as `_pick_column_indices` does, is normalising once |
| `Text.SqueezeLower` | app.py:72 | lower-casing commutes with dropping whitespace |
| `Text.NormalizeHeaderKeepsText` | app.py:71-72 | normalising keeps every non-whitespace character, lower-cased, in order |
| `Text.NormalizeHeaderWords` | app.py:71-72 | `normalize_header(t)` equals `" ".join(t.split()).lower()` |
| `Text.Truncate` | app.py:74-78 | `truncate`: None gives ""; otherwise a stripped slice of the first `length` characters, at most `length` long |
| `Text.TruncateFullLength` | app.py:74-78 | a cut between two non-blank characters keeps exactly `length` characters |
| `Text.TruncateLongWord` | app.py:74-78 | a 150-letter word truncates to 100 characters |
| `Text.DigitRun` | app.py:91 | the length of the maximal run of digits from `i` |
| `Text.DigitRunIs` | app.py:91 | a run of `n` digits ended by a non-digit or the end of the string is the digit run |
| `Amount.NumberEnd` | app.py:91 | the end of the greedy `\d+(?:\.\d+)?` match lies after its first digit |
| `Amount.FirstNumber` | app.py:91-95 | `re.search(r"-?\d+(?:\.\d+)?")`: the match at the first position from `i` where a match starts, and None exactly when no position has one; there is a match exactly when a digit is left, and it is a whole numeral |
| `Amount.DecimalOf` | app.py:99 | `str(n)`: digits of value `n`, with no leading zero, and "0" for zero |
| `Amount.Finish` | app.py:91-100 | "" exactly when the prepared text has no digit, and then no position has a match; otherwise the match at the leftmost matching position, signed when the cell stood in parentheses and collapsed when its fraction is all zeros, which is a numeral whose fraction is not all zeros |
| `Amount.CleanAmount` | app.py:80-100 | `clean_amount`: "" exactly when the cell (None counts as "") has no digit; otherwise the leftmost match in the prepared cell, signed and collapsed, a canonical numeral |
| `Amount.ReplaceNbsp` | app.py:82 | the same length as the text, each NBSP a blank and every other character kept |
| `Amount.UsdAt` | app.py:83 | by its definition, a match of `(?i)\bUSD\b` at `i`: "usd" in any case with no word character on either side |
| `Amount.RemoveUsdFrom` | app.py:83 | `re.sub(r"(?i)\bUSD\b", "", s)`, scanning left to right: never longer than the text; `DigitsOfRemoveUsd`, `NoUsdRemove` and `UsdRemoved` say what it keeps and what it removes |
| `Amount.DropCurrencyMarks` | app.py:84 | no longer than the text, with no `$` and no `,` left |
| `Amount.Unwrap` | app.py:86-89 | when it marks the value negative, the body is stripped and at least two characters shorter than the text; otherwise the text is kept |
| `Amount.Prepare` | app.py:81-89 | the text left for the number search has no outer whitespace and is no longer than the cell |
| `Amount.NumberAt` | app.py:91 | a match that starts exactly at `i` is a non-empty slice of the text from `i` |
| `Amount.Signed` | app.py:96-97 | the match as it is or with a minus in front; the result is negative exactly when the cell stood in parentheses or the match has a minus |
| `Amount.ZeroFraction` | app.py:98 | by its definition, `re.match(r"^-?\d+\.0+$")`: digits, a point and only zeros after it |
| `Amount.IntegerString` | app.py:99 | by its definition, `str(int(float(t)))` computed exactly: the value of the integer part in decimal, with the minus kept for a non-zero value; `IntegerStringCanonical` and the examples state its properties |
| `Amount.Collapse` | app.py:98-99 | a numeral stays a numeral and has no all-zero fraction afterwards; text without an all-zero fraction is kept |
| `Amount.FinishedAtSearch` | app.py:91-100 | the match `FirstNumber` returns sits at the leftmost matching position, and the result is that match signed and collapsed |
| `Amount.FinishedAtUnique` | app.py:91 | only one position is leftmost, so the contracts of `Finish` and `CleanAmount` determine their results |
| `Amount.DigitsOfAppend` | app.py:81-89 | the digits of a concatenation are those of the parts |
| `Amount.DigitsOfFrom` | app.py:91 | the digits of `s[i..]` are the digit at `i`, if any, followed by those of `s[i+1..]` |
| `Amount.DigitsOfNone` | app.py:91 | a string with no digit in it has no digits |
| `Amount.DigitsOfAllSpace` | app.py:81 | blanks hold no digit |
| `Amount.DigitsOfStrip` | app.py:81 | stripping removes no digit |
| `Amount.DigitsOfReplaceNbsp` | app.py:82 | replacing NBSP removes no digit |
| `Amount.DigitsOfRemoveUsd` | app.py:83 | removing `\bUSD\b` removes no digit |
| `Amount.DigitsOfDropCurrencyMarks` | app.py:84 | dropping `$` and `,` removes no digit |
| `Amount.DigitsOfUnwrap` | app.py:86-89 | unwrapping parentheses removes no digit |
| `Amount.PrepareKeepsDigits` | app.py:81-89 | the whole preparation before the number search removes no digit |
| `Amount.DigitRunShift` | app.py:91 | the digit run at `i` of `s[j..]` is the digit run at `j+i` of `s` |
| `Amount.UnsignedAt` | app.py:91 | a match of `\d+(?:\.\d+)?` at `i` is an unsigned numeral |
| `Amount.NumberAtHasDigit` | app.py:91 | a match at `i` means a digit is left from `i` |
| `Amount.NumberAtIsNumeral` | app.py:91 | a match at `i` is a whole numeral |
| `Amount.FinishCanonical` | app.py:96-99 | signing and collapsing a numeral gives a numeral without an all-zero fraction |
| `Amount.DigitsAreNumeral` | app.py:98 | a digit string is a numeral without a fraction |
| `Amount.NegatedNumeral` | app.py:97 | "-" before an unsigned numeral gives a numeral |
| `Amount.IntegerStringCanonical` | app.py:99 | `str(int(float(num)))` of a zero-fraction numeral is a numeral without a fraction |
| `Amount.NoNbspReplace` | app.py:82 | a string without NBSP is unchanged by the replacement |
| `Amount.InertDropCurrencyMarks` | app.py:84 | characters among digits, `-`, `.`, `(` and `)` survive mark dropping |
| `Amount.DropCurrencyMarksAppend` | app.py:84 | mark dropping distributes over concatenation |
| `Amount.NoUsdRemove` | app.py:83 | a string without the letter u is unchanged by the USD removal |
| `Amount.InertPrepare` | app.py:81-89 | a stripped string of digits, signs, points and parentheses reaches the search unchanged, except that outer parentheses are removed and mark it negative |
| `Amount.NumeralIsInert` | app.py:81-89 | a numeral consists of such characters only |
| `Amount.NumeralFound` | app.py:91-95 | the search finds the whole of a numeral |
| `Amount.NumeralFixpoint` | app.py:80-100 | a numeral cell is kept as it is, or collapsed when its fraction is all zeros |
| `Amount.CleanAmountIdempotent` | app.py:80-100 | cleaning a cleaned amount changes nothing |
| `Amount.ParenthesizedPrepare` | app.py:86-89 | "(digits)" prepares to a negative flag and the digits |
| `Amount.FinishNegatedDigits` | app.py:96-97 | a negative flag puts a minus sign before unsigned digits |
| `Amount.ParenthesizedDigits` | app.py:86-97 | a whole-cell "(digits)" cleans to "-digits" |
| `Amount.CleanAmountExamples` | app.py:81-93 | None and "n/a" clean to "" |
| `Amount.CurrencyCellChars` | app.py:82-83 | "$p,q" holds no NBSP and no letter u |
| `Amount.DropMark` | app.py:84 | a lone `$` or `,` is dropped |
| `Amount.DropMarksOfCurrencyCell` | app.py:84 | dropping the marks of "$p,q" gives "pq" |
| `Amount.CurrencyCellCleanup` | app.py:81-84 | the blank, USD and mark steps turn "$p,q" into "pq" |
| `Amount.CurrencyCellUntouched` | app.py:81-83 | the strip, blank and USD steps leave "$p,q" as it is |
| `Amount.NoOuterSpaceCell` | app.py:81 | "$p,q" has no outer whitespace |
| `Amount.DigitsFrontUnwrap` | app.py:85-89 | text that starts with a digit and has no outer whitespace is neither stripped nor unwrapped |
| `Amount.PrepareCurrencyCell` | app.py:81-89 | "$p,q" prepares to the positive text "pq" |
| `Amount.PrepareDigitsNumeral` | app.py:81-89 | "pq" prepares to itself |
| `Amount.CurrencyMarksIgnored` | app.py:84 | a currency cell "$p,q" cleans exactly as the bare numeral "pq" |
| `Amount.IntegerString1234` | app.py:98-99 | "1234.00" has an all-zero fraction and collapses to "1234" |
| `Amount.Value1234` | app.py:98-99 | the digits "1234" denote the number 1234 |
| `Amount.Decimal1234` | app.py:98-99 | `str(1234)` is "1234" |
| `Amount.DollarPieces` | app.py:84 | "$1,234.00" splits into "$", "1", "," and the numeral "234.00" |
| `Amount.JoinedDigits` | app.py:84 | "1" and "234.00" join to "1234.00" |
| `Amount.DollarAmountExample` | app.py:80-100 | "$1,234.00" cleans to "1234" |
| `Amount.IntegerString007` | app.py:98-99 | "007.00" collapses to "7" |
| `Amount.IntegerStringNegZero` | app.py:98-99 | "-0.0" collapses to "0" |
| `Amount.KeptFraction` | app.py:98 | "99.50" is a numeral whose fraction is not all zeros |
| `Amount.KeptFractionNumeral` | app.py:91 | "99.50" is a numeral |
| `Amount.FractionExamples` | app.py:80-100 | "007.00" cleans to "7", "-0.0" to "0", and "99.50" is kept |
| `Amount.UsdRemoved` | app.py:83 | `\bUSD\b` matches at the start of "USD 99.50" and nowhere after it, leaving " 99.50" |
| `Amount.UsdCellUntouched` | app.py:81-82 | stripping and the NBSP replacement leave "USD 99.50" as it is |
| `Amount.BlankNumeralMarks` | app.py:84 | " 99.50" has no `$` or `,` to drop |
| `Amount.BlankNumeralStrip` | app.py:84 | " 99.50" strips to "99.50" |
| `Amount.UsdPrepare` | app.py:81-89 | "USD 99.50" prepares to the positive text "99.50" |
| `Amount.UsdExample` | app.py:80-100 | "USD 99.50" cleans to "99.50" |
| `HeaderFields.FirstMatch` | app.py:39-44 | `_first_match`: the field has no outer whitespace and single blanks inside |
| `HeaderFields.FirstCapture` | app.py:40-43 | by its definition, the group of the first pattern from `i` on whose search matches; `FirstCaptureNone`, `FirstCaptureEarliest` and `FirstCaptureSource` state its properties |
| `HeaderFields.FirstCaptureNone` | app.py:40-44 | the loop finds nothing exactly when no remaining pattern matches |
| `HeaderFields.FirstCaptureEarliest` | app.py:40-43 | the first matching pattern in list order decides |
| `HeaderFields.FirstCaptureSource` | app.py:40-43 | a found group is the group of some pattern |
| `HeaderFields.FirstMatchNone` | app.py:44 | no matching pattern gives "" |
| `HeaderFields.FirstMatchEarliest` | app.py:40-43 | the field is the tidied group of the earliest matching pattern, whatever later patterns match |
| `HeaderFields.FirstMatchSource` | app.py:39-44 | a field is "" or the tidied group of some matching pattern |
| `HeaderFields.PoRun` | app.py:26-29 | `[0-9\-]+` from `i`: a maximal run of digits and hyphens |
| `HeaderFields.LineEnd` | app.py:21-23 | the first line break at or after `i`, or the end of the text, with no line break before it |
| `HeaderFields.LastNonBreak` | app.py:21-23 | the last position in a range that holds no line break, None exactly when there is none: the character `[^\n\r]+` takes back when `\s*` ran to the end |
| `HeaderFields.MatchTerms` | app.py:19-37 | `(\s* word)*` matched ignoring case: where the words end, never before the start or past the text |
| `HeaderFields.Grab` | app.py:19-37 | `\s*(group)`: the group is non-empty, holds only digits and hyphens for `[0-9\-]+` and no line break for `[^\n\r]+` |
| `HeaderFields.SepCapture` | app.py:19-37 | `\s*[:\-]\s*(group)`, the separator optional for `PO #`: the same guarantees on the group |
| `HeaderFields.MatchAt` | app.py:19-37 | the group of a match starting exactly at `i` (with `\b` where the pattern has it): the same guarantees on the group |
| `HeaderFields.Attempts` | app.py:41 | one attempt per start of the text, from 0 to its length, each the match at that start |
| `HeaderFields.Leftmost` | app.py:41 | the scan finds nothing exactly when no attempt from the start on matched; otherwise it returns a matching attempt with no matching attempt before it |
| `HeaderFields.Search` | app.py:41 | `p.search(text)`: no match exactly when no start matches; otherwise the group of the leftmost match |
| `HeaderFields.Matchers` | app.py:19-37 | the matchers of a pattern list, in the same order |
| `HeaderFields.HeaderPatternLists` | app.py:19-37 | `HEADER_PATTERNS` holds three plan-period, four PO-number and four partner patterns; only the PO-number patterns start at `\b`; the plan-period and partner patterns capture the rest of the line; only `PO #` may leave out its separator |
| `HeaderFields.ExtractHeaders` | app.py:51-55 | the map has exactly the keys "Partner", "PO Number" and "Plan Period", each the first match of its own patterns |
| `HeaderFields.PoCharsTidy` | app.py:43 | a digit-and-hyphen group is already tidy |
| `HeaderFields.PoPatternsCaptureDigits` | app.py:25-30 | every PO pattern captures `[0-9\-]+` |
| `HeaderFields.PoNumberShape` | app.py:25-30 | the PO number holds only digits and hyphens |
| `HeaderFields.PoNumberExample` | app.py:26 | "PO Number: 12345-6" gives the PO number "12345-6" |
| `HeaderFields.PoNumberMatch` | app.py:26 | the first PO pattern matches "PO Number: 12345-6" at its start with the group "12345-6" |
| `HeaderFields.PoNumberWords` | app.py:26 | `\bPO\s*Number` matches the first nine characters of that line |
| `HeaderFields.PoNumberCapture` | app.py:26 | the separator and `\s*([0-9\-]+)` after those words capture "12345-6" |
| `Columns.ColumnMap.Set` | app.py:120 | giving a role a column changes that role only |
| `Columns.StripCells` | app.py:106 | every cell stripped |
| `Columns.IsHeaderRow` | app.py:106-107 | by its definition, the joined stripped cells contain "activ" and "descr", ignoring case |
| `Columns.HeaderFlags` | app.py:107 | one header-row flag per row |
| `Columns.FirstTrue` | app.py:105-109 | the first set flag among the first `n`, and None exactly when none is set |
| `Columns.FirstTrueStable` | app.py:105-109 | looking further does not change the first set flag |
| `Columns.HeaderRowIndex` | app.py:104-109 | the first header row among the first 20 rows, or 0 when there is none |
| `Columns.FindHeaderRow` | app.py:104-109 | the loop with its `break` returns `HeaderRowIndex` |
| `Columns.NormalizeCells` | app.py:111 | the header row with each cell normalised |
| `Columns.Synonyms` | app.py:59-66 | by its definition, the synonym list of each role of `COL_SYNONYMS` |
| `Columns.MatchesRole` | app.py:118 | by its definition, `any(s in col_clean for s in synonyms)` |
| `Columns.Names` | app.py:116-118 | per header cell, whether its normalised text contains a synonym of the role |
| `Columns.RoleColumn` | app.py:114-120 | the first header cell whose normalised text names the role: it names it and no earlier cell does; None when no cell does |
| `Columns.UpdateRole` | app.py:118-120 | a role that is already set, or that the cell does not name, is left alone; the other roles are never touched |
| `Columns.RolesThrough` | app.py:117-120 | by its definition, the one-role update applied to each role in the order of `COL_SYNONYMS`; `AssignCell` computes it |
| `Columns.RolesUpTo` | app.py:115-120 | by its definition, the map after the first `n` cleaned cells; `RolesUpToFirst` states what it holds |
| `Columns.RolesOf` | app.py:114-120 | each role is the first header cell that names it, independently of the other roles |
| `Columns.RoleStep` | app.py:118-120 | one cell updates a role exactly when it names the role and the role is unset, and leaves the other roles alone |
| `Columns.RolesUpToFirst` | app.py:114-120 | after the loops have seen the first `n` header cells, each role holds the first of them that names it |
| `Columns.RolesUpToAll` | app.py:114-120 | after all header cells, the loops' map is `RolesOf` |
| `Columns.AssignCell` | app.py:117-120 | the role loop for one cleaned cell updates the roles one after another, each by the one-role rule |
| `Columns.AssignCleaned` | app.py:115-120 | the loop over the cleaned cells builds the map cell by cell, starting from no roles |
| `Columns.AssignRoles` | app.py:114-120 | the nested loop computes `RolesOf`: each role is the first header cell that names it |
| `Columns.CurrencyFlags` | app.py:126-127 | per data row, whether column `j` holds `\$\d{1,3}(?:,\d{3})+` |
| `Columns.CurrencyAt` | app.py:127 | by its definition, `\$\d{1,3},\d{3}` at `i`, which is what a search for `\$\d{1,3}(?:,\d{3})+(?:\.\d+)?` needs |
| `Columns.HasCurrency` | app.py:127 | by its definition, `str.contains` of that pattern: some position matches |
| `Columns.Count` | app.py:127 | the number of set flags, at most `n` |
| `Columns.CountZero` | app.py:127 | the count is 0 exactly when no flag is set |
| `Columns.Score` | app.py:126-127 | a column's score is at most the number of data rows |
| `Columns.ScoreZero` | app.py:127-130 | a score is 0 exactly when no cell of the column holds a currency amount |
| `Columns.Scores` | app.py:124-128 | one score per column |
| `Columns.BestColumn` | app.py:129 | the head of the descending sort: a top score, with every later column scoring strictly less |
| `Columns.AmountFallback` | app.py:123-131 | None exactly when every column scores 0; otherwise a column with a positive top score, the highest such index |
| `Columns.ScoreColumn` | app.py:126-127 | the counting loop computes `Score` |
| `Columns.SortHead` | app.py:129-131 | the head of `cand_scores` after `sort(reverse=True)` is the pair of `BestColumn` |
| `Columns.PickAmountColumn` | app.py:123-131 | the scoring loop and the sort head compute `AmountFallback` |
| `Columns.ResolveSteps` | app.py:111-131 | the resolver is the named roles followed by the fallback |
| `Columns.ResolveWith` | app.py:122-131 | the data are kept; activity and description are the named ones; the named map is kept when it has an amount or there are no data rows |
| `Columns.ResolveAt` | app.py:111-131 | the data are the rows after the header row `h` |
| `Columns.Resolve` | app.py:102-132 | by its definition, the resolver at `HeaderRowIndex`; `ResolveData`, `ResolveNamedRole` and `ResolveAmountFallback` state its properties |
| `Columns.PickColumnIndices` | app.py:102-132 | the resolver method computes `Resolve` |
| `Columns.ResolveData` | app.py:112 | the data are exactly the rows after the header row |
| `Columns.NamesRenormalized` | app.py:111-116 | normalising the header cells twice changes no role |
| `Columns.ResolveNamedRole` | app.py:111-120 | each role is the first raw header cell whose normalised text names it (the amount when some cell names it) |
| `Columns.ResolveAmountFallback` | app.py:122-131 | without a named amount column, the amount is the content fallback when there are data rows, and unset otherwise |
| `Records.RecordShape` | app.py:184-186 | a kept row's description ends with " - " + the plan period and is bounded in length; its amount is "" or a canonical numeral |
| `Records.Skipped` | app.py:159 | by its definition, `df.empty or df.shape[1] < 2` |
| `Records.AmountCell` | app.py:185 | by its definition, the amount cell, or "" when there is no amount column or it lies past the row; `AmountMissing` states the second case |
| `Records.IsHeaderEcho` | app.py:180-182 | by its definition, the lower-cased stripped join starts with "activity" or "description" |
| `Records.RowRecord` | app.py:175-186 | by its definition, the row body; `BlankRowDropped`, `HeaderEchoDropped`, `RowKept` and `RecordShape` state its cases |
| `Records.RowRecords` | app.py:174-186 | a table gives at most one record per data row |
| `Records.AllWellFormedAppend` | app.py:186 | appending well-formed records keeps every record well formed |
| `Records.ListedAppendWellFormed` | app.py:186 | appending the record of a row, when it gives one of the record shape, keeps every record well formed |
| `Records.RowRecordsWellFormed` | app.py:174-186 | every record of a table is well formed |
| `Records.Plan` | app.py:162-172 | the chosen map is complete, and the rows read are at most the table's |
| `Records.Step` | app.py:157-188 | by its definition, one table of the loop; `SkippedTable`, `TableWithOwnMap`, `ContinuationTable`, `UnresolvedTable` and `StepExtends` state its cases |
| `Records.Run` | app.py:154-190 | `last_col_map` only ever holds a map with both activity and description; no more records than rows |
| `Records.StepWellFormed` | app.py:157-188 | one table adds only well-formed records |
| `Records.RunWellFormed` | app.py:154-190 | every record the loop returns is well formed |
| `Records.TakeRow` | app.py:175-186 | the row body with its `continue`s gives `RowRecord` |
| `Records.TableRecords` | app.py:174-186 | the row loop gives `RowRecords` over all data rows |
| `Records.PlanTaken` | app.py:162-172 | the map and rows the table loop settles on are `Plan`'s |
| `Records.PlanMissing` | app.py:162-172 | a table whose map still lacks activity or description, even after falling back to `last_col_map`, has no plan |
| `Records.StepByPlan` | app.py:157-188 | a table that is not skipped appends the records of its plan and remembers its map, or appends nothing and forgets the map when it has no plan |
| `Records.TakeTable` | app.py:157-188 | one pass of the table loop does exactly what `Step` says: the records it appends and the `last_col_map` it leaves |
| `Records.ExtractTableRecords` | app.py:154-190 | the table loop returns the records of `Run` over all tables |
| `Records.StartsWithTrans` | app.py:181 | prefixes compose |
| `Records.StartsWithLower` | app.py:180-181 | lower-casing keeps a prefix |
| `Records.JoinedStartsWithActivity` | app.py:180 | the stripped join begins with a non-blank stripped activity |
| `Records.BlankRowDropped` | app.py:177-178 | a row with blank activity and description cells gives no record |
| `Records.HeaderEchoDropped` | app.py:180-182 | a row whose activity begins with "activity" or "description" in any case gives no record |
| `Records.RowKept` | app.py:180-186 | a row whose activity starts with a letter other than a or d gives the joined description and the cleaned amount |
| `Records.AmountMissing` | app.py:185 | without an amount column, or with one past the row's end, the amount is "" |
| `Records.SkippedTable` | app.py:159-160 | an empty or one-column table changes nothing, `last_col_map` included |
| `Records.TableWithOwnMap` | app.py:162-188 | a table naming both columns is read below its header with its own map, which becomes `last_col_map` |
| `Records.ContinuationTable` | app.py:165-168 | a table not naming both columns is read in full with the previous map, amount included, and that map stays |
| `Records.UnresolvedTable` | app.py:170-172 | an unresolvable table with no previous map adds nothing and clears `last_col_map` |
| `Records.RunPrefix` | app.py:157-186 | records keep table order: earlier tables' records are a prefix of later totals |
| `Records.StepExtends` | app.py:186 | a table only appends records to those already found |
| `Records.NoTablesNoRecords` | app.py:140-154 | no tables, as after an engine failure, give no records |
| `Extraction.Lookup` | app.py:194-196 | `dict.get(key, "")` |
| `Extraction.Extract` | app.py:192-198 | by its definition, `extract` as written; `ExtractDropsHeaderFields` states what it returns |
| `Extraction.ExtractIntended` | app.py:192-198 | by its definition, `extract` with the keys `extract_headers` sets; `ExtractIntendedFields` states what it returns |
| `Extraction.SnakeCaseKeysMissing` | app.py:194-196 | in a map keyed "Partner", "PO Number" and "Plan Period", the keys "po_number", "plan_period" and "partner" all look up as "" |
| `Extraction.ExtractDropsHeaderFields` | app.py:192-198 | as written, `extract` returns "" for all three header fields and every description ends in " - " |
| `Extraction.ExtractIntendedFields` | app.py:192-198 | with the intended keys, each field is its own first match, the PO number holds only digits and hyphens, and every description ends with the plan period |

## Left out

- `Columns.AssignRoles` cleans every header cell before the role loop instead of one cell per iteration. `normalize_header` has no side effects, so the map is the same; only the order of the calls differs.
- PDF reading (`pdfplumber` page text, `camelot.read_pdf`) is I/O. It is modelled as parameters: the text of the first two pages, and the list of table grids. An engine failure gives an empty list.
- The Streamlit interface, the Excel and CSV export (`df_to_excel_bytes` and the rest after line 199), temporary files and dates are outside the extraction core and not modelled.
- `\s`, strip and `isspace` follow Python's whitespace set. `\w`, `\b`, `\d` and case folding are modelled for ASCII only: Python's Unicode word characters, digits and case mappings are not modelled.
- `Amount.IntegerString` computes `str(int(float(num)))` exactly. The rounding of `float` above 2^53 is not modelled. Neither is the failure on a numeral beyond the float range: there `float(num)` is infinity and `int` raises `OverflowError`, so `clean_amount` raises, while the model returns the exact integer string.
- `Columns.SortHead` models `cand_scores.sort(reverse=True)` by the head it produces. The full order of the sorted list is not modelled, because only its head is read.
- Table grids are rectangular sequences of cell strings: pandas `NaN`/`None` cells, `fillna`, `astype(str)` and `reset_index` are modelled through their effect on strings and row order only.
- `Columns.CurrencyFlags` checks for one `,\d{3}` group after the dollar digits. Because `str.contains` searches, further groups and the optional `(?:\.\d+)?` cannot change whether a cell matches.
- `HeaderFields.Search` captures `[^\n\r]+` with Python's backtracking. It takes the rest of the line, since `\s*` before the group has already consumed the blanks. The other regex features of `HEADER_PATTERNS` are written out pattern by pattern; no general regex engine is modelled.
- `stream_line_scale` only tunes the PDF engine and does not appear in the model.

## Findings

| source | as written | input that shows it | evidently intended | confidence | as-written member | corrected member |
|---|---|---|---|---|---|---|
| app.py:194-196 | `extract` reads the keys "po_number", "plan_period" and "partner", but `extract_headers` (app.py:51-55) returns the keys "PO Number", "Plan Period" and "Partner"; all three fields are always "" and every description ends in " - " | a text "PO Number: 12345-6\nPeriod: Q1 2025\nPartner: Acme Corp" gives po "", period "" and partner "" | look up "PO Number", "Plan Period" and "Partner" | not executed | `Extraction.ExtractDropsHeaderFields` | `Extraction.ExtractIntendedFields` |
