# xls-compare reconciliation engine in Dafny

This project models the reconciliation engine of xls-compare, a small web
application that compares two provider ledgers exported as spreadsheets:

- a **Balance** sheet, keyed by a provider id of up to nine digits;
- a **DDP** sheet, keyed by a short provider number that is mapped onto the
  same nine-digit id space (`40000` followed by a four-digit code).

The engine does four things:

1. It normalises each row's id cell, name cell and amount cell.
2. It loads each ledger:
   - Balance keeps the first row of every id, in row order.
   - DDP groups its rows by id in ascending order, summing the amounts and
     keeping the first non-empty name.
3. It reconciles the two ledgers. For every id present in both, in ascending
   order, it records:
   - the two amounts;
   - their net difference, `ddp + balance`, since DDP amounts are positive
     and Balance amounts negative;
   - a label ("De más en DDP", "De más en BALANCE" or "Equilibrado") given by
     the sign of that difference.

   The matches whose difference exceeds 0.0001 in magnitude are also listed
   as differences. Each ledger's amounts are totalled.
4. The upload form accepts `.xls` and `.xlsx` files only.

Modules:

- `Wrappers`: `Option`.
- `Strings`: Python's string primitives as the engine uses them.
  - `strip()` with the full `str.isspace` set and `isdigit()`;
  - `zfill`, `int()` on digits and `f"{n:04d}"`;
  - `replace(",", "")`, `lower()`, and `sorted(set(...))` under Python's
    code-point order of strings (`LexLess`), which is also the order in which
    `groupby` yields its keys.
- `Normalizers`: the cell normalisers `_extract_digits`,
  `_normalize_balance_id`, `normalize_ddp_id` and `_clean_amount`.
- `Ledgers`: the records, and the two loaders from the rows of the sheet on.
  - `load_balance_records` keeps the first row of each id with pandas'
    `drop_duplicates`, and `load_ddp_records` groups with `groupby`. The model
    writes each as a method that walks the rows (`LoadBalanceRecords`,
    `LoadDdpRecords`), proved equal to a specification function
    (`BalanceRecords`, `DdpRecords`).
  - The lemmas state what those functions promise in terms of the rows.
- `Reconciler`: `compare_records`.
  - `Reconcile` is the `for` loop of `compare_records` over the common ids.
    `CompareRecords` is the whole of `compare_records`: it runs both
    loaders and then `Reconcile`.
  - Both are proved equal to the function `Comparison`, about which the
    lemmas are stated.
- `Uploads`: the extension filter of the upload form.

A spreadsheet cell is `Missing`, for an empty cell that pandas reads as NaN,
or `Text(t)`, where `t` is the `str()` of the value read. Amounts are exact
`real` numbers.

## Model

| member | source | states |
|---|---|---|
| Normalizers.ExtractDigits | src/app/services.py:28-35 | A missing cell gives no identifier; an identifier, when there is one, is a non-empty string of ASCII digits |
| Normalizers.ExtractDigitsOfText | src/app/services.py:28-35 | A text has an identifier exactly when some character of it is a digit; the identifier is its digits in order, a subsequence of the text; a blank text has none |
| Strings.Digits | src/app/services.py:34 | The join of the digits is made of ASCII digits only and is no longer than the text |
| Strings.DigitsIsSubsequence | src/app/services.py:34 | The digits kept by the join are a subsequence of the text |
| Strings.DigitsEmpty | src/app/services.py:34-35 | The join of the digits is empty exactly when no character of the text is a digit |
| Strings.DigitsOfStrip | src/app/services.py:31-34 | Stripping the text first does not change which digits are extracted |
| Strings.Strip | src/app/services.py:31 | `strip()` is no longer than the text and has no white space at either end |
| Strings.StripIdempotent | src/app/services.py:31 | Stripping twice is stripping once |
| Strings.StripSpaces | src/app/services.py:31-33 | A text of white space only strips to the empty text |
| Strings.ZFill | src/app/services.py:42 | `zfill` pads on the left with zeros up to the width and leaves longer strings whole |
| Normalizers.NormalizeBalanceId | src/app/services.py:38-42 | An id exactly when digits were extracted; it is those digits left-padded with zeros to nine, or the digits themselves when longer, and all digits |
| Normalizers.BalanceIdIdempotent | src/app/services.py:38-42 | A normalised Balance id normalises to itself |
| Normalizers.NormalizeDdpId | src/app/services.py:45-55 | An id exactly when digits were extracted; it is nine digits, starts with 40000, and its last four digits read as a number in 1000..9999 |
| Normalizers.DdpIdOfDigits | src/app/services.py:49-55 | The DDP id of a digit string is nine digits with prefix 40000 and a code in 1000..9999 |
| Normalizers.DdpIdOfCode | src/app/services.py:55 | `f"40000{number:04d}"` of a four-digit number is nine digits with prefix 40000 whose last four read back as the number |
| Strings.Format04 | src/app/services.py:55 | `{n:04d}` of a number below 10000 is four digits that read back as the number |
| Normalizers.DdpCode | src/app/services.py:49-54 | The code taken from the last four digits, with 0 read as 1 and values below 1000 raised by 1000, lies in 1000..9999 |
| Strings.LastFourValue | src/app/services.py:49-50 | The last four digits of a digit string read as its value modulo 10000 |
| Strings.LastFour | src/app/services.py:49 | `digits[-4:] if len(digits) > 4 else digits`: the last four characters, or all of them when there are fewer |
| Strings.ParseNat | src/app/services.py:50 | `int()` of a string of digits is below ten to the power of its length |
| Strings.ToDecimal | src/app/services.py:55 | `str(n)` of a non-negative number is a non-empty string of digits |
| Normalizers.DdpIdValue | src/app/services.py:45-55 | Read as a number, a DDP id is BASE_BALANCE_PREFIX plus the code of the extracted digits |
| Normalizers.DdpIdLastFourDigits | src/app/services.py:49-50 | Two cells whose digits agree modulo 10000 get the same DDP id |
| Normalizers.DdpIdsEqualIffCodesEqual | src/app/services.py:45-55 | Two cells get the same DDP id if and only if their codes are equal |
| Normalizers.DdpIdIdempotent | src/app/services.py:45-55 | A normalised DDP id normalises to itself |
| Normalizers.DdpIdIsBalanceId | src/app/services.py:38-55 | The Balance normaliser leaves a DDP id as it is, so both ledgers share one key space |
| Normalizers.DdpIdOfDigitText | src/app/services.py:45-55 | A cell of digits only gets the id of its own code |
| Normalizers.DdpIdOfCodeText | src/app/services.py:55 | For a four-digit code the id is the prefix followed by the code's decimal text |
| Normalizers.DdpIdOfNumber | src/app/services.py:49-55 | A cell holding `str(n)` gets the prefix and the decimal text of `n % 10000`, with 0 read as 1001 and codes below 1000 raised by 1000 |
| Normalizers.DdpIdOfSameDigits | src/app/services.py:34 | Only the digits of a cell count: cells with the same digits get the same DDP id |
| Normalizers.DdpIdOfZero | src/app/services.py:51-55 | `normalize_ddp_id("0")` is "400001001" |
| Normalizers.DdpIdOfFourDigits | src/app/services.py:49-55 | `normalize_ddp_id("2500")` is "400002500" |
| Normalizers.DdpIdOfNoDigits | src/app/services.py:46-48 | A text without digits and an empty cell have no DDP id |
| Strings.RemoveCommas | src/app/services.py:64 | The text has no comma left and is no longer than before |
| Normalizers.ParseFloat | src/app/services.py:66 | `float` fails on a text that strips to nothing |
| Normalizers.ParseSigned | src/app/services.py:66 | A parsed value is negative only after a leading '-', and a leading '-' never gives a positive value |
| Normalizers.ParseUnsigned | src/app/services.py:66 | An unsigned decimal parses to a non-negative value |
| Normalizers.CleanAmount | src/app/services.py:58-68 | An empty cell cleans to 0 |
| Normalizers.CleanAmountBlank | src/app/services.py:59-63 | A cell of white space only cleans to 0 |
| Normalizers.CleanAmountIgnoresCommas | src/app/services.py:64 | Removing the commas of a text first does not change its amount |
| Normalizers.CleanAmountOfTidy | src/app/services.py:61-68 | A comma-free text without white space at its ends cleans to what `float` makes of it, or 0 when that fails |
| Normalizers.ParseSignedOfInt | src/app/services.py:66 | `float(str(n)) == n` for every integer |
| Normalizers.CleanAmountOfInteger | src/app/services.py:58-68 | A cell holding `str(n)` cleans to `n` |
| Normalizers.ParseUnsignedOfPoint | src/app/services.py:66 | Digits around one '.' parse to the whole part plus the fraction over its power of ten |
| Normalizers.CleanAmountOfPoint | src/app/services.py:58-68 | A cell holding digits around one '.' cleans to their decimal value |
| Normalizers.CleanAmountOfMinus | src/app/services.py:66 | A leading '-' negates the amount |
| Normalizers.ParseSignedNeedsDigit | src/app/services.py:65-68 | `float` succeeds only on a text that holds a digit |
| Normalizers.CleanAmountWithoutDigits | src/app/services.py:58-68 | A cell without digits cleans to 0 |
| Normalizers.CleanAmountOfThousands | src/app/services.py:64-66 | `_clean_amount("1,234.5")` is 1234.5 |
| Ledgers.CleanName | src/app/services.py:81 | A cleaned name has no white space at either end |
| Ledgers.Total | src/app/services.py:167-168 | The total of non-negative amounts is non-negative, and the total of non-positive amounts is non-positive |
| Ledgers.BalanceEntry | src/app/services.py:80-83 | A Balance row yields a record exactly when its id cell normalises, and the record carries that id, the cleaned name and the cleaned amount of the row |
| Ledgers.BalanceRecords | src/app/services.py:80-93 | The Balance loader yields at most one record per row |
| Ledgers.LoadBalanceRecords | src/app/services.py:80-93 | The loop returns the Balance specification's records, and their ids are unique |
| Ledgers.BalanceRecordsUnique | src/app/services.py:84 | After `drop_duplicates` no two Balance records share an id |
| Ledgers.BalanceRecordsIds | src/app/services.py:80-84 | There is a Balance record for an id if and only if some row's id cell normalises to it |
| Ledgers.BalanceFirstRows | src/app/services.py:83-93 | Every Balance record is the record of the first row with its id, and the records come in increasing row order |
| Ledgers.BalanceRecordsFirst | src/app/services.py:84-93 | The Balance records keep the first row of each id, in the order of those rows |
| Ledgers.DdpEntry | src/app/services.py:105-108 | A DDP row yields an entry exactly when its number normalises, and the entry carries that id, the cleaned name and the cleaned amount of the row |
| Ledgers.DdpEntries | src/app/services.py:105-108 | `dropna` leaves at most one entry per row |
| Ledgers.DdpEntriesIds | src/app/services.py:105-108 | There is a DDP entry with an id if and only if some row's number normalises to it |
| Ledgers.FirstNonEmpty | src/app/services.py:110-114 | `_first_non_empty` returns "" or one of the names it is given |
| Ledgers.FirstNonEmptySpec | src/app/services.py:110-114 | `_first_non_empty` gives "" exactly when every name is empty, and otherwise the name at the first non-empty position |
| Ledgers.FirstNonEmptyName | src/app/services.py:110-114 | The loop returns the first non-empty name, or "" |
| Ledgers.FirstNonEmptyAppend | src/app/services.py:110-114 | A name added at the end counts only when no earlier name is non-empty |
| Ledgers.GroupById | src/app/services.py:116-118 | The grouping yields at most one record per entry |
| Ledgers.DdpRecords | src/app/services.py:105-127 | The DDP loader yields at most one record per row |
| Ledgers.GroupEntries | src/app/services.py:116-118 | The accumulation pass holds, for exactly the ids of the entries, each id's amount sum and its names in order |
| Ledgers.SumsStep | src/app/services.py:116-117 | Adding one entry adds its amount to its id's sum and leaves the other sums as they were |
| Ledgers.NamesStep | src/app/services.py:116-117 | Adding one entry appends its name to its id's names and leaves the other names as they were |
| Ledgers.SumForStep | src/app/services.py:105-117 | One more row adds its cleaned amount to the sum of its id and to no other sum |
| Ledgers.SumForRows | src/app/services.py:105-117 | The sum of an id over the entries is the sum of the cleaned amounts of every row of that id |
| Ledgers.BuildRecords | src/app/services.py:116-127 | One record per requested id, with the first non-empty name and the amount sum of its group |
| Ledgers.GroupRecords | src/app/services.py:116-127 | The grouping returns the grouping specification of its entries |
| Ledgers.LoadDdpRecords | src/app/services.py:105-127 | The loader returns the DDP specification's records |
| Ledgers.GroupByIds | src/app/services.py:116-118 | The groups' ids are strictly ascending and are exactly the ids of the entries |
| Ledgers.DdpRecordsIds | src/app/services.py:105-127 | DDP ids are strictly ascending and unique, and an id has a record if and only if some row's number normalises to it |
| Ledgers.GroupName | src/app/services.py:106-118 | A group's name is "" exactly when no row of the id has a non-empty trimmed name, and otherwise the trimmed name of the first such row |
| Ledgers.DdpRecordName | src/app/services.py:106-127 | The name of each DDP record is the trimmed name of the first row of its id that has one, or "" |
| Ledgers.GroupByTotal | src/app/services.py:116-118 | Grouping neither loses nor adds an amount: the records' total is the entries' total |
| Ledgers.DdpTotal | src/app/services.py:105-168 | The DDP total is the sum of the cleaned amounts of every DDP row with an id |
| Strings.SortedDistinct | src/app/services.py:143 | `sorted(set(xs))` is strictly ascending and has exactly the elements of `xs` |
| Strings.StrictlySortedUnique | src/app/services.py:143 | Two strictly ascending sequences with the same elements are equal, so the sorted common ids are determined |
| Strings.LexLess | src/app/services.py:143 | In Python's string order a proper prefix comes before its extensions |
| Strings.LexLessTotal | src/app/services.py:143 | Python's order on distinct strings is total |
| Reconciler.Classify | src/app/services.py:151-153 | The label is excess in DDP exactly when the difference is positive, excess in Balance exactly when negative, and balanced exactly when zero |
| Reconciler.Abs | src/app/services.py:163 | `abs` is non-negative and equals the value or its negation |
| Reconciler.Label | src/app/services.py:152 | Every observation has a non-empty label |
| Reconciler.LabelDistinguishes | src/app/services.py:151-153 | Two observations get the same label text if and only if they are the same observation |
| Reconciler.MatchOf | src/app/services.py:150-161 | A match carries the Balance record's id and both records' amounts; its difference is the DDP amount plus the Balance amount; its name is the Balance name unless that is empty, and then the DDP name; its observation is the classification of its difference |
| Reconciler.CommonIds | src/app/services.py:143 | The common ids are strictly ascending and are exactly the ids present in both ledgers |
| Reconciler.AboveTolerance | src/app/services.py:163-164 | The differences are no more than the matches, and each exceeds 0.0001 in magnitude |
| Reconciler.Comparison | src/app/services.py:130-177 | The only-in lists are empty; there is one match per common id; the differences are no more than the matches and each exceeds the tolerance; the totals are the totals of the whole Balance list and the whole DDP list |
| Reconciler.ToMap | src/app/services.py:134-135 | The index has exactly the ids of the records, and each id maps to a record with that id |
| Reconciler.ToMapUnique | src/app/services.py:134-135 | When the ids are unique, each record's id maps to that record |
| Reconciler.FilterIn | src/app/services.py:143 | Keeping the ids found in the other ledger yields exactly the intersection of the two id sets |
| Reconciler.Reconcile | src/app/services.py:134-177 | The loop returns the comparison of the two ledgers, and the only-in lists are empty |
| Reconciler.CompareRecords | src/app/services.py:130-177 | `compare_records` is the comparison of the two loaded ledgers |
| Reconciler.AboveToleranceAppend | src/app/services.py:162-164 | A new match is appended to the differences exactly when its difference exceeds the tolerance |
| Reconciler.ComparisonIds | src/app/services.py:143-162 | The matches' ids are strictly ascending and are exactly the ids present in both ledgers |
| Reconciler.ComparisonMatchesArePairs | src/app/services.py:145-162 | With unique ids, every match is the match of the Balance record and the DDP record of its id |
| Reconciler.ComparisonPairsAreMatches | src/app/services.py:143-162 | With unique ids, every Balance record and DDP record with the same id give a match |
| Reconciler.AboveToleranceSpec | src/app/services.py:162-164 | A match is among the differences if and only if it is a match whose difference exceeds 0.0001 in magnitude, and the differences keep the order of the matches |
| Reconciler.SmallDifferenceNotListed | src/app/services.py:150-164 | A non-zero difference within 0.0001 in magnitude, on either side, is labelled excess in DDP when positive and excess in Balance when negative, yet is not listed as a difference |
| Reconciler.BoundaryDifferenceNotListed | src/app/services.py:150-164 | DDP 100 against Balance -100.0001 nets exactly -0.0001 in exact arithmetic: excess in Balance, and not listed |
| Reconciler.CompareRecordsIds | src/app/services.py:130-145 | In terms of the rows, there is a match for an id if and only if a row of each sheet normalises to it, and the matches are in ascending id order |
| Reconciler.CompareRecordsAmounts | src/app/services.py:130-161 | Each match's Balance amount is the cleaned amount of the first Balance row of its id; its DDP amount is the sum over the DDP entries of that id, which is the sum of the cleaned amounts of every DDP row of that id |
| Reconciler.BalanceRecordAmount | src/app/services.py:80-93 | Each Balance record carries the cleaned amount of the first row of its id |
| Reconciler.CompareRecordsDdpTotal | src/app/services.py:166-169 | The DDP total of the result is the sum of the cleaned amounts of every DDP row with an id |
| Reconciler.CompareRecordsBalanceTotal | src/app/services.py:166-167 | The Balance total of the result is the total of every loaded Balance record |
| Reconciler.DdpRecordAmount | src/app/services.py:116-117 | A DDP record's amount is the sum of the amounts of its id's entries |
| Strings.Lower | src/app/routes.py:13 | `lower()` keeps the length of the text |
| Uploads.Allowed | src/app/routes.py:12-13 | An accepted file has a name, with a dot, of at least four characters |
| Uploads.AfterLastDot | src/app/routes.py:13 | `rsplit(".", 1)[1]` is the dot-free text after the last dot of the name |
| Uploads.AllowedIffExtension | src/app/routes.py:9-13 | A name is accepted if and only if it ends with ".xls" or ".xlsx" in any letter case |
| Uploads.RefusedWithoutDot | src/app/routes.py:13 | No name, the empty name, and a name without a dot are all refused |
| Uploads.RefusedTrailingDot | src/app/routes.py:13 | A name ending in a dot is refused |
| Uploads.AcceptsUpperCase | src/app/routes.py:13 | "Report.XLSX" is accepted |
| Uploads.AcceptsLastExtension | src/app/routes.py:13 | "a.b.xls" is accepted, because only the text after the last dot counts |
| Uploads.RefusesOtherLastExtension | src/app/routes.py:13 | "data.xlsx.csv" is refused |
| Uploads.AcceptsBareExtension | src/app/routes.py:13 | ".xls" is accepted: the stem may be empty |

## Left out

- Reading the files: the `pd.read_excel` calls (src/app/services.py:72-79 and 97-104) are I/O. The model starts from the rows each call yields:
  - Balance: columns 0, 1 and 5 of the lines after the first seven;
  - DDP: columns 1, 2 and 3 of the lines after the first two.
- Cell values: a cell is taken as the text `str()` gives for it, or as missing when pandas reads NaN. How pandas turns a numeric cell into a float, and a float into text, is not modelled.
- Reconciler.Comparison and Normalizers.CleanAmount: amounts are exact reals, not IEEE doubles, so sums and differences carry no rounding error. The two differ at the tolerance boundary. In binary64, 100 + -100.0001 is about -1.0000000000332e-4, beyond the tolerance, so the program lists that match as a difference. In exact arithmetic the model nets exactly -0.0001 and does not list the match (Reconciler.BoundaryDifferenceNotListed). The program's binary64 rounding alone puts that match over the tolerance.
- Normalizers.ParseFloat: models Python's `float` on decimal texts only: white space, an optional sign, and digits with at most one '.'. Exponents, `inf`/`nan` and underscores between digits are treated as unparseable, so they clean to 0.
- Strings.IsDigit and Strings.Lower: only ASCII digits, and case folding of ASCII letters only. Python also accepts other Unicode digits and folds other letters.
- Ledgers.DdpRecords: pandas sums each group in row order; with reals the order of summation does not matter.
- The Flask application: the request handler, the `money` template filter and the application factory (src/app/routes.py:16-59, src/app/__init__.py) are presentation and I/O.
