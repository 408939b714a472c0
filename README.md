# Column-type classifier and company-name splitter

A Dafny model of the classification core of `utils.py`. The core infers the semantic type of a column of text and splits company names into a base name and a legal form.

- **Column scorer** (`get_column_stats`).
  - It drops the missing cells and samples the first 100 remaining values.
  - It runs each value through the cascade Date > Phone Number > Country > Company Name > Other, stopping at the first category that credits the value.
  - It counts the credits per category and divides by the sample size.
  - A value that passes the title-case heuristic earns half a point for Company Name and still falls through to Other.
- **Column typer** (`get_column_type`). It picks the category with the highest score, taking the first key of the dict when several are tied. It falls back to Other when the winning score is below 0.2.
- **Company splitter** (`parse_company`).
  - It sorts the legal suffixes by length, longest first.
  - It searches each suffix as the pattern `\b<suffix>[.]?$`, case-insensitively, over the untrimmed value.
  - The first suffix that matches splits the value. The name is the text before the match, trimmed, without trailing `,.- `. The legal form is the match, trimmed.
  - When no suffix matches, the value comes back unchanged with an empty legal form.

The country set, the legal-suffix list, the two regex tables and the two library parsers (`dateutil`, `phonenumbers`) are module globals in the source. Here they are one `Context` value passed to every call, with the regexes and parsers as boolean oracles.

Layout:

- `text.dfy` (module `Text`): ASCII versions of the string operations used: `strip`, `rstrip`, `lower`, `\d`, `\b`, `istitle`, `split`.
- `reference.dfy` (module `Reference`): the lookup context and the base suffix list.
- `scoring.dfy` (module `Scoring`):
  - the cascade as a specification function `ColumnScores`;
  - the step-by-step scorer `GetColumnStats`, a `for` loop over the sample with a `matched` flag, proved equal to that specification.
- `scoring_lemmas.dfy` (module `ScoringLemmas`): what the scores guarantee.
- `column_type.dfy` (module `ColumnType`): the first-maximum choice and the threshold.
- `company.dfy` (module `Company`): the length sort, the suffix search, the split, and what they guarantee.

Each score is kept as an exact fraction: the points of the category over the sample size.

## Model

| member | source | states |
|---|---|---|
| Text.Lower | utils.py:73 | lower-casing keeps the length and maps each character on its own |
| Text.LStrip | utils.py:72 | the result is a suffix of the input, everything removed is whitespace, and it does not start with whitespace |
| Text.Strip | utils.py:72 | the result has no whitespace at either end and is no longer than the input |
| Text.StripIsSlice | utils.py:72 | `strip()` gives the slice of the input between its leading run of whitespace and a trailing run of whitespace |
| Text.RStripChars | utils.py:171 | the result is a prefix of the input; every character removed is in the strip set, and the result does not end in one |
| Text.DigitCount | utils.py:103 | the count is positive exactly when the value holds a digit, and is at most the value's length |
| Text.DigitCountConcat | utils.py:103 | the count is additive over concatenation; with `DigitCountChar` this makes it the number of digit characters |
| Text.DigitCountChar | utils.py:103 | a single character counts one exactly when it is a digit |
| Text.TitleScan | utils.py:125 | defines the scan of `istitle`; its meaning is stated by `TitleScanSpec` |
| Text.TitleScanSpec | utils.py:125 | the scan accepts exactly the strings where each cased letter is upper-case if and only if the character before it is uncased or it comes first |
| Text.IsTitle | utils.py:125 | defines `istitle`: the scan from the start accepts, and some letter is cased |
| Text.WordCount | utils.py:125 | the number of words of `split()` is at most the length; `WordCountConcat`, `WordCountWord`, `WordCountBlank` and `WordCountMany` fix the count |
| Text.WordCountPositive | utils.py:125 | a value has a word exactly when it has a non-space character |
| Text.WordCountConcat | utils.py:125 | joining two strings at whitespace adds their word counts |
| Text.WordCountWord | utils.py:125 | a non-empty run of non-space characters is exactly one word |
| Text.WordCountBlank | utils.py:125 | a string of whitespace only has no word |
| Text.TwoWordsFrom | utils.py:125 | a non-space character, later whitespace and a later non-space character make more than one word |
| Text.WordCountMany | utils.py:125 | `len(split()) > 1` holds exactly when a non-space character is followed, across whitespace, by another non-space character |
| Scoring.SearchPatterns | utils.py:79-83 | the loop with early `break` finds a match exactly when some pattern of the table matches |
| Scoring.CheckDate | utils.py:76-90 | step A credits Date exactly when a date regex matches, or when the value is longer than 5 characters, holds a digit and the date parser accepts it |
| Scoring.CheckPhone | utils.py:92-110 | step B credits Phone Number exactly when a phone regex matches, or when the value has at least 7 digits and the phone parser accepts it |
| Scoring.CreditDateOrPhone | utils.py:76-110 | `matched` is set exactly when Date or Phone Number credits the value, and the accumulators then gain the cell's credit; otherwise nothing changes |
| Scoring.CreditRest | utils.py:112-130 | steps C to E add to the accumulators exactly the credit the cascade gives the value |
| Scoring.CreditCell | utils.py:71-130 | one loop iteration adds exactly the cell's credit to the accumulators |
| Scoring.GetColumnStats | utils.py:57-133 | the imperative scorer returns exactly the specified scores `ColumnScores` of the column |
| Scoring.Classify | utils.py:76-130 | defines the cascade: the first of Date, Phone Number, Country, Company Name whose signal holds, otherwise Other; `CreditCell` proves that the loop credits exactly this |
| Scoring.ClassifyCell | utils.py:72-130 | defines the category of a cell as that of its stripped value |
| Scoring.HalfPoint | utils.py:124-126 | defines the half point: the cell falls to Other and passes the title-case test |
| Scoring.AssessValue | utils.py:119-130 | the half point for Company Name is only ever given together with the full point for Other |
| Scoring.Assess | utils.py:71-130 | a cell's credit is its cascade category plus the title-case half point, and the half point implies Other |
| Scoring.Credits | utils.py:71 | the credits of the sample are per cell, in order, and every one is well formed |
| Scoring.Points | utils.py:81-130 | defines what a credit adds; `PointsSpec` states it |
| Scoring.Tally | utils.py:71-130 | defines the accumulators after the credits, in order; `TallyRange`, `TallySum`, `TallyWitness` and `TallyUniform` state what they hold |
| Scoring.DropMissing | utils.py:61 | dropping missing cells never lengthens the column |
| Scoring.Sample | utils.py:68 | the sample is the first `min(n, 100)` values, in order |
| Scoring.ColumnScores | utils.py:61-69 | the sample size is positive, and the key order is that of one of the two dict literals |
| ScoringLemmas.PointsSpec | utils.py:81-130 | a credit adds one point to its category, half a point to Company Name for the heuristic, and nothing elsewhere |
| ScoringLemmas.CellPoints | utils.py:71-130 | a cell gives one full point to its cascade category; the title-case case gives 0.5 to Company Name and 1 to Other, 1.5 in total |
| ScoringLemmas.NoDigitNoDateOrPhone | utils.py:11-28 | if no regex can match without a digit, a value with no digit is never Date or Phone Number |
| ScoringLemmas.TallyRange | utils.py:81-130 | every accumulator after n cells lies in [0, n] |
| ScoringLemmas.TallySum | utils.py:81-130 | the accumulators sum to n plus half the number of title-case cells |
| ScoringLemmas.TallyWitness | utils.py:81-130 | a category has points only if some cell credited it, or some cell earned the half point when the category is Company Name |
| ScoringLemmas.TallyUniform | utils.py:81-130 | if every cell credits category c, then c has n points and, unless c is Other, every other category has none |
| ScoringLemmas.ScoresBounded | utils.py:125-133 | every score is in [0, 1] and the point total lies between n and 1.5n |
| ScoringLemmas.ScoreSum | utils.py:125-133 | the point total is exactly the sample size plus half the number of title-case cells |
| ScoringLemmas.ScoreInUnit | utils.py:133 | each divided score lies in [0, 1] |
| ScoringLemmas.ScoreTotal | utils.py:133 | the five divided scores sum to a value in [1, 1.5] |
| ScoringLemmas.DropMissingAllNone | utils.py:61 | a column of missing cells leaves nothing after dropping |
| ScoringLemmas.AllMissingIsOther | utils.py:61-65 | an empty or all-missing column scores Other = 1 and every other category 0, with the literal's key order |
| ScoringLemmas.DropMissingConcat | utils.py:61 | dropping missing cells distributes over concatenation |
| ScoringLemmas.DropMissingKeepsPresent | utils.py:61 | a column with no missing cell gives back its values, in order; with `DropMissingAllNone` and `DropMissingConcat` this fixes `dropna` on every column |
| ScoringLemmas.OnlySampleCounts | utils.py:68 | once 100 non-missing values are present, appending cells leaves the scores unchanged |
| ScoringLemmas.NoDigitColumn | utils.py:85 | if no sampled value holds a digit, Date and Phone Number score 0 |
| ScoringLemmas.CountryCell | utils.py:113-116 | a cell credited to Country is, trimmed and lower-cased, in the country set |
| ScoringLemmas.CountryWitness | utils.py:113-116 | a positive Country score has a sampled value in the country set |
| ScoringLemmas.CompanyCell | utils.py:119-126 | a cell credited to Company Name, fully or by half, holds a legal suffix or passes the title-case test |
| ScoringLemmas.CompanyValue | utils.py:119-126 | the same, stated of the stripped value |
| ScoringLemmas.CompanyWitness | utils.py:119-126 | a positive Company Name score has a sampled value with a legal suffix or in title case |
| ScoringLemmas.UniformColumn | utils.py:71-133 | if all sampled cells go to category c, then c has one point per cell; for c other than Other the rest have none, and for Other only Company Name has points, at most half a point per cell |
| ScoringLemmas.AcmeWidgetsTitleCase | utils.py:125 | "Acme Widgets" has no digit, is title-cased and has two words |
| ScoringLemmas.TitleCaseExample | utils.py:119-126 | with no pattern, parser, country or suffix recognising it, "Acme Widgets" falls to Other and earns the half point for Company Name |
| ColumnType.FirstMax | utils.py:138 | the result is a key, no key scores higher, and every key before its first occurrence scores strictly lower |
| ColumnType.ChooseType | utils.py:138-143 | defines the decision on the scores: the first maximum, or Other below 0.2; `ThresholdNeverFires` shows it is always the first maximum |
| ColumnType.GetColumnType | utils.py:135-143 | the answer is the first maximum over the dict's keys in their order, and it scores at least 0.2 |
| ColumnType.ThresholdNeverFires | utils.py:140-143 | the winner always scores at least 0.2, so the fallback to Other never changes the answer |
| ColumnType.UniqueMax | utils.py:138 | a strict maximum is chosen whatever the key order |
| ColumnType.EmptyColumnIsOther | utils.py:64-65 | an empty or all-missing column is typed Other |
| ColumnType.MajorityWins | utils.py:138-143 | a category with one point per cell is chosen over categories with at most half a point per cell |
| ColumnType.UniformColumnType | utils.py:135-143 | a column whose sampled values all go to one category gets that category, Other included |
| Company.Insert | utils.py:163 | defines one insertion step of the stable sort; `InsertPermutes` and `InsertSorted` state it |
| Company.SortByLength | utils.py:163 | defines `sorted(key=len, reverse=True)` as an insertion sort; `SortByLengthSpec` states it |
| Company.InsertPermutes | utils.py:163 | inserting adds exactly the element, as a multiset |
| Company.InsertSorted | utils.py:163 | inserting into a list sorted longest first keeps it sorted |
| Company.SortByLengthSpec | utils.py:163 | the sort orders by length, longest first, and is a permutation |
| Company.MatchesAt | utils.py:166 | defines a match of `\b<suffix>[.]?$` at a position: a word boundary there, then the suffix ignoring case, an optional dot and the end |
| Company.Matches | utils.py:166-167 | defines `search` succeeding: some position where the pattern matches |
| Company.SuffixMatch | utils.py:166-167 | no start exactly when the suffix's pattern does not match; otherwise a start where it matches, with no match starting earlier |
| Company.FirstMatchFrom | utils.py:165-168 | the index of the first sorted suffix that matches; none exactly when no suffix from `k` on matches |
| Company.FindSuffix | utils.py:163-168 | none exactly when no suffix matches; otherwise a listed suffix, its leftmost match, and no longer suffix that matches |
| Company.NamePart | utils.py:170-171 | the name never ends in `,`, `.`, `-` or space, and is no longer than the text before the match |
| Company.NamePartSlice | utils.py:170-171 | the name is the slice of the text before the match that starts after its leading whitespace and is followed only by whitespace and `,.-`; it does not start with whitespace |
| Company.NameBeforeLegal | utils.py:167-172 | on a match, the name is the name part of the text before the legal form |
| Company.ParseCompany | utils.py:158-174 | no match gives the value unchanged with an empty legal form; a changed name is empty or ends in none of `,.- ` |
| Company.FindSuffixIs | utils.py:163-168 | if suffix s matches and no other suffix at least as long does, the search returns s at its leftmost match |
| Company.MatchedTail | utils.py:166 | a match spans the suffix in any case, with an optional dot, to the end of the value; it starts with a word character and ends with no whitespace |
| Company.MatchedTailTrimmed | utils.py:169 | trimming a match leaves it whole |
| Company.NoMatchPassThrough | utils.py:168-174 | with valid suffixes, no suffix matches exactly when the legal form is empty |
| Company.TrailingSpacePassThrough | utils.py:160-167 | a value ending in whitespace is never split, because the search runs on the untrimmed value (other than one trailing newline, see `Company.MatchesAt` under Left out) |
| Company.SameLengthMatchUnique | utils.py:163-166 | two valid suffixes of equal length that both match the same value are equal |
| Company.FoundSpelling | utils.py:166-169 | the match the search settles on is the suffix, optionally with a dot, at a word boundary up to the end |
| Company.LegalIsMatchedTail | utils.py:167-169 | a non-empty legal form is exactly the matched tail of the value |
| Company.LegalAtEnd | utils.py:166-169 | a non-empty legal form ends the value and starts at a word boundary |
| Company.MatchedLegalForm | utils.py:163-172 | a non-empty legal form, lower-cased, is a listed suffix, possibly with a dot, and no longer listed suffix matches the value |
| Company.OrderIndependent | utils.py:163 | the split depends only on which suffixes are listed, not on the order the set gives them |
| Company.AcmeFound | utils.py:163-168 | with the base suffixes, "Acme Widgets Pvt Ltd" matches "pvt ltd" at position 13, ahead of "ltd" |
| Company.AcmeSplit | utils.py:169-171 | the split at 13 gives "Acme Widgets" and "Pvt Ltd" |
| Company.AcmeExample | utils.py:158-172 | `parse_company("Acme Widgets Pvt Ltd")` is ("Acme Widgets", "Pvt Ltd") with the base suffixes |

## Left out

- `load_lookup_data` (utils.py:31-54) is not modelled. It reads two optional files and `pycountry`. The country set and the suffix list are parameters. Four facts about the suffixes are a premise (`ValidSuffixes`). Three come from the loader, which keeps only non-empty lines and strips and lower-cases them: each suffix is non-empty, lower-case and does not end in whitespace. The fourth is an assumption the loader does not enforce: each suffix starts with a word character (a line such as `& co` would break it). Only the base list is spelled out, as `BaseLegalSuffixes`.
- The regex tables (utils.py:11-28) are modelled as opaque matchers, not as a regex engine. That none of them matches a value without a digit is the premise `NeedsDigit`; the digit there is ASCII, while `\d` also matches other Unicode digits.
- `dateutil.parser.parse` and `phonenumbers.parse`/`is_possible_number` are boolean oracles. An exception from either is a `false`.
- `parse_phone` (utils.py:146-156) is not modelled. It is a thin wrapper over `phonenumbers` and `pycountry`, which are not part of this model.
- pandas is not modelled. A column is a sequence of optional strings, `None` is what `dropna` drops, and `astype(str)` is taken as already done.
- Scores are exact rationals (points over the sample size), not floats. Within one column all scores share the denominator n ≤ 100 and have numerators in steps of 0.5, so distinct scores differ by at least 0.005. Float rounding is monotone, so Python's floats order the scores, and compare them with 0.2, exactly as the rationals do.
- Text.Strip, Text.Lower, Text.IsTitle and Text.WordCount follow Python on ASCII characters only. Whitespace is the ASCII set `str.isspace` accepts: tab to carriage return, 0x1C to 0x1F, and space. Python's `str.strip`, `lower`, `istitle` and `split`, and the regex classes `\d`, `\w` and `\b`, are also Unicode-aware. Whitespace, digits and cased letters outside ASCII are not modelled.
- Company.MatchesAt: in Python, `$` also matches just before a trailing newline. The model takes `$` as the end of the string only, so a value ending in a suffix and then `\n` is treated as unsplit.
- The `clean_str` variable of `parse_company` (utils.py:161) is computed and never used. It has no counterpart here.
- `parser.py`, `predict.py` and `server.py` are not part of this model. They are callers. Note that `parser.py:23` keeps a column only when its score is strictly above 0.2, while `get_column_type` rejects it only below 0.2.

Behaviours of the code that the model keeps:

- Only missing cells (NaN/None) are dropped. An empty string stays in the sample and is classified like any other value.
- A title-case value earns 0.5 for Company Name and also 1 for Other, because `matched` stays unset. So two categories are credited for that cell, and the scores of a column sum to a value in [1, 1.5] (`ScoreTotal`).
- The five scores always sum to at least 1, so the winner scores at least 0.2 and the threshold fallback never fires (`ThresholdNeverFires`). A column of unrecognised strings is typed Other because Other wins with score 1, not because of the threshold (`UniformColumnType` with c = Other).
- The dict returned for an empty column lists its keys in a different order from the one built for a non-empty column. `ColumnStats.keys` records which one was returned.
