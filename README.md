# Resume analysis pages: score reader and skill-list handling

This project is a Dafny model of the string handling in two Streamlit pages of a
resume-analysis assistant.

* **The ATS scanner page** (`ATS/app.py`) sends a resume and a job description to a
  generative model. The model answers in free text. The page then reads six
  percentage scores out of that answer. It collects every run of decimal digits,
  each optionally followed by `%`, which is the pattern `(\d+)%?` under
  `re.findall`. It accepts the answer only when exactly six runs were found, and
  binds them by position to six labels: ATS, Readability, Grammar & Spelling,
  Keyword Optimization, Experience Relevance and Customization. Any other count
  takes the error branch.
* **The resume-input page** (`app.py`) works on skill lists:
  * It loads a curated skill list from a text file, keeping the stripped
    non-blank lines.
  * It joins the extracted raw skills with `", "`.
  * It splits the cleaned skill text on `","` and strips each piece.
  * It shows every multi-valued extracted field as a `", "`-join.

The model has four modules.

* `Chars` (`chars.dfy`): digits (`'0'..'9'`) and the whitespace set of Python's
  `str.isspace`.
* `AtsScores` (`ats_scores.dfy`): the regular-expression scan, the exactly-six
  rule and the positional binding to the labels. The scan is modelled the way
  the matcher performs it. A position moves left to right. At a digit, the
  greedy `\d+` takes the whole run, a following `%` is consumed, and scanning
  resumes after the match. At any other character, the position advances by
  one. The proved properties are:
  * every match is a maximal digit run;
  * matches are ordered and disjoint;
  * concatenated, the tokens are exactly the digits of the answer;
  * text after a break in the digits scans independently;
  * an answer in the requested format reads back to the values written into it.
* `PyText` (`py_text.dfy`): Python's `str.strip()`, `sep.join(items)` and
  `str.split(",")`.
* `ResumeApp` (`resume_app.dfy`): the skill-file loader and the details table.

## Model

| member | source | states |
|---|---|---|
| AtsScores.DigitRunEnd | ATS/app.py:81 | The greedy `\d+` starting at a position stops at the first non-digit: everything before the stop is a digit, and the stop is a non-digit or the end |
| AtsScores.ResumeAt | ATS/app.py:81 | Scanning resumes right after the run, or one character later exactly when that character is `%` |
| AtsScores.ScanFrom | ATS/app.py:81 | Every match lies inside the unscanned rest of the text and is non-empty |
| AtsScores.ScanFindsMaximalRuns | ATS/app.py:81 | Every match is a non-empty run of digits with no digit immediately before or after it |
| AtsScores.ScanIsOrdered | ATS/app.py:81 | Matches are pairwise disjoint and listed left to right, and each starts at a digit |
| AtsScores.FindScores | ATS/app.py:81 | Every token is a non-empty string of digits and never contains the `%` that may follow it |
| AtsScores.ScoresAreTheDigits | ATS/app.py:81 | The tokens, concatenated in order, are exactly the digit characters of the answer in order |
| AtsScores.NoDigitsRejected | ATS/app.py:81-83 | No token is found exactly when the answer has no digit; such an answer takes the error branch with zero tokens |
| AtsScores.ScoresOfAppend | ATS/app.py:81 | If the first part does not end in a digit, the tokens of two joined texts are those of the first part followed by those of the second |
| AtsScores.ParseScores | ATS/app.py:83-84 | Scores are accepted if and only if exactly six tokens are found; token k is then bound to the k-th label; otherwise the failure records how many tokens there were |
| AtsScores.AcceptedScoresAreDigitStrings | ATS/app.py:81-84 | Every accepted score, under every label, is a non-empty string of decimal digits |
| AtsScores.OutputLabelsHaveNoDigits | ATS/app.py:64-70 | None of the six label texts of the requested output format contains a digit |
| AtsScores.FormatResponse | ATS/app.py:64-70 | An answer in the requested format with at least one line ends in a line break |
| AtsScores.ScoresOfFormattedResponse | ATS/app.py:64-81 | In an answer of the requested format, the tokens are exactly the values written into it, in order |
| AtsScores.ParseFormattedResponse | ATS/app.py:64-84 | Round trip: six digit strings written in the requested format are read back, each under its own label |
| AtsScores.ScoresWithTrailingText | ATS/app.py:81 | Text after a formatted answer adds its own tokens after the formatted values |
| AtsScores.ExtraNumberRejected | ATS/app.py:83-105 | A formatted answer followed by any further number is rejected as a whole; no six of its numbers are picked out |
| AtsScores.MissingNumberRejected | ATS/app.py:83-105 | An answer made of only the first five lines of the requested format (no Customization line) is rejected with five tokens, not zero-filled |
| PyText.SkipSpaceFrom | app.py:16 | Scanning forward from a position passes only whitespace and stops at a non-whitespace character or the end |
| PyText.SkipSpaceBack | app.py:16 | Scanning backward passes only whitespace and stops after a non-whitespace character or at the lower bound |
| PyText.Strip | app.py:16 | The stripped string is no longer than the input and has no whitespace at either end |
| PyText.StripRemovesPadding | app.py:16 | Stripping removes only whitespace: the result is a slice with only whitespace on both sides, and it is empty exactly when the input is all whitespace |
| PyText.StripPadded | app.py:61 | Stripping a trimmed string surrounded by any whitespace gives back exactly that string |
| PyText.StripTrimmed | app.py:16 | A string with no whitespace at either end is its own strip |
| PyText.StripIdempotent | app.py:16 | Stripping twice gives the same result as stripping once |
| PyText.Join | app.py:56 | `sep.join` of no items is the empty string; JoinEnds, SplitJoined and JoinedCommaCount state the rest |
| PyText.JoinEnds | app.py:56 | A join of at least one item starts with the first item and ends with the last one |
| PyText.SplitCommas | app.py:61 | Splitting on "," gives one more piece than there are commas; no piece contains a comma; joining the pieces with "," gives back the text |
| PyText.SplitAndStrip | app.py:61 | Split-and-strip of a text with k commas yields exactly k+1 skills |
| PyText.SplitCommaJoin | app.py:61 | Splitting a ","-join of at least one comma-free piece on "," gives back exactly those pieces, so the split of a text is its only such decomposition |
| PyText.SplitAndStripOfCommaJoin | app.py:61 | For any comma list, skill k is the strip of the k-th text between commas, and there is one skill per such text |
| PyText.SplitAndStripPieces | app.py:61 | Every skill from split-and-strip has no whitespace at either end and contains no comma |
| PyText.SplitEmptyText | app.py:61 | Split-and-strip of the empty text gives one empty skill, not the empty list |
| PyText.SplitJoined | app.py:56-61 | Splitting a `", "`-join of comma-free items gives the first item, then each later item behind one space |
| PyText.SplitStripJoin | app.py:56-61 | Round trip: for a non-empty list of trimmed, comma-free skills, split-and-strip of their `", "`-join returns the list |
| PyText.JoinedCommaCount | app.py:56 | Joining n >= 1 comma-free items with `", "` leaves exactly n-1 commas |
| ResumeApp.KeptLine | app.py:16 | One line gives at most one skill; it gives none exactly when the line is all whitespace, and otherwise a non-empty trimmed skill |
| ResumeApp.KeepSkillLines | app.py:16 | At most one skill is kept per line |
| ResumeApp.KeepSkillLinesTrimmed | app.py:16 | Every loaded skill is non-empty and has no whitespace at either end |
| ResumeApp.LoadValidSkills | app.py:9-19 | A file that cannot be read gives the empty list; otherwise every skill is non-empty and trimmed |
| ResumeApp.KeepSkillLinesAppend | app.py:16 | File order is kept: the skills of two stretches of lines are those of the first stretch, then those of the second |
| ResumeApp.KeepSkillLinesMembers | app.py:16 | A string is loaded if and only if it is non-empty and is the stripped form of some line |
| ResumeApp.KeepSkillLinesNoBlank | app.py:16 | Only blank lines are dropped: if no line is blank, every line is kept, stripped, at its own position |
| ResumeApp.KeepSkillLinesIdempotent | app.py:16 | Loading the already-loaded list again changes nothing |
| ResumeApp.DecimalString | app.py:69 | `str` of a non-negative integer is a non-empty digit string with no leading zero that denotes the integer |
| ResumeApp.YearToString | app.py:69 | `str` of a graduation year: text unchanged; a number as its decimal digits with no leading zero, with a leading minus sign when negative |
| ResumeApp.YearStrings | app.py:69 | One string per graduation year, in the same order; text entries unchanged, numbers as non-empty strings without commas |
| ResumeApp.BuildDetails | app.py:64-76 | Name, phone number, qualifications and the cleaned skill text are shown unchanged; the list fields are stated by DetailsListFieldsInOrder |
| ResumeApp.JoinedFieldReadsBack | app.py:67-75 | A field with no items is shown as ""; a field of trimmed, comma-free items splits back into exactly those items |
| ResumeApp.DetailsListFieldsInOrder | app.py:64-76 | For each list field separately: no items shows "", and trimmed, comma-free items split back complete and in their original order (graduation years as their strings), whatever the other fields hold |
| ResumeApp.UnchangedCleaningKeepsSkills | app.py:55-61 | If every raw skill is trimmed and comma-free and the cleaning service returns the raw skill text unchanged, the cleaned list equals the raw list; with no raw skills it is `[""]` |

## Left out

- The Streamlit user interface is not modelled. This covers page setup, widgets, `st.write`, `st.error`, the terminal `print`s of the scores and the HTML table (`app.py:78-89`).
- The generative-model call (`ATS/app.py:16-19`) is not modelled: it is a foreign network client. The model's answer enters as a parameter.
- Rendering the PDF to JPEG and base64 (`ATS/app.py:22-39`) is not modelled: it is foreign image code.
- Extracting resume text from PDF, DOCX and TXT uploads (`app.py:33-43`) is not modelled: it consists of library calls and byte decoding.
- Reading the skills file is not modelled. Its outcome is the parameter `SkillFile`: the file's lines, or `Unreadable` for any exception.
- `cleaning_module.py` is not part of this model. It is a network client. Its reply, the cleaned skill text, enters `BuildDetails` as a parameter.
- `ner_module` (`ML + Rule Based NER Model/ner_module.py:308-348`) is not modelled. Its result enters as the `Extraction` record, in the order that function returns it. Name, phone and qualifications are type parameters, because the page only passes them through.
- AtsScores.FindScores: digits are the ASCII characters `'0'..'9'`. Python's `\d` also matches other Unicode decimal digits.
- ResumeApp.YearToString: `str()` is modelled only for text and integers. `extract_grad_years` (`ML + Rule Based NER Model/ner_module.py:138-144`) only produces text, so the page only reaches the text case, where `str()` returns the entry unchanged. The integer case covers other callers only.
- AtsScores.FormatResponse: every line of the requested format ends in `%`, two spaces and a line break. In the prompt the last line has no trailing spaces. Neither form contains a digit, so the tokens are the same.
- ResumeApp.UnchangedCleaningKeepsSkills: the round trip is stated only for trimmed, comma-free raw skills. A skill-file line such as `Python, Django` yields a raw skill with a comma, which the split breaks into several skills; SplitAndStripOfCommaJoin gives the pieces in that case.
- AtsScores.ParseScores: the failure value records how many tokens were found. The page only shows a fixed message.
- The page takes whatever the cleaning service returns as the cleaned skill text. It has no fallback to the raw skill list when that text yields no skills (`app.py:59-61`).
