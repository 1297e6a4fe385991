# SAT test-dates monitor: decision logic in Dafny

This project models the decision logic of `sat_monitor.py`, a script that
fetches the College Board "dates and deadlines" page, reads the test dates
from the first column of its dates table, and posts a Discord alert when
more dates are listed than a threshold (`DATE_THRESHOLD = 7`).

It has three parts, one module each, plus a text module:

- `Text` (`text.dfy`): Python's `str.strip()` and the digit test. Whitespace
  is Python's own whitespace set (the characters `str.isspace` accepts).
  Digits are only `'0'..'9'`. `Trim` is specified on its own terms:
  `TrimUnique` shows that any split of a string into blank, trimmed and
  blank parts has the trimmed part equal to `Trim`.
- `Extract` (`extract.dfy`): `extract_test_dates`. There is no HTML here. A
  page is a `Document`: its text, plus what the parser finds in it. That is
  either the table's rows, no table, or a parser failure. A `Row` carries
  the text of its `th scope="row"` cell, if it has one. The row loop is the
  method `CollectDates`, proved equal to the function `TableDates`. The
  lemmas about `DatesOf` state the filter's behaviour: the header is
  skipped, order and duplicates are kept, and a skipped row has no effect
  on the other rows.
- `Notification` (`notification.dfy`): the "Current Test Dates" field,
  `"\n".join(f"• {date}" for date in dates)`. It is checked against a
  newline splitter, `SplitLines`, with round trips in both directions.
- `Monitor` (`monitor.dfy`): the branch taken by `main`. `Decide` is the
  total function and `RunOnce` the method that sequences fetch outcome,
  extraction and decision. The threshold is a parameter; the constant
  `DateThreshold` holds the configured value 7.

The script looks the dates table up with a single selector (a `table`
whose class attribute is `cb-table cb-no-margin-top`), with no fallback,
and sends to a single webhook, once, without retrying. It keeps nothing between runs. An
empty extraction ends the run early, before the threshold test.

## Model

| member | source | states |
|---|---|---|
| Text.IsSpace | sat_monitor.py:73-74 | the whitespace that `str.strip()` removes: exactly the 29 code points Python's `str.isspace` accepts (the definition; `IsDigit` and the trim lemmas state its consequences) |
| Text.IsDigit | sat_monitor.py:73 | the `isdigit` test of the digit check, restricted to `'0'..'9'`; a digit is never whitespace |
| Text.HasDigit | sat_monitor.py:73 | the `any(char.isdigit() for char in ...)` test over the unstripped cell text (the definition); `TrimKeepsDigits` states that it survives stripping and `RowDate` that it decides whether a row yields a date |
| Text.TrimStart | sat_monitor.py:73-74 | the leading half of `.strip()`: never longer than its input, and empty or starting with a non-whitespace character (`TrimStartSplits` gives the removed blank prefix) |
| Text.TrimEnd | sat_monitor.py:73-74 | the trailing half of `.strip()`: never longer than its input, empty or ending with a non-whitespace character, and starting where its input starts (`TrimEndSplits` gives the removed blank suffix) |
| Text.Trim | sat_monitor.py:73-74 | `.strip()`: never longer than the cell text and with no whitespace at either end; `TrimSplits` and `TrimUnique` characterise it completely |
| Text.TrimStartSplits | sat_monitor.py:73 | stripping the front removes a blank prefix and leaves a text that is empty or starts with a non-whitespace character |
| Text.TrimEndSplits | sat_monitor.py:73 | stripping the back removes a blank suffix and leaves a text that is empty or ends with a non-whitespace character |
| Text.TrimSplits | sat_monitor.py:73-74 | the stripped text is an infix of the cell text with only whitespace before and after it, and has no whitespace at either end |
| Text.TrimUnique | sat_monitor.py:73-74 | strip is determined by its meaning: for any blank prefix, trimmed middle and blank suffix, stripping their concatenation gives the middle |
| Text.TrimIdempotent | sat_monitor.py:74 | stripping an already stripped text changes nothing |
| Text.TrimKeepsDigits | sat_monitor.py:73-74 | a text contains a digit exactly when its stripped form does; the digit test on the unstripped text carries over to the stored text |
| Text.DigitNotBlank | sat_monitor.py:73 | a text with a digit never strips to the empty string |
| Extract.RowDate | sat_monitor.py:72-74 | a row yields a date exactly when it has a `th scope="row"` cell whose text has a digit; the date is the stripped text |
| Extract.DigitSurvivesTrim | sat_monitor.py:73-74 | a cell text that passes the digit test strips to a non-empty, stripped text that still has a digit |
| Extract.DatesOf | sat_monitor.py:69-74 | a run of body rows yields at most one date per row |
| Extract.DatesOfAreDates | sat_monitor.py:73-74 | every extracted date is non-empty, equal to its stripped form, and contains a digit |
| Extract.TableDates | sat_monitor.py:66-70 | a table of 0 or 1 rows yields no date; otherwise there are fewer dates than rows; every date is well formed |
| Extract.ExtractedDates | sat_monitor.py:49-80 | whatever the page, every returned date is well formed |
| Extract.DatesOfAppend | sat_monitor.py:69-74 | rows are handled independently and in order: the dates of two runs of rows are the first run's dates followed by the second's, duplicates kept |
| Extract.DatesOfSnoc | sat_monitor.py:70-74 | one more row appends its stripped cell text when it qualifies, and nothing otherwise |
| Extract.RowContribution | sat_monitor.py:72-74 | removing a row that yields nothing (no cell, blank, no digit) leaves the result unchanged; a qualifying row puts its date exactly at its own position |
| Extract.DatesOfMembership | sat_monitor.py:70-74 | a text is among the dates exactly when some body row yields it |
| Extract.DatesOfSubsequence | sat_monitor.py:69-74 | the dates are a subsequence, in row order, of the stripped cell texts of the body rows |
| Extract.HeaderIgnored | sat_monitor.py:70 | two tables that differ only in their first row have the same dates, namely those of the body rows |
| Extract.CollectDates | sat_monitor.py:66-77 | the append loop over `rows[1:]` returns exactly `TableDates(rows)` |
| Extract.ExtractTestDates | sat_monitor.py:49-80 | an absent or empty page, a missing table and a parser failure give the empty list; a found table gives its body rows' dates |
| Notification.BulletLine | sat_monitor.py:97 | `f"• {date}"` (U+2022 and a space before the date): two characters longer than the date, holding a line break exactly when the date does, and ending as the date ends |
| Notification.JoinLines | sat_monitor.py:97 | `"\n".join(lines)`: empty for no lines, the line itself for one line, and starting with the first line otherwise; with `JoinAppend` this fixes it for all lines (two non-empty runs join with one newline between them); `SplitJoin`, `JoinSplit` and `JoinEndsWithLast` relate it to `SplitLines` for newline-free lines |
| Notification.BulletField | sat_monitor.py:97 | the value of the "Current Test Dates" field: empty exactly when there are no dates, otherwise starting with the bullet and ending with the last date; `BulletFieldLines` gives its lines |
| Notification.SplitLines | sat_monitor.py:97 | a reference splitter equal to Python's `s.split("\n")`, which the source never calls: it is only the inverse the line-97 join is checked against; it gives at least one piece and no piece holds a newline |
| Notification.JoinAppend | sat_monitor.py:97 | for any two non-empty runs of lines, whatever they hold, the join of both is the join of the first, one newline, and the join of the second |
| Notification.SplitJoin | sat_monitor.py:97 | splitting the newline join of one or more newline-free lines gives back those lines |
| Notification.JoinSplit | sat_monitor.py:97 | joining the lines of any text with newlines gives back the text |
| Notification.JoinEndsWithLast | sat_monitor.py:97 | for one or more lines, the joined text ends with the last line, so nothing is added after it |
| Notification.BulletFieldLines | sat_monitor.py:97 | the field has one line per date, in list order, each `"• "` followed by the date, when no date holds a newline |
| Monitor.DateThreshold | sat_monitor.py:22 | `DATE_THRESHOLD = 7` (the constant); `EightDatesExample` states its effect: eight dates alert, seven do not |
| Monitor.Fetched | sat_monitor.py:140 | the truthiness test `if html_content`: the fetch returned a text and it is non-empty (the same test as `if not html_content` at line 51, negated); `Decide` states what each outcome of it leads to |
| Monitor.Decide | sat_monitor.py:140-153 | an alert is sent exactly when the fetch gave a non-empty page, the list is non-empty and longer than the threshold, and it carries the list; a failed fetch, an empty list and a list of at most the threshold each have their own outcome |
| Monitor.RunOnce | sat_monitor.py:133-155 | one run's outcome is the decision on the dates extracted from the page; an alert carries more dates than the threshold, all well formed |
| Monitor.ThresholdBoundary | sat_monitor.py:149-153 | with a page and dates, exactly `threshold` dates do not alert and `threshold + 1` dates do |
| Monitor.EightDatesExample | sat_monitor.py:22 | with the configured threshold 7, eight dates alert and seven do not; eight dates against threshold 8 do not |
| Monitor.AlertNeedsTable | sat_monitor.py:140-153 | an alert needs a fetched page whose dates table has more body rows than the threshold, header excluded |
| Monitor.AlertFieldEnd | sat_monitor.py:97 | when the last date is well formed, as every extracted date is, the field ends with a non-whitespace character, so never with a newline, whatever newlines the dates hold inside |
| Monitor.AlertFieldLines | sat_monitor.py:97 | the alert's date field lists each alerted date on its own bullet line, in order, when no date has a line break inside |

## Left out

- `fetch_page` (sat_monitor.py:25-46) is network I/O. Its outcome is an input: `None` for a failed request, or a `Document`.
- The webhook POST and the `True`/`False` result of `send_discord_notification` (sat_monitor.py:118-130) are network I/O. `main` ignores that result.
- BeautifulSoup parsing and lookup (sat_monitor.py:56, 59, 66, 72) are foreign library calls. They are replaced by the `TableLookup` and `Row` values a parser would produce.
- A cell's `.text` is given directly as a string. How bs4 joins nested text is not modelled.
- The catch-all `except` of `extract_test_dates` (sat_monitor.py:78-80) is modelled only as the `ParseError` lookup, which gives the empty list. An exception in the middle of the row loop would give the same result. That case is covered by `ParseError` and is not modelled separately.
- Logging (sat_monitor.py:9-17 and the log calls) is a side effect only.
- Every alert payload part other than the dates field is left out (sat_monitor.py:89-115). Title, colour, URL field and footer are fixed text, the timestamp is the wall clock, and the description only repeats the date count and the threshold. None of them is modelled.
- The page URL and webhook URL (sat_monitor.py:20-21) are configuration. The threshold is a parameter of `Decide` and `RunOnce`.
- Extract.RowDate: only `'0'..'9'` count as digits. Python's `str.isdigit` also accepts other Unicode digits, such as Arabic-Indic digits or superscripts. A cell whose only digits are of that kind is kept by the source but skipped by the model.
- Notification.BulletFieldLines: the one-line-per-date property requires that no date contains a newline. Stripping removes only leading and trailing whitespace, so a cell text with an inner line break gives one date spread over several lines of the field. The model describes the code as written; it does not exclude such dates.
