# Milk receipt calculator — Dafny model

This project models the pure core of `script.js`, the single script of a browser page
that prepares a monthly milk-delivery receipt. The user types:

- a billed-to name;
- a date range;
- a count of skipped days;
- a tax rate;
- for cow milk and for buffalo milk, whether it was delivered, a quantity and a price per litre.

The page then shows a receipt preview. It checks the form before exporting and prints the
page under a file name derived from the billed-to name.

The model keeps the computations and drops the page. Every read of a form field becomes a
parameter, and every write to the preview is left out. The modules follow the script's
functions:

| module | models |
|---|---|
| `Calendar` | calendar dates: day numbers, UTC-midnight time values, next and previous day |
| `DayCount` | `daysBetweenInclusive`, on millisecond time values, and what it does with empty date fields |
| `IsoDate` | the `toIso` formatter and the `YYYY-MM-DD` form `new Date(string)` reads |
| `DefaultRange` | `setPreviousMonthDates` and the `Date(year, monthIndex, day)` normalisation it relies on |
| `LineItems` | `getMilkRows` |
| `Totals` | the arithmetic of `calculate` |
| `Validation` | `validate`: the six checks, their order and their messages |
| `Text` | `String.prototype.trim`, the `\s` class, `toLowerCase` |
| `Filename` | `sanitizeFilename` and the two `"receipt"` fallbacks of `handleDownload` |
| `Receipt` | the form-to-figures step of `calculate`, the verdict of `validate`, the title `handleDownload` prints under |

The model makes these choices:

- Amounts, quantities, the tax rate and the skipped-day count are exact `real`s. `Number()`
  of a form field can be fractional, so skipped days are reals as well.
- Dates are proleptic Gregorian `(year, month, day)` triples. Their day number counts from
  0001-01-01. `new Date("YYYY-MM-DD")` is UTC midnight of that day, and the model computes
  `daysBetweenInclusive` on those millisecond values exactly as the script does.
- The whitespace that `trim` strips and that `\s` matches is the fixed ECMAScript set: the
  WhiteSpace and LineTerminator code points.

## Model

| member | source | states |
|---|---|---|
| `Calendar.DayNumberOrder` | script.js:41-47 | Calendar order of two valid dates is the order of their day numbers, and equal day numbers mean equal dates; the day counter relies on this when it subtracts time values. |
| `Calendar.NextDayNumber` | script.js:47 | The next day of a valid date is valid and its day number is one more: a whole day of milliseconds adds one to the count. |
| `Calendar.PrevDayNumber` | script.js:221 | The day before a valid date is valid, one day number lower, and its next day is the date again; `Date(y, m, 0)` depends on this. |
| `Calendar.EpochDay` | script.js:42-45 | 1970-01-01 is at time value 0, the origin of the millisecond values being subtracted. |
| `DayCount.DaysBetweenInclusiveMs` | script.js:45-47 | On millisecond values the count is 0 for an end before the start, and otherwise the n for which the difference is at least n - 1 and less than n whole days. |
| `DayCount.DaysBetweenInclusive` | script.js:41-48 | On two picked dates the count is 0 when `to` is before `from`, and otherwise the difference of their day numbers plus one. |
| `DayCount.DaysBetweenZeroIffReversed` | script.js:46 | The count is 0 exactly when the end date is earlier than the start date, and it is never negative. |
| `DayCount.DaysBetweenSingleAndNext` | script.js:45-47 | A single-day period counts 1, and moving the end one day later adds exactly one day. |
| `DayCount.DaysBetweenWithinMonth` | script.js:41-48 | From the 1st to the k-th of one month the count is k. |
| `DayCount.DaysBetweenFieldsAsWritten` | script.js:42-47 | As written, the count is NaN exactly when a date field is empty, because the `isNaN` guard never fires; otherwise it is the inclusive count. |
| `DayCount.EmptyFieldGivesNaN` | script.js:44 | An empty "from" field gets past the guard and yields NaN, not 0. |
| `DayCount.DaysBetweenFields` | script.js:44 | With the guard working as intended, the count is 0 while a field is empty, never negative, and the inclusive count otherwise. |
| `DayCount.DaysBetweenFieldsAgree` | script.js:41-48 | The corrected count equals the written one wherever the written one is a number, and is 0 where it is NaN. |
| `IsoDate.ParseIsoDate` | script.js:42-43 | Only a ten-character string of three digit fields `DDDD-DD-DD` with a real month and day is read as a date, with a year in 0..9999; every other string reads as nothing. |
| `IsoDate.NatToDecimal` | script.js:223-226 | `String(n)` of a non-negative number is at least one character long and made only of decimal digits. |
| `IsoDate.PadStart2` | script.js:223-226 | `padStart(2, "0")` gives at least two characters, ends with the original string, and everything before it is `0`. |
| `IsoDate.ToIso` | script.js:222-226 | `toIso` writes the year's decimal form, a hyphen, two digits that read back as the month, a hyphen, and two digits that read back as the day. |
| `IsoDate.DecimalRoundTrip` | script.js:223-226 | Reading back the decimal digits that `String(n)` writes gives n. |
| `IsoDate.PaddedRoundTrip` | script.js:223-226 | `padStart(2, "0")` of a month or day from 1 to 99 gives two digits that read back as the same number. |
| `IsoDate.IsoRoundTrip` | script.js:222-226 | A date written by `toIso`, for a four-digit year, reads back as the same date. |
| `IsoDate.DecimalCanonical` | script.js:223 | A digit string without a leading zero is exactly how `String` writes its value. |
| `IsoDate.PaddedCanonical` | script.js:223-226 | Two digits with a non-zero value are exactly what padding that value's decimal form gives. |
| `IsoDate.ParseThenPrint` | script.js:222-226 | A date-only string with a four-digit year that is read as a date is exactly what `toIso` writes for that date. |
| `IsoDate.ParseIffPrinted` | script.js:222-226 | For four-digit years, a string is read as a date exactly when it is what `toIso` writes for that date. |
| `IsoDate.ExampleParse` | script.js:42-43 | `2024-02-29` is read as 29 February 2024. |
| `IsoDate.ExampleToIso` | script.js:222-226 | 29 February 2024 is written `2024-02-29`. |
| `DefaultRange.FullYear` | script.js:220-221 | The `Date(year, monthIndex, day)` constructor reads a year of 0..99 as 1900 plus that year and every other year as it is. |
| `DefaultRange.FirstOfMonth` | script.js:220 | `new Date(y, monthIndex, 1)` is a valid first of a month, exactly `monthIndex` months after January of the constructor's year. A month index in 0..11 selects that month, and index -1 selects December of the year before. |
| `DefaultRange.DayZero` | script.js:221 | `new Date(y, monthIndex, 0)` is a valid date exactly one day before the first of month `monthIndex`. |
| `DefaultRange.PreviousMonth` | script.js:220-221 | The month before `(year, month)` is a month 1..12 exactly one month earlier in the count of months. |
| `DefaultRange.PreviousMonthRange` | script.js:218-221 | The default period starts on the 1st and ends on the last day of the previous month, with January wrapping to December of the year before. It is ordered, and its inclusive count is that month's length. |
| `DefaultRange.SetPreviousMonthDates` | script.js:218-229 | For four-digit years the two strings written into the date fields read back as the first and the last day of the previous month. |
| `DefaultRange.SetPreviousMonthDatesCountsMonth` | script.js:218-229 | The two strings written into the date fields read back as dates, and the day counter gives the previous month's length for them. |
| `DefaultRange.ExampleLeapFebruary` | script.js:218-221 | In March 2024 the default period is 1 to 29 February 2024. |
| `DefaultRange.ExampleCommonFebruary` | script.js:218-221 | On 1 March 2023 the default period is 1 to 28 February 2023. |
| `DefaultRange.ExampleTwoDigitYear` | script.js:218-221 | In March of year 24 the constructor reads the year as 1924, so the default period is February 1924. |
| `DefaultRange.ExampleJanuaryWraps` | script.js:218-229 | In January 2025 the default period is December 2024, written `2024-12-01` and `2024-12-31`. |
| `LineItems.Max0` | script.js:53-54 | `Math.max(0, x)` is non-negative, at least x, and either x or 0. |
| `LineItems.MakeItem` | script.js:53-63 | A line has its quantity and price clamped at 0, and its total is their product. |
| `LineItems.GetMilkRows` | script.js:50-79 | There is one line per enabled milk type and no other. Each line is built from its own row, and cow comes before buffalo. |
| `LineItems.DisabledRowIgnored` | script.js:52-77 | The quantity and price of a disabled row never affect the lines. |
| `LineItems.CowLineFirst` | script.js:52-64 | An enabled cow row always gives the first line. |
| `LineItems.BothRowsInOrder` | script.js:50-79 | With both types enabled the lines are exactly cow then buffalo. |
| `LineItems.ExampleCowOnly` | script.js:52-64 | 10 L of cow milk at 65 gives a 650 line; a negative quantity is clamped to 0. |
| `Totals.ComputeTotals` | script.js:107-115 | Skipped days and tax rate are clamped at 0. Billable days are non-negative, at most the period, and positive exactly when the period exceeds the skipped days, in which case billable plus skipped days equal the period. The subtotal is the sum of line totals, the tax is subtotal times rate over 100, and the total is subtotal plus tax. A non-negative subtotal gets a non-negative tax and a total no smaller than the subtotal. |
| `Totals.Subtotal` | script.js:113 | The reduce-sum of no lines is 0, of one line is its total, and of lines with non-negative totals is non-negative. |
| `Totals.SubtotalAppend` | script.js:113 | The reduce-sum of two lists of lines is the sum of their reduce-sums. |
| `Totals.SubtotalPositive` | script.js:113 | A non-empty list of priced lines, each with quantity and price above 0, has a positive subtotal. |
| `Totals.ExampleTwoLinesAtFivePercent` | script.js:113-115 | Lines of 650 and 280 at 5% give subtotal 930, tax 46.5 and total 976.5. |
| `Validation.Message` | script.js:145-162 | The message of every failure, one of the strings the script returns, is non-empty, so it never reads as the empty success result. |
| `Validation.Validate` | script.js:143-164 | A reported error is a check that fails and every earlier check passed. No error is reported exactly when all six checks pass. |
| `Validation.ValidationMessage` | script.js:143-164 | `validate` returns the empty string exactly when no check fails, and otherwise the message of the first failure. |
| `Validation.FirstFailure` | script.js:145-163 | An independent reference for the same chain: no verdict exactly when every check in the list passes, and otherwise the error of a check that failed while every check before it in the list passed. |
| `Validation.ValidateIsFirstFailure` | script.js:143-164 | The nested conditionals give the same verdict as the first failing check in the ordered list. |
| `Validation.ValidIff` | script.js:145-163 | The form passes exactly when all hold: the trimmed name is non-empty, both dates are present, total and billable days are positive, and at least one line exists with every line's quantity and price above 0. |
| `Validation.BlankNameWins` | script.js:145-147 | A blank or whitespace-only name is the error reported, whatever else the form holds. |
| `Validation.LaterErrorMeansEarlierPassed` | script.js:145-162 | Each error after the first is reported only when every earlier check passed. |
| `Validation.ValidImpliesPositiveSubtotal` | script.js:157-163 | A passing snapshot with priced lines has a positive subtotal. |
| `Validation.MissingDateIgnoresDayCounts` | script.js:148-150 | With a date field empty, the day figures do not affect the verdict. |
| `Text.WhitespaceListed` | script.js:174-176 | The whitespace test holds exactly for the 25 listed WhiteSpace and LineTerminator code points. |
| `Text.TrimStart` | script.js:174 | Trimming the start leaves a suffix that is empty or starts with a non-blank character. |
| `Text.TrimStartDropsWhitespace` | script.js:174 | Everything trimmed from the start is whitespace. |
| `Text.TrimEnd` | script.js:174 | Trimming the end leaves a prefix that is empty or ends with a non-blank character. |
| `Text.TrimEndDropsWhitespace` | script.js:174 | Everything trimmed from the end is whitespace. |
| `Text.Trim` | script.js:174 | `trim` is empty exactly when the string is blank, and otherwise neither starts nor ends with whitespace. |
| `Text.TrimPadded` | script.js:174 | A core that neither starts nor ends with whitespace comes back from any whitespace padding on either side. |
| `Text.TrimIdempotent` | script.js:174 | Trimming twice is trimming once. |
| `Text.LowerChar` | script.js:177 | An upper-case ASCII letter becomes its lower-case letter (code point plus 32), every other character is unchanged, and no result is an upper-case ASCII letter. |
| `Text.ToLower` | script.js:177 | Lower-casing keeps the length and maps each character through `Text.LowerChar`. |
| `Text.ToLowerIdempotent` | script.js:177 | Lower-casing twice is lower-casing once. |
| `Text.ExampleTrim` | script.js:174 | `"  Asha \n"` trims to `"Asha"`. |
| `Text.ExampleTrimBlank` | script.js:145 | `" \t "` trims to the empty string. |
| `Filename.ForbiddenListed` | script.js:175 | The deleted characters are exactly the pattern's class; no whitespace character, period or hyphen is among them. |
| `Filename.RemoveForbidden` | script.js:175 | After deletion no forbidden character is left, and nothing at all is left exactly when every character was forbidden. |
| `Filename.RemoveForbiddenAppend` | script.js:175 | Deletion works character by character in place: on a concatenation it is the concatenation of the deletions. |
| `Filename.RemoveForbiddenKeepsClean` | script.js:175 | A string without forbidden characters is left unchanged. |
| `Filename.CollapseWhitespace` | script.js:176 | Run replacement never lengthens the string and empties only the empty string. |
| `Filename.CollapseNoWhitespace` | script.js:176 | After run replacement no whitespace is left. |
| `Filename.CollapseKeepsWordChars` | script.js:176 | A string without whitespace is left unchanged. |
| `Filename.CollapseAppend` | script.js:176 | Replacement works piecewise wherever the split does not fall inside a whitespace run. |
| `Filename.CollapseRun` | script.js:176 | One whitespace run between two words, however long, becomes exactly one hyphen. |
| `Filename.Sanitize` | script.js:172-177 | The sanitised name has no forbidden character, no whitespace and no upper-case letter. It is empty exactly when the trimmed name consists only of forbidden characters. |
| `Filename.SanitizeTrimmed` | script.js:184-185 | Sanitising the trimmed name gives the same result as sanitising the raw name. |
| `Filename.SanitizeIdempotent` | script.js:172-177 | Sanitising a sanitised name changes nothing. |
| `Filename.CleanNameIsFixed` | script.js:172-177 | A name with no forbidden character, no whitespace and no upper-case letter is its own sanitised form. |
| `Filename.SanitizeFallback` | script.js:184-185 | The fallback `receipt` is already a sanitised name. |
| `Filename.ExportName` | script.js:184-185 | The export title is never empty and has no forbidden character, whitespace or upper-case letter. |
| `Filename.ExportNameFallback` | script.js:184-185 | The fallback applies exactly when sanitising the raw name leaves nothing. |
| `Filename.ExportNameIdempotent` | script.js:184-185 | Deriving a title from a title gives it back. |
| `Filename.ExampleSanitizeKeepsPeriod` | script.js:172-177 | `"My Name / Co."` becomes `"my-name-co."`: the slash is deleted and the period kept. |
| `Filename.ExampleTrimBeforeDelete` | script.js:174-176 | `"a /"` becomes `"a-"`: trimming happens before deletion, so the space before the slash becomes a hyphen. |
| `Filename.ExampleBlankFallback` | script.js:184 | A blank name exports as `receipt`. |
| `Filename.ExampleForbiddenFallback` | script.js:185 | A name of only forbidden characters exports as `receipt`. |
| `Receipt.TotalDays` | script.js:110 | The period's day count is never negative and is the inclusive count whenever both dates are present. |
| `Receipt.Calculate` | script.js:107-115 | Every line is priced. Billable days lie between 0 and the period. The subtotal is non-negative and no more than the total. There are lines exactly when some milk type is enabled. |
| `Receipt.ValidateForm` | script.js:143-164 | A blank name is reported first, then missing dates; a passing form has both dates and an enabled milk type. |
| `Receipt.DownloadTitle` | script.js:179-188 | A title exists exactly when validation passes, and it is then non-empty and free of forbidden characters and whitespace. |
| `Receipt.AcceptedFormFigures` | script.js:143-164 | A form that passes has a positive subtotal and total, at least one billable day, an ordered period and an enabled milk type. |
| `Receipt.NonPositiveEnabledRowRejected` | script.js:160-162 | An enabled cow row with quantity or price 0 or below blocks the export, even though clamping turned it into a 0 line. |
| `Receipt.AcceptedTitleFromName` | script.js:184-185 | On an accepted form the name is never blank, so the title is the sanitised name, or `receipt` when nothing is left. |
| `Receipt.ExampleFormFigures` | script.js:107-115 | February 2023 with 10 L of cow milk at 65 and no tax: 28 days and 650 due. |
| `Receipt.ExampleAcceptedForm` | script.js:143-164 | The example form is accepted. |

## Left out

- The page itself is left out: reading the DOM, writing the preview, `renderReceiptItems`,
  `handleSubmit`, the event wiring, `window.print`, the title restore in `setTimeout`, and
  the CSS class toggling. The model returns the values that would be written.
- `formatDate`, `currency`, the `"-"` and `"Select dates"` placeholders, and the pay-by date
  (the 5th of the current month) are display only and are left out.
- `new Date()` is the clock. `DefaultRange.PreviousMonthRange` and
  `DefaultRange.SetPreviousMonthDates` take the current date as a parameter.
- The model uses no IEEE doubles. Amounts are exact, and `toFixed(2)` rounding is not modelled.
- `Number()` coercion of field text is left out. Fields are already numbers. The empty
  field's `|| 0` default is the caller's, and a NaN from non-numeric text is not modelled.
- The `label` text of a line is represented by its milk type (`LineItems.Milk`). The
  duplicated `unit`, `pricePerL` and `enabled` fields of a line are left out.
- The default prices of 65 and 70 written into the price fields at start-up are left out:
  they are initial field values, not logic.
- Local time versus UTC is left out. `Date(y, m, d)` is local and `Date("YYYY-MM-DD")` is UTC.
  Each calendar date is therefore modelled directly, with no time zone offset and no daylight
  saving shift.
- Receipt.TotalDays: while a date field is empty the script's `totalDays` is NaN. The model
  uses the corrected count 0 (`DayCount.DaysBetweenFields`), which the validator never reads
  in that case (`Validation.MissingDateIgnoresDayCounts`).
- IsoDate.IsoRoundTrip: holds only for years 1000 to 9999. Other years are not in the
  four-digit date-only form, and the model does not follow the script outside it.
- DefaultRange.SetPreviousMonthDates: promises the read-back dates only when the previous
  month's year has four digits, for the same reason.
- DefaultRange.SetPreviousMonthDatesCountsMonth: requires the previous month's year to
  have four digits, for the same reason.
- IsoDate.ParseThenPrint: requires a four-digit year, because `toIso` writes shorter years
  without leading zeros.
- Text.ToLower: maps only the ASCII letters A-Z, through `Text.LowerChar`. Unicode case mapping of other letters is
  not modelled.

## Findings

| source | as written | input that shows it | evidently intended | confidence | as-written member | corrected member |
|---|---|---|---|---|---|---|
| script.js:44 | `Number.isNaN(start)` is applied to a `Date` object. `Number.isNaN` of any object is false, so an invalid date passes the guard and the count becomes `Math.floor(NaN / 86400000) + 1`, which is NaN. | an empty "from" field (`new Date("")`) | an invalid date gives a count of 0 | high; not executed | `DayCount.DaysBetweenFieldsAsWritten`, `DayCount.EmptyFieldGivesNaN` | `DayCount.DaysBetweenFields`, `DayCount.DaysBetweenFieldsAgree` |
