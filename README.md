# SAS form automator — verified model of its core

This project models the logic of `SASFormAutomator` in `sas_automation.py`,
the object that reads student rows from a spreadsheet and submits one web
form per student. The model covers three parts:

- **Row reader** (`read_excel`). The workbook is a header row plus data rows of
  cells. A cell is None, a string, an int or a bool. Columns are found by exact
  header equality, and each field is read behind a guard. Blank rows and rows
  without a certificate link are skipped. The Badge Opt-In value collapses to
  `"yes"` or `"no"`.
- **Browser fallback** (`setup_driver`). The method builds a try-list from the
  browser choice, walks it, and keeps the first browser that starts. If none
  starts, it raises with the last error. Starting a browser is an oracle that
  gives, per browser name, a session or an error. A second oracle says whether
  maximising a Firefox window fails.
- **Form filling** (`fill_form`). This part returns the outcome record
  (Success/Failed), types into the first three text inputs in field order, and
  picks the `Y#1`/`N#2` radio. The page is an oracle: it reports the number of
  text inputs and which step, if any, raises. The browser calls made are
  returned as a list of actions.

Files: `optional.dfy` (Option), `python_values.dfy` (Python truthiness, `str()`,
`strip()`, `lower()`, int rendering), `selection.dfy` (an order-preserving
filter), `row_reader.dfy`, `browser_setup.dfy`, `form_fill.dfy`,
`automator.dfy` (the class with the `driver` and `browserName` fields that
`setup_driver` and `fill_form` update in place).

Headers are matched by exact equality with six literal labels
(sas_automation.py:150-162). There is no case folding, trimming or substring
matching, so "first name" or " Email" matches no column.

## Model

| member | source | states |
|---|---|---|
| PyValues.Strip | sas_automation.py:169-178 | `str.strip()`: the result has no whitespace at either end. It is empty exactly when the input is all whitespace (Python's `isspace` set). Stripped input comes back unchanged. |
| PyValues.StripPadded | sas_automation.py:186 | Stripping any whitespace padding around a stripped core returns exactly that core. |
| PyValues.Lower | sas_automation.py:186 | `lower()` keeps the length, maps each character by `LowerChar`, and leaves no ASCII capital. |
| PyValues.NatToDecimal | sas_automation.py:169-178 | `str()` of a non-negative int: at least one digit, all digits, and a leading zero only for 0. |
| PyValues.IntDecimalRoundTrip | sas_automation.py:169-178 | `str()` of an int cell reads back as the same int, so rendering loses nothing. |
| PyValues.NonTextRendersStripped | sas_automation.py:169-188 | A None, int or bool cell renders as non-empty text that `strip()` leaves unchanged. |
| PyValues.Truthy | sas_automation.py:169-178 | Python truthiness of a cell: None, "", 0 and False are falsy. It is the last part of each field guard. |
| PyValues.IsSpace | sas_automation.py:169-188 | The characters `str.strip()` removes: Python's `isspace` set (tab to carriage return, 0x1C-0x1F, space, U+0085, U+00A0, U+1680, U+2000-U+200A, U+2028, U+2029, U+202F, U+205F, U+3000). |
| PyValues.Str | sas_automation.py:169-188 | `str()` of a cell: "None", the text itself, the decimal int with a leading '-' for negatives, or "True"/"False". |
| RowReader.LastIndex | sas_automation.py:150-162 | The column of a label is the last header cell exactly equal to it. None means no header cell equals it. |
| RowReader.FindColumns | sas_automation.py:148-162 | The header loop gives, for each of the six labels, the last matching column (later duplicates win). |
| RowReader.UnmatchedHeaderIgnored | sas_automation.py:150-162 | A header cell that equals none of the six labels changes no column. |
| RowReader.Field | sas_automation.py:169-178 | A field is the literal default when the column is missing, past the row's end, or holds a falsy cell. It is stripped whenever the default is. |
| RowReader.RecordFields | sas_automation.py:169-203 | Each field of an emitted record is `str(cell).strip()` of a readable cell, else "Unknown", "User", "noemail@example.com" or "". The link is the stripped link cell; the badge follows the badge rule. |
| RowReader.WhitespaceNameBecomesEmpty | sas_automation.py:169-170 | A first-name cell of only whitespace is truthy, so the name becomes "", not "Unknown". |
| RowReader.Badge | sas_automation.py:181-188 | The badge is always "yes" or "no". It is "yes" for the blank raw values None, "", " ", "None" and "none". |
| RowReader.RawBadge | sas_automation.py:181-182 | The raw badge value: the cell when the column exists and lies inside the row, else None. Truthiness plays no part. |
| RowReader.IsBlankBadge | sas_automation.py:183 | The blank badge values: None, "", " ", "None" and "none", compared exactly. |
| RowReader.BadgePaddedToken | sas_automation.py:183-188 | A non-blank text badge is "yes" exactly when its whitespace-stripped core, lower-cased, is one of yes, y, 1, true, ok. |
| RowReader.BadgeOfNonText | sas_automation.py:183-188 | An int or bool badge is "yes" exactly when its rendering, lower-cased, is a yes token. |
| RowReader.BadgeUpperNoneIsNo | sas_automation.py:183-188 | "NONE" is not a blank value (the test is case sensitive) and gives "no". |
| RowReader.BadgeSpacesEdge | sas_automation.py:183-188 | Two spaces give "no" and a single space gives "yes". |
| RowReader.BadgeOfInt | sas_automation.py:183-188 | An int badge cell gives "yes" exactly for the number 1. |
| RowReader.BadgeOfBool | sas_automation.py:183-188 | A bool badge cell gives "yes" for True and "no" for False. |
| RowReader.NormalizeRow | sas_automation.py:164-203 | Every record a row yields is well formed: no field has whitespace at its ends, the link is non-empty, and the badge is "yes" or "no". |
| RowReader.RecordExactlyWhenLinked | sas_automation.py:165-193 | A row yields a record exactly when it is not all None and its link cell is readable and not all whitespace. |
| RowReader.Normalize | sas_automation.py:164-203 | There are no more records than data rows, and every record is well formed. |
| RowReader.NormalizeSelectsInOrder | sas_automation.py:164-203 | The k-th record comes from data row RecordRows[k], and those rows strictly increase. Every row that yields a record is included, so records keep sheet order, one per row. |
| RowReader.ReadRows | sas_automation.py:164-206 | The row loop returns exactly the records of `Normalize` over the data rows (header row excluded). |
| RowReader.ReadExcel | sas_automation.py:136-210 | A workbook that fails to load gives the empty list. Otherwise the result is the normalised data rows under the header's columns. |
| RowReader.ReadExcelRecordsWellFormed | sas_automation.py:164-203 | Every record returned has a non-empty certificationLink and a badgeOptIn of "yes" or "no". Record k is the record of data row RecordRows[k], and those row indices strictly increase. So no data row gives two records, and sheet order is kept. |
| RowReader.ExampleRow | sas_automation.py:169-203 | Take a row laid out as First Name, Last Name, Email, Certificate Link, with an empty first name and any non-empty stripped last name, email and link. With no Certificate Name or Badge Opt-In column, it gives ("Unknown", last name, email, "", link, "yes"). |
| Selection.KeepSelectsInOrder | sas_automation.py:164-203 | An append-or-skip loop keeps, in order, exactly the elements that yield a result. |
| BrowserSetup.TryList | sas_automation.py:55-60 | "auto" tries exactly chrome, edge, firefox in that order. Any other choice tries just itself. |
| BrowserSetup.TryBrowser | sas_automation.py:64-129 | A name with no branch changes nothing and raises nothing. A failed launch keeps the fields and reports its error. A success sets the driver and the display name. |
| BrowserSetup.FailureMessage | sas_automation.py:131-134 | The error raised when no browser starts: "Failed to launch any browser. Last error: " followed by the last error, or "None" when there was none. |
| BrowserSetup.Walk | sas_automation.py:64-134 | The loop over the browsers still to try: it stops at the first attempt that raises nothing, and otherwise carries the fields and the last error on to the next browser. When the list runs out, it raises FailureMessage of the last error. |
| BrowserSetup.Setup | sas_automation.py:51-134 | `setup_driver`: Walk over TryList of the choice, starting from the current fields with no last error. |
| BrowserSetup.WalkRaisesIffAllFail | sas_automation.py:64-134 | The setup raises exactly when every browser on the list fails. Its error is "Failed to launch any browser. Last error: " plus the last attempt's error. |
| BrowserSetup.WalkFirstSuccess | sas_automation.py:64-124 | The first browser that starts stops the walk and leaves its session and name in the fields. |
| BrowserSetup.SetupAuto | sas_automation.py:55-134 | "auto" gives Chrome if it starts, else Edge, else Firefox (if it starts and maximises). Otherwise it raises with Firefox's error. |
| BrowserSetup.SetupUnrecognised | sas_automation.py:57-124 | An unknown choice returns without raising and leaves the driver and name unchanged (None on a fresh object). |
| BrowserSetup.SetupFirefoxMaximizeFails | sas_automation.py:86-134 | If Firefox starts but maximising fails, the driver field keeps the new driver, the name is unchanged, and the setup raises. |
| Automator.Automator.constructor | sas_automation.py:28-43 | A new object holds the choice, with no driver, no browser name and no session quit yet. |
| Automator.Automator.SetupDriver | sas_automation.py:51-134 | The loop leaves the fields and raised error exactly as `Setup` specifies for the old fields. |
| Automator.Automator.FillForm | sas_automation.py:212-299 | With no driver, the browser is set up first. The outcome and actions are `Fill` of the record, the page, and the setup's result. |
| Automator.Automator.CloseDriver | sas_automation.py:301-308 | `quit` is called on the driver's session exactly when there is a driver. The call is appended to the record of quit sessions. The driver and browser name fields stay as they were, so a later FillForm finds a driver, skips the setup and uses the session already quit. |
| Automator.ReadRecordFilled | sas_automation.py:224-281 | A reader record on a cooperative page succeeds. It opens its non-empty link and clicks Y#1 for "yes" and N#2 for "no". |
| FormFill.RadioTarget | sas_automation.py:248 | The radio target is "Y#1" exactly when badgeOptIn is "yes"; otherwise it is "N#2". |
| FormFill.Typed | sas_automation.py:240-245 | Typing into the first n inputs sends field j of the record to input j, in order. |
| FormFill.OutcomeShape | sas_automation.py:214-299 | The outcome copies email, firstName, lastName and certificationName. Its status is "Success" with "Completed successfully", or "Failed" with "Failed: " plus the error raised. A setup error gives "Failed: " + that error. A missing driver after setup gives "Failed: 'NoneType' object has no attribute 'get'". Otherwise the message carries the error of the attempt step that raised. |
| FormFill.SuccessExactly | sas_automation.py:212-281 | Success happens exactly when setup raised nothing, a driver exists and every page step succeeds. The calls are then: open the link, type first name, last name and email into inputs 0-2, click the radio, click Submit. |
| FormFill.TooFewInputsFails | sas_automation.py:234-238 | Fewer than 3 text inputs fail with "Expected at least 3 text fields, found: n", before anything is typed. |
| FormFill.TypingInFieldOrder | sas_automation.py:240-245 | Whatever fails, input j receives only field j (first name, last name, email), right after the link is opened. |
| FormFill.Attempt | sas_automation.py:224-281 | One attempt on a running browser. It opens the link and raises the load error, or the too-few-inputs error when there are fewer than 3 text inputs. It then types the fields in order up to a typing fault, clicks the badge radio, and clicks Submit. It stops at the first step that raises. |
| FormFill.OutcomeOf | sas_automation.py:274-299 | The returned dictionary: email, names and certificate name copied from the record. Status is "Success" with "Completed successfully", or "Failed" with "Failed: " and the error. |
| FormFill.Fill | sas_automation.py:212-299 | `fill_form` after any setup. A setup error comes first. Then a missing driver fails with "'NoneType' object has no attribute 'get'". Otherwise the result is the attempt. On failure with a driver present, a screenshot named from the email follows. |
| FormFill.RadioMatchesBadge | sas_automation.py:248-258 | Every radio click targets "Y#1" for a yes badge and "N#2" otherwise. |
| FormFill.ScreenshotOnFailure | sas_automation.py:283-291 | A screenshot is taken exactly when the attempt failed with a driver present, and it is the last call. |
| FormFill.ScreenshotNameShape | sas_automation.py:288-289 | The screenshot file is "ERROR_" + email + ".png" with every '@' replaced by '_'. |
| FormFill.ReplaceAt | sas_automation.py:289 | `replace('@', '_')` keeps the length and changes only '@' characters. |

## Left out

- `log` and the `logs` list: messages carry wall-clock timestamps and are printed. No behaviour depends on them.
- `save_results` and `__del__`: file I/O and interpreter cleanup. The `results` and `stop_flag` fields are set in `__init__`, and no core method updates them. `close_driver` swallows any exception `quit` raises; the model records the quit call whether or not it succeeds.
- Workbook loading (`openpyxl.load_workbook`, `workbook.active`): the model takes the loaded sheet, or None when loading raised, as a parameter.
- Cell kinds other than None, str, int and bool (floats, dates, formulas) are not modelled.
- PyValues.Lower: maps only ASCII capitals and U+212A KELVIN SIGN, the characters whose lower case is ASCII. Other characters are left unchanged, which cannot change whether a string equals one of the ASCII yes tokens.
- Browser launching, driver options, `execute_script`, waits, sleeps and scrolling are foreign calls. The model replaces them with the launch, maximise and page oracles. The hide-`webdriver` script's errors are swallowed in the source, so they do not appear.
- Screenshot failures are swallowed in the source. The model records the screenshot call whether or not it succeeds.
- `fill_form` is given a reader record, so every key it reads is present. A dictionary with missing keys (KeyError paths) is not modelled.
- `__init__` calls `setup_driver` right away. In the model, the constructor sets the fields and the caller runs `SetupDriver`.
- sas_web_app.py (UI, background thread, packaging) and test_sas_forms.py (a manual script with its own, different badge rule) are not part of this model.
- sas_automation.py has no retry, checkpointing or worker pool. Each record is attempted once, in order, by `fill_form`.
