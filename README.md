# Licence expiry engine — a Dafny model

This project models the licence-expiry engine of a small Flask application
that tracks environmental licences (authority, type, number, expiry date) of
companies. The engine has two parts.

1. **The alert run** (`run_alerts`). It reads the threshold setting (a
   comma-separated list of day counts) and lists, for each threshold `t`, the
   licences expiring between today and today + `t` that have no
   `Notification(license_id, t)` row yet. It stops with "Nenhum alerta a
   enviar." when every list is empty. Otherwise it renders a digest
   (`format_digest`) and mails it through `send_email`. Only after the mail
   was sent does it add one `Notification` row per listed (licence,
   threshold) pair.
2. **The dashboard statistics** (`calc_stats`, `months_window`). One pass
   over the licences bumps these counters:
   - by status, by authority and by normalised type;
   - expiries per month;
   - types and days of month per month of a rolling 12-month window;
   - the number of licences expiring after 30 and after 60 days.

   The per-month expiry counts are then sorted by month, and the two SLA
   percentages are computed.

Beside these, the model covers `parse_date` (the form's date parser) and the
text primitives the engine relies on: `str.strip`, `str.split(',')`, `int()`,
`str.upper()`, and Python's `date` ordinals.

Modules, one per file:

| file | module | models |
|---|---|---|
| `dates.dfy` | `Dates` | Python `date`, `toordinal()`, month keys, `months_window` |
| `parsing.dfy` | `DateParsing` | `parse_date` (`strptime(s, '%Y-%m-%d')`) |
| `wrappers.dfy` | `Wrappers` | `Option`, Python's `None` or a value |
| `text.dfy` | `Text` | `strip`, `split(',')`, `join`, `int()`, `str()`, `upper()` |
| `thresholds.dfy` | `Thresholds` | the threshold setting: `sorted(set(int(x.strip()) …))` and its fallback |
| `licenses.dfy` | `Licenses` | the licence row and the normalised type key |
| `mail.dfy` | `Mail` | the settings row, recipient parsing and the outcome of `send_email` |
| `digest.dfy` | `Digest` | `format_digest`, line by line |
| `alerts.dfy` | `Alerts` | the selection, the ledger and `run_alerts`, as a class over the stored tables |
| `stats.dfy` | `Stats` | `calc_stats` |

Modelling choices:
- **Dates.** A date is a `CalendarDate` (year 1..9999, a real calendar day).
  `today + timedelta(days=t)` is compared through ordinals.
  `Dates.OrdinalIsCalendarOrder` shows that this is the calendar order.
  A sum outside 1..3652059 is Python's `OverflowError`. In `run_alerts` nothing
  catches it, so the run ends with `OverflowRaised`. In `calc_stats` the result
  is `None`.
- **Exceptions in a run.** Besides `OverflowRaised`, a run can end with
  `AddressErrorRaised`. `send_email` builds the `From` header with
  `formataddr` before its `try` (app.py:150), and `formataddr` raises
  `UnicodeEncodeError` for a sender address that is not ASCII. Nothing
  catches it, so the run raises and writes no row (`Mail.SendOutcome`,
  `Alerts.NonAsciiSenderRaises`).
- **The clock.** Every read of the clock is a parameter.
  - `run_alerts` and `calc_stats` each take `today`.
  - `months_window` reads the clock on its own, so `CalcStats` takes it
    separately as `windowDay`.
- **Month keys.** The source's `"YYYY-MM"` strings are `MonthKey(year,
  month)` values. They are ordered by year, then month, which is the string
  order for four-digit years.
- **The transport.** The SMTP session is a function parameter. It maps
  (settings, recipients, subject, digest lines) to `Delivered` or
  `Failed(reason)`. `Failed` stands for any exception raised inside the
  `try` of app.py:152-167.
- **The ledger.** The `Notification` table is a sequence. The source puts no
  uniqueness constraint on it, so "no row twice" is proved as an invariant
  (`AlertStore.Valid`) rather than assumed.
- **Percentages.** They are exact `real`s.
- **Blank threshold setting.** One might expect a blank setting to fall back
  to the default thresholds, but the code does not do that, and the model
  follows the code. A blank or all-comma threshold
  setting gives no thresholds at all (`Thresholds.BlankSettingHasNoThresholds`),
  and a run then finds nothing to send. Only a token that `int()` rejects
  gives the default `[15, 30, 60]` (app.py:186-188).

## Model

| member | source | states |
|---|---|---|
| `Dates.OrdinalIsCalendarOrder` | app.py:193-194 | comparing dates (`expiry_date >= today`, `<= limit`) is comparing their day ordinals, in both directions; dates are equal exactly when their ordinals are |
| `Dates.OrdinalRange` | app.py:193 | every date's ordinal lies in 1..3652059, the range outside which `today + timedelta(days=t)` raises |
| `Dates.Next` | app.py:85-86 | the month after a key is a valid month, later than it, and exactly one month on (year rolls over after December) |
| `Dates.WindowShape` | app.py:80-88 | the window of n months has n keys (none for n <= 0), starts at the given month, every later key is the calendar successor of the one before, so the keys are valid and strictly ascending |
| `Dates.WindowAt` | app.py:84-87 | the i-th key is the one the source computes, year `+ (month - 1 + i) // 12` and month `(month - 1 + i) % 12 + 1` |
| `Dates.MonthsWindow` | app.py:80-88 | the loop appending one key per step builds exactly the window of n months starting at today's month |
| `DateParsing.ParseDateSpellings` | app.py:72-78 | `parse_date(s)` is the date d exactly when s is one of d's spellings under `%Y-%m-%d` (four-digit year, month with or without its leading zero, day with a leading zero, space or neither); everything else, the empty string included, is None |
| `DateParsing.ParseSpelling` | app.py:76 | every accepted spelling of a date parses back to that date |
| `DateParsing.ParsedIsSpelling` | app.py:76 | any string that parses is one of the accepted spellings of its date |
| `DateParsing.ParseIsoText` | app.py:76 | the zero-padded `YYYY-MM-DD` text of every date parses back to it |
| `DateParsing.NoLeapDay` | app.py:76-78 | outside a leap year `YYYY-02-29` matches every field and is then rejected by the calendar check, giving None |
| `DateParsing.LeapDay` | app.py:76-78 | `YYYY-02-29` is a date exactly in leap years; otherwise the calendar check fails and the result is None |
| `Text.StripSpec` | app.py:145 | `strip()` returns a slice of its input with only whitespace cut from each end, keeps no whitespace at either end, and is empty exactly for an all-whitespace string |
| `Text.SplitCommas` | app.py:145 | `split(',')` gives at least one piece, no piece holds a comma, and joining the pieces with commas gives the input back |
| `Text.SplitJoin` | app.py:145 | splitting the comma-join of comma-free pieces gives those pieces back |
| `Text.CleanTokens` | app.py:145 | the kept tokens are non-empty and stripped, and there are no more of them than pieces |
| `Text.CleanTokensMembers` | app.py:145 | a token is kept exactly when it is non-empty and is the stripped form of some piece |
| `Text.CleanTokensAllBlank` | app.py:145 | no token is kept exactly when every piece is whitespace |
| `Text.NoTokensIffBlank` | app.py:145-146 | a comma-separated field yields no tokens exactly when it holds only commas and whitespace |
| `Text.TokensRoundTrip` | app.py:145 | non-empty, stripped, comma-free tokens survive joining with commas and re-parsing, in order |
| `Text.ParseShow` | app.py:186 | `int(str(n)) == n` for every integer |
| `Text.UpperIsFixed` | app.py:109 | every character `upper()` produces is left unchanged by a second `upper()` |
| `Text.UpperKeepsSpace` | app.py:109 | `upper()` output is all whitespace exactly when its input is |
| `Thresholds.SortedDistinct` | app.py:186 | `sorted(set(xs))` is strictly ascending and holds exactly the values of xs |
| `Thresholds.AscendingUnique` | app.py:186 | two strictly ascending lists with the same members are equal, so the threshold list is determined by the set of values |
| `Thresholds.ParseAll` | app.py:186 | the tokens parse as a whole exactly when each one does, giving their values in order |
| `Thresholds.ParseThresholds` | app.py:186-188 | the thresholds a run uses are strictly ascending, never repeated |
| `Thresholds.ParseThresholdsSpec` | app.py:186-188 | when every non-blank token is an integer, the thresholds are exactly their values; when any token is not, they are `[15, 30, 60]` |
| `Thresholds.BlankSettingHasNoThresholds` | app.py:186 | a setting of only commas and whitespace yields no tokens and no thresholds (not the default) |
| `Thresholds.ParseWrittenSetting` | app.py:186 | writing integers comma-separated and reading them back yields them sorted and de-duplicated |
| `Thresholds.ThresholdsRoundTrip` | app.py:186 | an ascending list of thresholds, written and read back, is unchanged |
| `Licenses.TypeKey` | app.py:109 | the type key is never empty and carries no surrounding whitespace |
| `Licenses.TypeKeyOfBlank` | app.py:109 | a blank licence type is counted as `'OUTROS'` |
| `Licenses.TypeKeyOfNonBlank` | app.py:109 | any other type is counted under its upper-cased, stripped form |
| `Licenses.TypeKeyIdempotent` | app.py:109 | normalising a type key again changes nothing |
| `Mail.DefaultThresholdsAreFallback` | app.py:57 | the thresholds column's default `'15,30,60'` parses to exactly `[15, 30, 60]`, the list a run falls back to when a token is not an integer (app.py:188) |
| `Mail.DefaultRecipient` | app.py:56 | the recipients column's default `'seuemail@example.com'` yields that one address as the only recipient |
| `Mail.DefaultSettingsReachTransport` | app.py:55-56 | with the start-up row, `send_email` never raises and always reaches the SMTP session, handing it the one default address; it succeeds exactly when the session delivers |
| `Mail.Recipients` | app.py:145 | every recipient is non-empty and stripped |
| `Mail.RecipientsCommaFree` | app.py:145 | no recipient contains a comma |
| `Mail.RecipientsMembers` | app.py:145 | an address is a recipient exactly when it is the non-empty stripped text of some comma-separated piece of the field |
| `Mail.NoRecipientsIffBlank` | app.py:145-146 | the recipient list is empty exactly when the field holds only commas and whitespace |
| `Mail.RecipientsRoundTrip` | app.py:145 | a list of clean addresses written comma-separated is read back unchanged and in order |
| `Mail.SendEmail` | app.py:144-167 | with no recipients the result is `(False, "Sem destinatários")`; with recipients and a non-ASCII sender address `formataddr` raises; otherwise it is successful exactly when the transport delivered, with no message on success and the transport's error text on failure |
| `Mail.NoRecipientsNoConnection` | app.py:145-147 | with a blank recipient field the result is `(False, "Sem destinatários")` and does not depend on the transport: no connection is attempted |
| `Digest.EntryOf` | app.py:176-177 | the company shows `'—'` exactly when it is missing or is `'—'` itself, the number exactly when it is missing, empty or `'—'`, so the digest cannot tell these cases apart; any other shown company or number is the licence's own |
| `Digest.AppendSection` | app.py:174-178 | a threshold's section is its heading, one entry per licence in list order, then a blank line |
| `Digest.FormatDigest` | app.py:169-179 | the loop over sorted thresholds builds exactly the digest: the title, then one section per non-empty list in ascending threshold order |
| `Digest.DigestHeadings` | app.py:172-174 | a heading for t appears exactly when some list for threshold t is non-empty |
| `Digest.DigestEntries` | app.py:175-177 | an entry line appears exactly when it is the line of a licence in one of the lists |
| `Digest.DigestHeadingsAscending` | app.py:172 | headings appear in strictly ascending threshold order |
| `Digest.EmptyGroupsGiveTitleOnly` | app.py:171-173 | when every list is empty the digest is the title alone |
| `Digest.LinesHeadings` | app.py:172-174 | over any threshold order, a heading appears exactly for the thresholds in that order whose list is non-empty |
| `Alerts.Evaluate` | app.py:191-198 | the selection has one list per threshold, in threshold order, each holding that threshold's selected licences |
| `Alerts.SelectedMembers` | app.py:193-198 | a licence is listed under t exactly when it is in the table, today <= expiry <= today + t, and (id, t) is not in the ledger |
| `Alerts.NotifiedNeverListed` | app.py:196-197 | a licence already notified for t is never listed under t again |
| `Alerts.ListedUnderEveryReachingThreshold` | app.py:192-198 | a licence due within t1 and not notified is listed under t1 and under every larger threshold t2 it has not been notified for |
| `Alerts.SelectedUniqueIds` | app.py:194-198 | with distinct licence ids, each list names a licence at most once |
| `Alerts.Rows` | app.py:209-210 | a list's ledger rows are one `(licence id, t)` per listed licence, in list order |
| `Alerts.NewRowsMembers` | app.py:208-210 | a row is written exactly for a (licence, threshold) pair that was listed |
| `Alerts.NewRowsOfEvaluate` | app.py:191-210 | after a selection, a row is written exactly when its threshold is configured, a licence with its id is due within it, and the row is not yet in the ledger |
| `Alerts.RowsDistinct` | app.py:209-210 | the rows written for one threshold are distinct when its licences have distinct ids |
| `Alerts.GroupRowsDistinct` | app.py:208-210 | groups with strictly ascending thresholds and distinct ids within each group give pairwise distinct rows |
| `Alerts.NewRowsDistinct` | app.py:208-210 | with distinct licence ids and thresholds, the rows written by one run are pairwise distinct |
| `Alerts.LedgerGate` | app.py:203-212 | the ledger changes only when the run reports `(True, None)`, and then it gains exactly the rows of this run's selection |
| `Alerts.NothingDueSendsNothing` | app.py:200-201 | when every list is empty the run returns `(True, "Nenhum alerta a enviar.")` with the ledger untouched, whatever the transport would do |
| `Alerts.FailedSendKeepsLedger` | app.py:204-206 | when the transport fails, the ledger is exactly as before, and with an ASCII sender address the run returns `(False, err)` with the transport's error text |
| `Alerts.NonAsciiSenderRaises` | app.py:150 | when something is due and a recipient exists, a non-ASCII sender address ends the run with `UnicodeEncodeError` and the ledger unchanged |
| `Alerts.SecondRunSendsNothing` | app.py:181-212 | after a successful run, a second run on the same day with the same data finds nothing to send and leaves the ledger as the first run left it |
| `Alerts.RunKeepsLedgerDistinct` | app.py:196-211 | a run never writes a row that is already in the ledger, so a ledger with no duplicate row keeps none |
| `Alerts.ListedUnderBothThresholds` | app.py:191-198 | on 2024-01-01 with thresholds 15 and 30, a licence expiring 2024-01-10 is listed under both |
| `Alerts.AlertStore.constructor` | app.py:48-63 | a fresh store holds the given settings and licences and an empty ledger, and satisfies the store invariant |
| `Alerts.AlertStore.SelectDue` | app.py:189-198 | the nested selection loops build the selection, or stop with None as soon as some `today + timedelta(days=t)` leaves the calendar |
| `Alerts.AlertStore.SelectFor` | app.py:194-198 | the inner loop lists, in table order, exactly the licences due within t and not yet notified for t |
| `Alerts.AlertStore.Deliver` | app.py:203-211 | the digest is sent; if `send_email` raises, the run raises, and on failure it returns `(False, err)`, both with the ledger untouched; on success it returns `(True, None)` and the ledger gains exactly the rows of the selection |
| `Alerts.AlertStore.RecordSent` | app.py:208-211 | the loop adding rows leaves the ledger equal to the old ledger followed by the rows of every listed pair, and keeps the store invariant when those rows are distinct and new |
| `Alerts.AlertStore.RunAlerts` | app.py:181-212 | `run_alerts` returns the outcome and leaves the ledger that `Alerts.Run` gives, and keeps the ledger free of duplicate rows |
| `Stats.TallyMeaning` | app.py:107-110 | a counter dictionary has a key exactly for the values that occurred, counting how often each occurred |
| `Stats.TallySum` | app.py:107-110 | the counts of a counter dictionary add up to the number of values counted |
| `Stats.SortedCountsMeaning` | app.py:124 | the sorted per-month pairs are in strictly ascending month order, hold exactly the months counted, and keep each month's count |
| `Stats.ExpiriesPerMonthMeaning` | app.py:112-124 | `expiries_per_month` lists in ascending order exactly the months in which some licence expires, each with the number of licences expiring in it |
| `Stats.MonthIndexOrder` | app.py:113-124 | the order in which month keys are sorted is calendar order, and distinct months never tie |
| `Stats.CountExpiry` | app.py:112-119 | one expiry bumps its month's count, records a month seen for the first time, and bumps the window counters only when its month is in the window |
| `Stats.CountLicence` | app.py:106-123 | one loop step moves the counters from those of the first i licences to those of the first i + 1, or raises exactly when the licence has an expiry and today + 60 days leaves the calendar |
| `Stats.CountAll` | app.py:103-123 | the loop's counters are those of all the licences, or it raises exactly when some licence has an expiry and today + 60 days leaves the calendar |
| `Stats.CalcStats` | app.py:90-130 | `calc_stats` returns exactly `Stats.Statistics` of the licences, today and the 12-month window starting at the current month |
| `Stats.CountsAddUp` | app.py:103-128 | `total` is the number of licences, and the status, authority and type counts each add up to it |
| `Stats.ByStatusMeaning` | app.py:107 | a status is a key exactly when some licence has it, and its count is the number of licences with it |
| `Stats.ByAuthorityMeaning` | app.py:108 | an authority is a key exactly when some licence has it, and its count is the number of licences with it |
| `Stats.ByTypeMeaning` | app.py:109-110 | a type key is present exactly when some licence normalises to it, and its count is the number of those licences |
| `Stats.CountAfterBounds` | app.py:120-123 | at most all licences expire after a bound, and no more after a later one (`ok_60 <= ok_30 <= total`) |
| `Stats.ShareAfter` | app.py:126-127 | a share is between 0 and 100, is 0 with no licences, and is 100 exactly when every licence expires after the bound |
| `Stats.ShareAfterMonotone` | app.py:126-127 | the share of licences expiring after a later bound is never larger |
| `Stats.RatioBounds` | app.py:126-127 | `(ok / total) * 100 if total else 0.0` lies in 0..100 for ok <= total and is 100 exactly when ok == total > 0 |
| `Stats.SlaMeaning` | app.py:120-127 | `0 <= ok_60_ratio <= ok_30_ratio <= 100`, both are 0.0 with no licences, and each is 100 exactly when every licence expires more than 30 (resp. 60) days after today |
| `Stats.WindowKeys` | app.py:92-101 | `months` is 12 ascending keys starting at the current month, and `by_type_per_month` and `heatmap` have exactly those keys |
| `Stats.PerMonthMeaning` | app.py:115-119 | for a window month, a type (a day) is counted exactly when some licence expiring in that month has it, with the number of such licences; only days 1..31 occur |
| `Stats.ExpiriesMeaning` | app.py:112-124 | a month appears in `expiries_per_month` exactly when some licence expires in it, with the number of licences expiring in it, in ascending order |
| `Stats.NoLicences` | app.py:93-129 | with no licences every counter is empty, the SLA is `(0.0, 0.0, 0)`, and each window month has an empty type counter and an empty heatmap |
| `Stats.RaisesOnlyNearCalendarEnd` | app.py:120-123 | `calc_stats` raises exactly when some licence has an expiry date and today + 60 days is past 9999-12-31 |

## Left out

- Flask routes, templates, `flash` and `redirect`, and the dashboard count
  queries (app.py:214-424): request handling with nothing to prove.
- SQLAlchemy: sessions, commits and queries. The licence table is a sequence,
  and a query returns rows in table order.
- Transactions and concurrency: two runs at once could both see a pair as not
  yet notified. The model runs one at a time.
- The SMTP session (app.py:148-167): building the MIME message, SSL or
  STARTTLS, login and `sendmail`. The transport is a parameter that reports
  delivery or an error text.
- `sent_at` and `created_at` timestamps, which no operation reads.
- The clock: each read is a parameter.
- The digest text (app.py:171-179): accents, the `dd/mm/YYYY` rendering and
  the final `"\n".join`. The digest is modelled line by line as structured
  lines (title, heading, entry, blank).
- Digest.EntryOf: keeps the expiry as a date value instead of its
  `dd/mm/YYYY` text.
- IEEE floating point in the SLA percentages: exact reals instead.
- `int()` and the `\d` of `strptime` also accept non-ASCII decimal digits,
  and `int()` limits strings to 4300 digits. Only ASCII digits are modelled,
  with no length limit.
- `upper()` is modelled for ASCII and Latin-1 (including `ß` → `SS`, `µ`, `ÿ`).
  Other Unicode case mappings are not.
- `strip()` uses Python's whitespace set for `str.isspace`.
- Stats.CalcStats: month keys for years before 1000 are modelled as
  (year, month) values. In the source, `months_window` writes the year with
  `f"{y:04d}"` ("0999-05"), while `strftime("%Y-%m")` on glibc writes
  "999-05". The two spellings differ, so such an expiry fails the
  `key in data["by_type_per_month"]` test (app.py:115), while the model counts
  it in the window month. Its place in the string sort of
  `expiries_per_month` also differs from (year, month) order.
- `parse_date` of `None` (a missing form field) behaves as the empty string.
- Company and licence creation, editing and deletion, and the cascade from
  companies to licences: CRUD with no invariants of the engine.
