# Flights_app scraper core, modelled in Dafny

Flights_app drives a browser through Google Flights. It reads the price
calendar of a route and picks the cheapest day. Then it searches that day
again and saves the result as JSON. This project models the logic between the
browser calls and proves properties of that model:

- how a calendar cell's text becomes a price or a date text;
- how a month/day text becomes a `YYYY-MM-DD` date, relative to the current date;
- how the calendar's prices are paired with departure and return dates (`__parse_tabla_precios`);
- the cheapest alternative of a route, and the itinerary built from it;
- the query URL (`_make_url`) and the output file name (`Itinerario.file_name`);
- the `[:num_res]` truncation of the result list;
- the records of `models/Flight.py`, and building itineraries from decoded JSON records;
- the constants of `config/params.py`.

Modules, one per concern:

- `Wrappers`: `Option`, `Result` and the Python exception kinds that matter here.
- `Text`: ASCII digits, decimal values, `str` of a natural, `.lower()` and `.split()`.
- `Calendar`: the `datetime` facts used: valid dates, leap years, `strftime("%Y-%m-%d")`, and the current date `Now`.
- `PyFormat`: `str.format` with named fields, enough to read `_make_url`'s templates as written.
- `Params`: `Params.DAYS` and `Params.month_mapping`.
- `Flight`: the records, `get_best_alterantive`, `file_name`, and the record-to-`Itinerario` conversion.
- `FlightScraper`: `__parse_price`, the two date patterns and the two price patterns, `__parse_month_day_to_date`, `_make_url`, the itinerary of `scrape_best_day_found`, and `get_results`' truncation.
- `PriceTable`: `__parse_tabla_precios`. Its two loops are methods with loop invariants. Each method is proved equal to a recursive specification function, and lemmas state the grid's shape.

The clock is a parameter. `datetime.now()` becomes a `Now` value, and both
calls in `__parse_month_day_to_date` read the same `Now`. A handled exception
that makes a function return `None` is `Success(None)`. An exception that
escapes is a `Failure` that names its kind. Phrases such as "`min` of an empty
list is `ValueError`" and "`float("")` is `ValueError`" refer to these
`Failure` values.

## Model

| member | source | states |
|---|---|---|
| Flight.NewRoute | models/Flight.py:45-49 | A new route keeps the itinerary it is given and starts with no options and no alternatives. |
| Flight.BestIndex | models/Flight.py:51-52 | The index `min(..., key=price)` settles on. Its price is at most every other price, and every earlier alternative is strictly dearer, so the first of equal minima wins. |
| Flight.BestIndexUnique | models/Flight.py:51-52 | Those two properties single out one index, so they define `min`'s choice completely. |
| Flight.GetBestAlternative | models/Flight.py:51-52 | `ValueError` exactly when there are no alternatives. Otherwise the result is a member of the list with the least price, and no earlier member has that price. |
| Flight.FileName | models/Flight.py:22-26 | The name starts with the unpadded `month-day_` stamp. It ends with `_` + `str(return_date)` + `.json`. |
| Flight.FileNameWithoutReturn | models/Flight.py:22-26 | An itinerary without a return date gets a name ending in `_None.json`. |
| Flight.PyStr | models/Flight.py:25 | `str(v)` of a text or `None`: the text itself, or the word `None`. `FileNameWithoutReturn` shows the `None` case in the file name, and `MakeUrlIsTemplate` and `FileNameIsTemplate` use it as the rendering of the arguments. |
| Flight.FileNameIsTemplate | models/Flight.py:22-26 | The name is the f-string's template, read as a `str.format` template, with month, day, origin, destination and both dates filled in as `str` renders them. |
| Flight.FileNameStamp | models/Flight.py:24-25 | The stamp's month and day read back as the current month and day. Each has one digit exactly when it is below 10, so there is no zero padding. |
| Flight.ItinerarioFromRecord | models/Flight.py:15-20 | `Itinerario(**record)` raises `TypeError` exactly when the record has an unknown key or lacks a required one. Otherwise each field holds its key's value, so the itinerary's own record is the input record. The return date is `None` exactly when the record has no `return_date`. |
| Flight.RecordRoundTrip | models/Flight.py:15-20 | An itinerary rebuilt from its own record is the same itinerary. With `ItinerarioFromRecord`'s contract, record and itinerary are inverse to each other. |
| Flight.Truthy | flight_scraper.py:100 | `if iti.return_date:` holds for a present, non-empty text. `MakeUrl` and `MakeUrlIsTemplate` state what it selects. |
| Flight.LoadItinerarios | models/Flight.py:11 | The comprehension succeeds exactly when every record converts. It then holds one itinerary per record, in order. Otherwise it raises `TypeError`. |
| Params.DaysPositive | config/params.py:4 | `DAYS` is 7, so the `% DAYS` and `// DAYS` of the grid are defined. |
| Params.MonthNumbersInRange | config/params.py:11-29 | Every value of `month_mapping` is in 1..12. |
| Params.KeysAreLowerTriples | config/params.py:11-29 | Every key is three lower-case ASCII letters. |
| Params.EnglishMonthsNumbered | config/params.py:11-29 | `jan`..`dec` are keys and map to 1..12 in order. |
| Params.EveryMonthNamed | config/params.py:11-29 | Every month 1..12 is the value of some key. |
| Params.SpanishAliases | config/params.py:12-28 | `ene`, `abr`, `ago`, `set` and `dic` map to the numbers of `jan`, `apr`, `aug`, `sep` and `dec`. |
| Params.NonLetterNotKey | config/params.py:11-29 | A token that does not start with a lower-case letter is not a key. |
| Calendar.ValidDate | flight_scraper.py:165 | The dates `datetime(y, m, d)` accepts: year 1..9999, month 1..12, a day the month has. `LeapDay` and `IsoRoundTrip` state its consequences. |
| Calendar.DaysInMonth | flight_scraper.py:165 | A month has 28 to 31 days. February has 29 exactly in a leap year. |
| Calendar.FormatIso | flight_scraper.py:167 | `strftime("%Y-%m-%d")` is ten characters with dashes at 4 and 7. Its three digit groups read back as the year, the month and the day. |
| Calendar.IsoRoundTrip | flight_scraper.py:167 | Formatting a valid date and reading it back gives that date. Every text that reads back as a date is that date's formatted form. |
| Text.Digits | flight_scraper.py:139 | `"".join(x for x in s if x.isdigit())` holds only digits and is no longer than the text. `DigitsConcat` and `DigitsOfChar` determine it completely. |
| Text.DigitsConcat | flight_scraper.py:199 | The digit filter distributes over concatenation. |
| Text.DigitsOfChar | flight_scraper.py:199 | One character filters to itself when it is a digit, and to nothing otherwise. |
| Text.DigitsOfDigits | flight_scraper.py:199 | A text of digits filters to itself. |
| Text.DigitsNonEmpty | flight_scraper.py:198-199 | The filter keeps something exactly when the text has a digit. |
| Text.ShowNat | models/Flight.py:25 | `str(n)` of a natural number, as `{now.month}` and `{now.day}` render it: non-empty digits with no leading zero. `ValueOfShow` reads it back as `n`, and `ShowOfValue` shows that it is the canonical spelling of any digit string's value. |
| Text.ValueOfShow | models/Flight.py:25 | The digits `str(n)` prints spell `n`. |
| Text.ShowOfValue | models/Flight.py:25 | The value of a non-empty digit string prints back as that string with its leading zeros dropped, keeping at least one digit. |
| Text.Split | flight_scraper.py:159 | `.split()` with no arguments. `SplitEmpty`, `SplitAfterAnySpace` and `SplitFirstWord` determine it on every text; `SplitWords` and `SplitTwoWords` follow. |
| Text.SplitEmpty | flight_scraper.py:159 | A text has no words exactly when it is all separators. |
| Text.SplitAfterAnySpace | flight_scraper.py:159 | A leading separator, whatever follows it, does not change the words. |
| Text.SplitFirstWord | flight_scraper.py:159 | A non-empty word followed by a separator or by nothing splits off as the first word, and the rest splits on its own. |
| Text.SplitWords | flight_scraper.py:159 | Every word `.split()` yields is non-empty and holds no separator. |
| Text.SplitTwoWords | flight_scraper.py:159 | Two words joined by one space split back into those two words. |
| Text.Lower | flight_scraper.py:160 | `.lower()` keeps the length and lower-cases each character in place. |
| Text.LowerIdentity | flight_scraper.py:160 | A text without upper-case letters is its own lower-case form. |
| Calendar.LeapDay | flight_scraper.py:165 | `datetime(y, 2, 29)` is valid exactly in a leap year. |
| FlightScraper.ParsePrice | flight_scraper.py:197-201 | Gives -1 exactly when the text has no `€`. It is `ValueError` exactly when there is a `€` but no digit. Otherwise it is the non-negative number whose canonical decimal form is the text's digits, in order. |
| FlightScraper.ParsePriceRoundTrip | flight_scraper.py:197-201 | `"<n> €"` and `"€<n>"` parse back to `n`. |
| FlightScraper.ParsePriceDropsSeparator | flight_scraper.py:199 | A separator between two digit groups is dropped: `a<sep>b €` parses as the number written `ab`. |
| FlightScraper.MatchAt | flight_scraper.py:129-133 | A match of either date pattern at a position is 0, 5 or 6 characters long and stays inside the text. |
| FlightScraper.DayFirstMatched | flight_scraper.py:129 | Conversely, a day-first text at a position is matched there in full. |
| FlightScraper.MonthFirstMatched | flight_scraper.py:130-133 | Conversely, a month-first text between two word boundaries is matched there in full. |
| FlightScraper.MatchShape | flight_scraper.py:129-133 | A day-first match is one or two digits, a space and three lower-case letters. A month-first match is an English month abbreviation, a space and one or two digits, with a word boundary at each end. |
| FlightScraper.Search | flight_scraper.py:129-133 | `re.search` gives the leftmost position with a match. No earlier position matches, and no position matches when it finds none. |
| FlightScraper.Found | flight_scraper.py:129-137 | `.group()` of a found match has the shape of its pattern, and it is the text standing at a position where the pattern matches it in full, with no match at any earlier position. |
| FlightScraper.FoundMeaning | flight_scraper.py:129-133 | `re.search` finds a match exactly when the pattern matches at some position. |
| FlightScraper.LeadingDigits | flight_scraper.py:138 | The greedy `\d+` covers exactly the digits the text starts with. |
| FlightScraper.StartsDigitsEuro | flight_scraper.py:138 | `re.match(r"\d+ €")`, read greedily. `StartsDigitsEuroMeaning` equates it with the plain reading. |
| FlightScraper.StartsEuroDigits | flight_scraper.py:138 | `re.match(r"€\d+")`: the euro sign, then a digit. `ClassifyPriceCell` shows the calendar's prefixed prices meet it. |
| FlightScraper.StartsDigitsEuroMeaning | flight_scraper.py:138 | The greedy reading of `re.match(r"\d+ €")` agrees with its plain meaning: some non-empty run of leading digits, then a space and `€`. |
| FlightScraper.Classify | flight_scraper.py:129-140 | A recorded date is a text of one of the two date patterns, and it is a piece of the cell's own text; `ClassifyCases` states which piece: the leftmost match of the day-first pattern, or else of the month-first one. A recorded price has at least one digit, and its value is the number its digits spell. |
| FlightScraper.ClassifyCases | flight_scraper.py:134-140 | A cell is a date exactly when either pattern matches. Its recorded text is `.group()` of the leftmost day-first match when there is one, else of the leftmost month-first match. It is a price exactly when no date pattern matches and it starts like `\d+ €` or `€\d+`. Every other cell is ignored. |
| FlightScraper.PriceDigits | flight_scraper.py:138-139 | A cell accepted as a price has a digit, so `float` of its digits never raises. |
| FlightScraper.DateTextIsRecorded | flight_scraper.py:129-137 | A cell whose text has either date shape is recorded as that date. |
| FlightScraper.ClassifyPriceCell | flight_scraper.py:138-140 | The price texts `"<n> €"` and `"€<n>"` are recorded as price `n`. |
| FlightScraper.ClassifyEuroFirst | flight_scraper.py:138-140 | The price text `"€<n>"` is recorded as price `n`. |
| FlightScraper.ParseInt | flight_scraper.py:165 | `int(tok)` accepts only non-empty tokens. |
| FlightScraper.ParseIntShow | flight_scraper.py:165 | `int` reads back `str(n)`, `+str(n)` and `-str(n)`. |
| FlightScraper.ParseIntRejects | flight_scraper.py:165 | A token with a character that is neither a digit nor a leading sign is not a number, whether at the first position or later, and so is a bare `+` or `-`. |
| FlightScraper.YearFor | flight_scraper.py:158-163 | The year is the current one, plus one exactly when the month number is before the current month. |
| FlightScraper.MonthDayToDate | flight_scraper.py:156-172 | The only exception that escapes is `UnboundLocalError`. |
| FlightScraper.MonthDayToDateMeaning | flight_scraper.py:156-172 | Raises exactly when the text does not split into two words. It gives a date exactly for a known month key, a number and an existing day, and that date reads back as (year for the month, month number, day). It gives `None` exactly in the remaining two-word cases. |
| FlightScraper.LowerMonthName | flight_scraper.py:160 | The English abbreviations lower-case to the English keys. |
| FlightScraper.SplitMonthFirst | flight_scraper.py:159 | A month-first text splits into its month and its day. |
| FlightScraper.SplitDayFirst | flight_scraper.py:159 | A day-first text splits into its day and its month. |
| FlightScraper.DateTextNeverRaises | flight_scraper.py:156-172 | A date text recorded from the calendar never makes the conversion raise. |
| FlightScraper.MonthFirstDate | flight_scraper.py:158-167 | `"<Mon> <d>"` converts to the ISO date for that month and day in the current or next year, or to `None` when that day does not exist. |
| FlightScraper.DayFirstDateIsNone | flight_scraper.py:159-172 | A day-first text such as `15 ene` always gives `None`: its first word is the day, which is no key. |
| FlightScraper.LeapDayText | flight_scraper.py:165-172 | `Feb 29` never raises. It gives a date exactly when its year is a leap year within `datetime`'s range. |
| PyFormat.Format | flight_scraper.py:100-109 | `str.format` with keyword fields. `FormatLiteral` copies literal text through, `FormatField` replaces a known field by its argument, `FormatConcat` shows that formatting distributes over concatenation, and `LoneCloseBrace` shows that a `}` with no partner raises `ValueError`. |
| PyFormat.FormatLiteral | flight_scraper.py:100-109 | Literal text without braces is copied through, and the rest of the template formats on its own. |
| PyFormat.FormatField | flight_scraper.py:100-109 | A field naming a given keyword argument is replaced by that argument. |
| PyFormat.FormatConcat | flight_scraper.py:100-109 | A template that formats can be followed by any other: the results are joined, and a failure of the second is the failure of the whole. |
| PyFormat.LoneCloseBrace | flight_scraper.py:100-109 | A `}` after plain text with no second `}` after it raises `ValueError`. |
| FlightScraper.MakeUrl | flight_scraper.py:99-112 | The URL starts with the query head. It ends with `%20through%20<return_date>` when the return date is truthy, and with `%20on%20<departure_date>` otherwise. Fields are copied unescaped. |
| FlightScraper.MakeUrlIsTemplate | flight_scraper.py:99-112 | The URL is the source's `str.format` template, with its keyword arguments filled in. The round-trip template is used exactly when the return date is truthy. |
| FlightScraper.BestDayItinerary | flight_scraper.py:79-86 | `ValueError` exactly when the route has no alternatives. Otherwise the new itinerary keeps origin and destination and takes the dates of the first cheapest alternative. |
| FlightScraper.TopResults | flight_scraper.py:74 | `xs[:n]` is a prefix of `xs`. Its length is `min(n, len)` for `n >= 0`, and `max(len + n, 0)` for negative `n`. |
| FlightScraper.TopResultsKeepsFirst | flight_scraper.py:74 | With enough options the first `n` are kept, in page order, and truncating twice changes nothing. |
| PriceTable.Dates | flight_scraper.py:126-137 | There are at most as many recorded dates as cells. |
| PriceTable.Prices | flight_scraper.py:138-140 | There are at most as many recorded prices as cells. |
| PriceTable.DateCellsAreRecorded | flight_scraper.py:126-140 | Cells whose texts are all date texts are all recorded as dates, in order, and none as a price. |
| PriceTable.DatesAreDateTexts | flight_scraper.py:134-137 | Every recorded date is a text one of the two date patterns matched. |
| PriceTable.Cut | flight_scraper.py:142-143 | The split point is `DAYS`, or the number of dates when there are fewer. |
| PriceTable.Departures | flight_scraper.py:142 | `fechas[:DAYS]` is a prefix of at most `DAYS` dates, all of them when there are fewer. |
| PriceTable.Returns | flight_scraper.py:143 | Departures followed by returns give back the dates. Returns are empty for `DAYS` dates or fewer. |
| PriceTable.PairAt | flight_scraper.py:147-152 | A turn that appends has both indices in range and the price unchanged, and its dates are what the conversion gave, `None` included. A turn with both indices in range that appends nothing had a conversion that raised. |
| PriceTable.Pairs | flight_scraper.py:145-154 | There are at most as many alternatives as prices. |
| PriceTable.TablaPrecios | flight_scraper.py:122-154 | The routine's result has at most one alternative per recorded price. `TablaPreciosShape` states which alternatives it holds. |
| PriceTable.SortCells | flight_scraper.py:123-140 | The first loop collects exactly the recorded dates and prices, in order. |
| PriceTable.ParseTablaPrecios | flight_scraper.py:122-154 | The whole routine returns what the specification functions describe, and at most one alternative per price. |
| PriceTable.Kept | flight_scraper.py:146-149 | The kept indices are strictly increasing. They are exactly the price indices whose `% DAYS` and `// DAYS` are inside the departure and return lists. |
| PriceTable.KeptStep | flight_scraper.py:146-149 | One more price adds its index to the kept indices exactly when both of its indices are in range. |
| PriceTable.PairAtRow | flight_scraper.py:147-152 | For recorded date texts, a turn with both indices in range appends the price with its departure and return dates, and any other turn appends nothing. |
| PriceTable.PairsStepRow | flight_scraper.py:145-154 | One more price appends its row exactly when both of its indices are in range. |
| PriceTable.PairsPrefixShape | flight_scraper.py:145-154 | After any number of turns, the alternatives line up with the kept indices so far. |
| PriceTable.PairsShape | flight_scraper.py:145-154 | For recorded date texts, the result lists the kept prices in their order. Each has departure `i % DAYS` and return `i // DAYS`. |
| PriceTable.TablaPreciosShape | flight_scraper.py:122-154 | Every recorded date is a date text, and the routine's result is lined up with the kept prices. |
| PriceTable.DayFirstCalendarHasNoDates | flight_scraper.py:129-154 | A calendar whose dates are all day-first gives alternatives whose dates are all `None`. |
| PriceTable.FullGridKeepsEveryPrice | flight_scraper.py:142-149 | With a full departure column and enough return rows, no price is dropped. |

## Left out

- Browser driving is I/O against an external driver and is not modelled. This covers:
  - the Selenium session, page navigation, `find_element` and `find_elements` waits;
  - `time.sleep`, clicks and cookie dismissal;
  - `__go_to_cheapest_day` with its `ActionChains`;
  - the fetching of options and alternatives in `scrape_best_day_found`.
  Only the itinerary that function builds is modelled.
- `scrape_fligths` and `find_flights_alternatives` are orchestration around those calls and are not modelled either. The cells of the price calendar enter the model as their texts.
- HTML scraping is not modelled: the BeautifulSoup lookups of `get_results`, and `__parse_flight_data`. They call a foreign library. Only the `[:num_res]` truncation is modelled, over any list.
- `__parse_datetime` is not modelled. It depends on locale-dependent `strptime` and `strftime` directives.
- File and JSON I/O is not modelled: `save_to_json`, the reading and decoding half of `load_itinerarios_from_json`, and `main`. Decoded records enter as maps from text to text. A JSON `null` or a non-text value is not modelled.
- Logging and tracebacks are not modelled. The effect of the log line in the `except` handler of `__parse_month_day_to_date` is modelled: it raises `UnboundLocalError` when `day` is unbound.
- The clock is a parameter `Now`, assumed to be a valid date. In the source, `__parse_month_day_to_date` reads `datetime.now()` afresh at flight_scraper.py:158 and 162, on every conversion. In the model one `Now` serves every conversion of a `__parse_tabla_precios` call. So a table parsed across midnight at the end of a month is not modelled: there a `"Jan 5"` cell could get year Y in early turns and Y+1 in later ones.
- Prices are naturals, not floats, and the model does not capture the precision loss of `float` for numbers with more than 15 digits. `FlightOption.price` and `FlightAlternative.price` are integers.
- Digits, whitespace, word characters and lower-casing are ASCII only. Python's `isdigit`, `\d`, `\b`, `split` and `lower` also accept other Unicode characters.
- FlightScraper.ParseInt: does not accept the underscores that `int()` allows, nor surrounding whitespace. Tokens reach it after `split`, so they carry no whitespace.
- Calendar.FormatIso: assumes `%Y` writes a year below 1000 as four zero-padded digits, which is what CPython does on common platforms.
- PyFormat.Format: covers named fields and literal text only. Format specifications, conversions and attribute or index access in field names are not modelled, and the source uses none of them.
- The f-string of `file_name` and the templates of `_make_url` are written as concatenations of fragments. The model does not parse them from one literal.
- PriceTable.SortCells and PriceTable.ParseTablaPrecios: the first loop of `__parse_tabla_precios` is its own method, called by the method for the whole routine. Each turn of the `try` block is the function `PairAt` rather than an exception handler.
- FlightScraper.MonthDayToDate: requires a valid `Now`, which is all the clock can report.
