# LP-BusinessExtract: a verified model of the text and record logic

LP-BusinessExtract is a set of Python scripts. They turn Google-Maps CSV exports
into Firestore `vendors` documents. Each row's opening hours, postcode, image
URL and website emails are worked out, and the document is written only when
the shop's name is not already registered. This project models that logic in
Dafny and proves what it does:

- `Clock`: `convert_to_utc_datetime`, which parses `h[:mm] am|pm` on a given
  date, as `strptime` does. The format is chosen by the presence of `:`, and
  a text that does not fit the format is an `Err`, not an exception.
- `HoursScan`: `convert_hours_string_to_dict`. U+202F becomes a space, then
  the `re.findall` scan for `Label: [<t>-<t>]` runs, and a repeated label
  keeps its last range.
- `OpeningHours`: `parse_opening_hours`, a method with a loop over the seven
  days. It is proved equal to the function `Week`. Missing days take the
  default range and are closed, and the first range that cannot be read is
  the error raised.
- `ImageUrl`: `resize_google_image_url`. The first `w<digits>-h<digits>`
  token is scaled, and `re.sub` writes the scaled token over every token.
- `ImageBackfill`: `update_images_in_firestore` of temp.py. It is a class
  whose method rewrites each selected document's `images` list. The run ends
  at the first list holding an element that is not a string, where
  `re.search` raises `TypeError` before the update, or at the first empty
  list, where the `print` after the update raises `IndexError`.
- `Postcode`: the UK postcode pattern of extractor2.py and the narrow
  `E\d{2} \w{3}` pattern of extractor.py. Each is an ordered list of
  character-class paths searched leftmost-first, as Python's backtracking
  engine reports the match.
- `Table`: the pandas frame, as a class with columns, cells and a height.
  Normalisation adds missing columns as `""`, applies `fillna("")`, cuts
  `Phones` to its first entry and removes blanks from the phone columns.
- `Emails`:
  - `extract_emails_from_website` of extractor2.py and new2.py, giving a
    deduplicated primary email and the rest joined with `", "`;
  - `extract_email_from_website` of new.py, giving the first match or
    `"Email Not Found"`;
  - the `"N/A"` defaulting of `get_business_details`.
- `EmailCsv`: `process_csv` of new2.py, which fills `Email` and
  `Additional Emails` row by row.
- `Vendors`: the row loops of `extract_business_data` in extractor2.py and
  extractor.py. They cover:
  - the website fallback;
  - the `business_data` record;
  - the registry gate, and `is_name_in_list`;
  - the `Email` cell;
  - the log of documents written, which is the `vendors` collection;
  - the stop at the first row that raises.
- `Export`: `extract_business_data` of main.py. It checks the required
  columns and makes one record per row.

Every outside service is a parameter:
- the Selenium place-id lookup;
- the page fetch with its regex matches;
- the Maps page load;
- Firestore's document ids;
- Python's set iteration order;
- today's date.

Every property proved holds for all values of these parameters.

## Model

| member | source | states |
|---|---|---|
| Clock.HourField | extractor2.py:287-290 | `%I` reads an hour in 1..12 |
| Clock.HourValue | extractor2.py:287-290 | an `%I` numeral (`1`..`9`, `01`..`09`, `10`..`12`) denotes an hour in 1..12, the decimal value of its digits |
| Clock.HourFieldReads | extractor2.py:287-290 | what `%I` consumes is an `%I` numeral, and the hour read is the one it denotes |
| Clock.MinuteField | extractor2.py:287-290 | `%M` reads a minute below 60 |
| Clock.MinuteValue | extractor2.py:287-290 | an `%M` numeral (one digit, or two digits starting 0..5) denotes a minute below 60, the decimal value of its digits |
| Clock.MinuteFieldReads | extractor2.py:287-290 | what `%M` consumes is an `%M` numeral, and the minute read is the one it denotes |
| Clock.MeridiemField | extractor2.py:287-290 | `%p` succeeds exactly on `am` or `pm` in any case, reads the meridiem spelled and consumes two characters |
| Clock.TwoDigits | temp2.py:21 | a minute rendered with two digits is an `%M` numeral that reads back as the same minute |
| Clock.MinuteOf | temp2.py:18-21 | the minute a text denotes is below 60, the value of its `%M` numeral when there is one |
| Clock.ParseClock | temp2.py:18-21 | a parsed time has an hour in 1..12 and a minute below 60; without `:` the minute is 0 |
| Clock.To24Hour | temp2.py:21 | the 24-hour value is below 24; it is before noon exactly for `am` |
| Clock.To12Hour | temp2.py:21 | the inverse conversion gives an hour in 1..12 |
| Clock.To24HourBijective | temp2.py:21 | 12-hour and 24-hour clocks correspond one to one, both directions |
| Clock.ConvertToUtcDateTime | extractor2.py:275-293 | a result carries the given date, UTC with no shift, hour < 24, minute < 60; minute 0 when the text has no `:` |
| Clock.ConvertTimeText | temp2.py:17-22 | every text of the accepted grammar (blanks, an `%I` numeral such as `8`, `08` or `12`, optionally `:` and an `%M` numeral such as `5` or `30`, at least one blank, am/pm in any case) converts to the 24-hour instant its numerals and meridiem denote, on the given date, in UTC |
| Clock.ConvertedIsTimeText | temp2.py:17-22 | conversely, every text that converts is a text of that grammar, and the instant is the one its numerals and meridiem denote |
| Clock.TimeTextParsed | temp2.py:18-21 | for a text of the grammar, the colon test picks the format with minutes exactly when the text has a minute numeral, and the parse yields the hour, minute and meridiem that text denotes |
| Clock.CanonicalForm | temp2.py:18-22 | every converted time is also what its canonical `h:mm am/pm` text converts to |
| Clock.NoBlankRejected | extractor2.py:287-290 | a text with no blank before am/pm (such as `10am`) raises |
| Clock.ElevenAm | temp2.py:34 | `"11 am"` gives 11:00 |
| Clock.HalfPastEightPm | temp2.py:35 | `"8:30 pm"` gives 20:30 |
| Clock.PaddedHourShortMinute | temp2.py:21 | a zero-padded hour and a one-digit minute are accepted: `"08:5 pm"` gives 20:05 |
| Clock.HourNumeral | temp2.py:21 | the decimal rendering of an hour 1..12 is an `%I` numeral denoting that hour |
| Clock.Midnight | temp2.py:21 | `"12 am"` gives 0:00 |
| Clock.Noon | temp2.py:21 | `"12 pm"` gives 12:00 |
| Clock.HourOutOfRange | temp2.py:21 | hours 13 and 0 raise |
| Clock.TrailingData | temp2.py:21 | text after am/pm raises |
| Clock.MissingMeridiem | temp2.py:21 | a time without am/pm raises |
| Common.NatToDecimal | temp.py:33 | the decimal text of a number has no leading zero and reads back as the number |
| Common.Split | extractor2.py:258 | `str.split` with one separator: one part more than separators, no part holds the separator |
| Common.JoinLength | extractor2.py:68 | a join is exactly as long as its parts plus one separator between each two of them |
| Common.JoinSplit | extractor2.py:66 | joining the parts of a split gives the string back |
| Common.SplitJoin | extractor2.py:66 | splitting separator-free parts joined gives the parts back |
| Common.RemoveChar | extractor2.py:100 | `replace(" ", "")` removes every blank and keeps every other character |
| Common.StripLeft | new.py:36 | leading whitespace removed, the rest kept |
| Common.StripRight | new.py:36 | trailing whitespace removed, the rest kept |
| Common.Strip | new.py:36 | the result is the piece of the text that starts where its leading whitespace ends, and only whitespace lies before and after it |
| Common.StripTrimmed | new.py:36 | the result neither starts nor ends with whitespace |
| HoursScan.NormalizeSpaces | extractor2.py:305 | no U+202F is left; every other character is kept in place |
| HoursScan.WordRunEnd | extractor2.py:308 | `\w+` stops at the end or at the first non-word character |
| HoursScan.TimeAt | extractor2.py:308 | a time token, when present, is non-empty and inside the string |
| HoursScan.SegmentAt | extractor2.py:308-311 | a match at `i` starts there and ends inside the string |
| HoursScan.SegmentWellFormed | extractor2.py:308 | a matched segment reads `label: [range]` with a `\w+` label and a range of two time tokens around one dash |
| HoursScan.FindAll | extractor2.py:311 | the matches lie in order and do not overlap |
| HoursScan.FindAllWellFormed | extractor2.py:311 | every segment `findall` reports is well formed |
| HoursScan.FindAllMatches | extractor2.py:311 | each reported match is a real match at its start |
| HoursScan.FindAllLeftmost | extractor2.py:311 | no match is skipped before the first one; none found iff none anywhere |
| HoursScan.LaterWins | extractor2.py:314 | in the comprehension a repeated label keeps the range of its last match |
| HoursScan.ToMap | extractor2.py:314 | the keys are exactly the labels matched |
| HoursScan.HoursDict | extractor.py:234-254 | every key is a `\w+` label and every value a well-formed range |
| HoursScan.EmptyIffNoMatch | extractor2.py:305-314 | the map is empty iff the normalised string has no segment |
| HoursScan.RangesSplitInTwo | extractor.py:198 | every scanned range splits into exactly two parts on `-` |
| HoursScan.NormalizeFirst | extractor2.py:305 | scanning ignores whether U+202F was already replaced |
| HoursScan.SingleSegment | extractor2.py:308-314 | a lone `day: [a-b]` gives the one-entry map |
| HoursScan.MondayExample | extractor2.py:308-314 | `Monday: [9 am-6 pm]` is read |
| HoursScan.NoBlankExample | extractor2.py:308 | the pattern admits `10am-8pm` with no blank |
| HoursScan.NarrowSpaceNormalized | extractor2.py:305 | `10\u202fam-8\u202fpm` becomes `10 am-8 pm` |
| HoursScan.PlainSundayExample | extractor2.py:308-314 | `Sunday: [10 am-8 pm]` gives the one-entry map |
| HoursScan.NarrowSpaceExample | extractor2.py:305-314 | a range written with U+202F is read with plain spaces |
| OpeningHours.DefaultHours | extractor2.py:233-241 | Monday to Saturday default to `10 am-8:30 pm`, Sunday to `10 am-8 pm` |
| OpeningHours.DefaultSplits | extractor2.py:234-240 | both default ranges split into two parts on `-` |
| OpeningHours.ParseDay | extractor2.py:257-270 | a day entry keeps the open flag, has both instants on today, and needs a range of exactly two parts |
| OpeningHours.RangeFor | extractor2.py:250-255 | a day that is a key uses its scanned range; a missing day uses its default range, which splits into `10 am` and `8 pm` on Sunday and `10 am` and `8:30 pm` on the other days |
| OpeningHours.DayEntry | extractor2.py:250-255 | a day is open exactly when its name is a key |
| OpeningHours.CollectFailsIff | extractor2.py:248-270 | the loop fails iff some day fails |
| OpeningHours.CollectFirstFailure | extractor2.py:248-270 | the error is that of the first failing day |
| OpeningHours.ParseOpeningHours | extractor2.py:224-272 | the loop over the seven days gives exactly `Week` |
| OpeningHours.Week | extractor2.py:224-272 | a week that is returned has exactly the seven day names as keys |
| OpeningHours.WeekShape | extractor2.py:248-270 | in a returned week, `isOpen` holds iff the day is a key of the input |
| OpeningHours.WeekAt | extractor2.py:266-270 | each day holds its own entry |
| OpeningHours.WeekFailsIffSomeDayFails | extractor.py:188-212 | the week raises iff some day's range cannot be read |
| OpeningHours.FirstFailureRaised | extractor.py:188-212 | the error raised is the first failing day's, Monday first |
| OpeningHours.OnlyDaysMatter | extractor.py:188-190 | keys that are not exact day names, such as `monday`, have no effect |
| OpeningHours.ClosedDayDefaults | extractor.py:193-195 | a missing day is closed with the default times and never fails |
| OpeningHours.EmptyRowAllClosed | extractor.py:173-212 | an empty map gives seven closed days, 10:00 to 20:30 and Sunday 10:00 to 20:00 |
| OpeningHours.OpenDayEntry | extractor.py:190-210 | an open day's instants are its two converted times, or the first error |
| OpeningHours.ScannedRangesSplit | extractor.py:198 | a scanned range never fails on the split, only on a time |
| OpeningHours.OneOpenDay | extractor.py:188-212 | with one open day the other six are closed with defaults |
| OpeningHours.MondayOnlyWeek | extractor2.py:248-270 | the map `{Monday: 9 am-6 pm}` gives Monday open 9:00 to 18:00 and the rest closed |
| OpeningHours.NoBlankWeek | extractor2.py:262-263 | the map `{Monday: 10am-8pm}` raises for Monday on `10am` |
| OpeningHours.MondayPipeline | extractor2.py:121-122 | `Monday: [9 am-6 pm]` gives Monday open 9:00 to 18:00, the rest closed |
| OpeningHours.NoBlankPipelineRaises | extractor2.py:121-122 | `Monday: [10am-8pm]` is scanned but the hours parsing raises on `10am` |
| ImageUrl.DigitsEnd | extractor2.py:329 | `\d+` stops at the end or at the first non-digit |
| ImageUrl.TokenAt | extractor2.py:329 | a token at `i` has two non-empty digit groups |
| ImageUrl.Search | extractor2.py:330 | `re.search` finds a token at or after the start |
| ImageUrl.SearchLeftmost | extractor2.py:330 | the token found is the leftmost one; none iff there is none |
| ImageUrl.Replacement | extractor2.py:341 | the replacement text starts with `w` |
| ImageUrl.ReplacementReadsBack | extractor2.py:341 | for sizes `x, y >= 0` and no digit after it, the replacement is itself a token whose groups read back as `x` and `y` |
| ImageUrl.SubAllNone | extractor2.py:341 | `re.sub` keeps the text verbatim from a position after which no token starts |
| ImageUrl.ReplaceAt | extractor2.py:330-341 | a token at `i` with none starting in `[p, i)` is what `re.search` finds from `p`, and `re.sub` keeps `[p, i)` and replaces it |
| ImageUrl.FirstTokenAt | extractor2.py:330 | a token with none before it from `p` on is what `re.search` finds from `p` |
| ImageUrl.Rescale | extractor2.py:319-344 | a URL with no token is returned as it is |
| ImageUrl.NoTokenUnchanged | temp.py:37 | a URL without a token comes back unchanged |
| ImageUrl.OnlyToken | extractor2.py:329-341 | when the token `re.search` finds is the last one, the result is the URL with that token alone replaced by its scaled size |
| ImageUrl.SingleToken | temp.py:22-35 | `pre w<a>-h<b> post`, with no other token anywhere in `pre` or `post` (a `w` may occur there), becomes `pre w<a·k>-h<b·k> post` |
| ImageUrl.TwoTokens | extractor.py:267-280 | with exactly two tokens, whatever text lies around and between them, both become the first token's scaled values |
| ImageUrl.DefaultScaleExample | temp.py:12 | the default factor 7 turns `w100-h200` into `w700-h1400` |
| ImageUrl.LeadingZerosDropped | temp.py:27-33 | `w007-h010` becomes `w49-h70` |
| ImageUrl.TwoTokensExample | temp.py:33 | `w1-h2/w3-h4` becomes `w7-h14/w7-h14` |
| ImageBackfill.RescaleAll | temp.py:54 | a comprehension that does not raise gives a list of the old length |
| ImageBackfill.RescaleAllFails | temp.py:54 | the comprehension raises `TypeError` exactly when some element is not a string |
| ImageBackfill.RescaleAllAt | temp.py:54 | element `i` of the new list is element `i` of the old one, a string, rescaled |
| ImageBackfill.Raised | temp.py:54-58 | only a selected document can make the body raise |
| ImageBackfill.RaisedIff | temp.py:54-58 | the body raises `TypeError` iff the list holds an element that is not a string, and `IndexError` iff the list is empty |
| ImageBackfill.Backfilled | temp.py:52-57 | only an extracted document whose list holds only strings changes; id and flag are kept and the list keeps its length |
| ImageBackfill.FirstRaising | temp.py:54-58 | the run stops at the first document on which the body raises |
| ImageBackfill.AfterRun | temp.py:48-58 | the collection keeps its size |
| ImageBackfill.FirstRaisingIs | temp.py:54-58 | a document is where the run stops iff every earlier one passes and it raises |
| ImageBackfill.VendorCollection.UpdateImages | temp.py:39-59 | the collection after the loop is `AfterRun` and the stop is at `FirstRaising` |
| ImageBackfill.OnlyImagesChange | temp.py:48-57 | ids and flags are kept; unselected documents are untouched; reached lists without a `TypeError` are rescaled element-wise |
| ImageBackfill.NotTextStopsUnchanged | temp.py:54-57 | a document whose list holds something other than a string stops the run with `TypeError` and is left as it was |
| ImageBackfill.AfterStopUnchanged | temp.py:54-58 | documents after the raising one are untouched |
| ImageBackfill.NoRaiseAllUpdated | temp.py:48-59 | with no empty list and only strings in the lists, every document is processed |
| ImageBackfill.PlainUrlsUnchanged | temp.py:37 | a list of URLs without tokens is written back as it was |
| Postcode.FirstPath | extractor2.py:114 | the alternative reported at a start is the first that fits there |
| Postcode.SearchFrom | extractor2.py:117 | `re.search` finds the leftmost start, or nothing when no start fits |
| Postcode.Group | extractor2.py:117-118 | `.group()` of the search is `None` exactly when the pattern fits at no start of the address |
| Postcode.GroupFits | extractor2.py:118 | the postcode is the substring of the address the pattern matched |
| Postcode.UkPostcode | extractor2.py:114-118 | the postcode is `None` exactly when the UK pattern fits nowhere; otherwise it is 5 to 8 characters and ends in a digit and two letters |
| Postcode.UkPathsShaped | extractor2.py:114 | every alternative of the pattern is `GIR 0AA` or ends with the inward code |
| Postcode.FoundAtStart | extractor2.py:117-118 | at the start the first fitting alternative gives the group |
| Postcode.UkFirstPaths | extractor2.py:114 | the alternatives start with `GIR 0AA`, then `A9 9AA`-style districts in the order of the pattern |
| Postcode.GirAnyCase | extractor2.py:114 | `GIR 0AA` matches in any letter case |
| Postcode.OneDigitDistrict | extractor2.py:114 | a letter other than G, a digit, a blank, then digit-letter-letter at the start is found, as `N1 9GU` |
| Postcode.NarrowPostcode | extractor.py:36-41 | the postcode is `None` exactly when `E\d{2} \w{3}` fits nowhere; otherwise it is `E`, two digits, a space and three word characters |
| Postcode.NarrowNeedsE | extractor.py:36 | without an `E` there is no narrow postcode |
| Postcode.NarrowExample | extractor.py:39-41 | `E14 5AB` is found |
| Postcode.NarrowMissesOtherDistricts | extractor.py:36 | `N1 9GU` is found by the UK pattern only |
| Table.CellStr | extractor2.py:99 | `astype(str)` keeps text and turns a missing cell into `"nan"` |
| Table.FillCell | extractor2.py:97 | `fillna("")` leaves no missing cell and keeps every other |
| Table.AddMissingColumns | extractor2.py:93-95 | afterwards the columns are the old ones and the selected ones, with no duplicate |
| Table.Frame.AddColumn | extractor2.py:95 | `df[col] = ""` appends a column of empty strings |
| Table.Frame.EnsureColumns | extractor2.py:93-95 | after the loop every selected column is present, old ones unchanged, new ones blank |
| Table.Frame.Select | extractor2.py:97 | `df[cols]` has exactly those columns, in that order, with their cells |
| Table.Frame.FillNa | extractor2.py:97 | every cell is filled |
| Table.Frame.ApplyColumn | extractor2.py:99-100 | one column becomes `f(str(cell))` row by row, the others are kept |
| Table.Frame.MapColumn | main.py:20 | one column becomes `f(cell)` row by row, the others are kept |
| Table.Frame.SetColumn | extractor2.py:103 | `df[col] = value` sets every row of the column, the others are kept |
| Table.Frame.Row | extractor2.py:116 | a row of `iterrows` has exactly the frame's columns |
| Table.Frame.SetCell | extractor2.py:134 | `df.at[i, col] = value` changes that one cell |
| Table.FirstPhone | extractor2.py:99 | the result has no comma and no blank |
| Table.FirstPhoneOfList | extractor2.py:99 | a list gives its first entry without blanks |
| Table.FirstPhoneSingle | extractor2.py:99 | a single number only loses its blanks |
| Table.FirstPhoneIdempotent | extractor2.py:99 | cleaning twice is cleaning once |
| Table.NoBlanks | extractor2.py:100 | `Phone` has no blank left |
| Table.NormalColumns | extractor2.py:91-100 | exactly the selected columns, each of the frame's height |
| Table.NormalCell | extractor2.py:97-100 | `Phones` is first-entry text, `Phone` blank-free text, every other cell filled |
| Table.SelectFilled | extractor2.py:93-97 | each selected cell is the source cell filled, `""` where the column was missing |
| Table.Normalize | extractor.py:14-27 | the frame has exactly the selected columns, each cell the normalised source cell |
| Table.NormalizeForUpload | extractor2.py:91-103 | the 13 columns normalised plus an `Email` column of `""` |
| Table.NormalizeLegacy | extractor.py:14-27 | the 12 columns normalised |
| Table.NormalizedCells | extractor2.py:97-100 | no normalised cell is missing; both phone columns are blank-free text |
| Emails.WithScheme | new2.py:54-55 | the URL gets `http://` exactly when it does not start with `http`; the result starts with `http` and ends with the URL |
| Emails.WithSchemeIdempotent | new.py:78-79 | prefixing twice is prefixing once |
| Emails.ExtractEmails | extractor2.py:53-74 | an empty URL gives `(None, None)`; both parts are present or neither; the primary is a match of the fetched page |
| Emails.NoEmailsIff | new2.py:51-72 | `(None, None)` iff the URL is empty, the fetch fails or the page has no match |
| Emails.FoundEmails | new2.py:63-66 | the emails are the distinct matches; the primary is the first and the additional the others joined with `", "`, never the primary |
| Emails.SingleDistinctEmail | new2.py:66 | one distinct email gives `(e, "")` |
| Emails.JoinedCommas | extractor2.py:66 | `", ".join` of comma-free parts holds one comma fewer than parts |
| Emails.AdditionalCount | extractor2.py:68 | with `k` distinct emails the additional text holds `k - 2` commas, or is `""` |
| Emails.ExtractEmail | new.py:77-93 | the result is the first match in page order or `"Email Not Found"` |
| Emails.ExtractorsAgree | new.py:87-89 | new.py finds nothing exactly when new2.py does; what it finds is one of new2.py's emails |
| Emails.MapsUrl | new.py:28 | the Maps URL ends with the place id |
| Emails.FieldText | new.py:35-50 | a missing element gives `"N/A"`, a present one its stripped text |
| Emails.GetBusinessDetails | new.py:12-74 | `None` iff the page load fails or the website anchor has no `href`; the place id is kept; email is `"N/A"` without a website, else the new.py extraction |
| Emails.NothingOnPage | new.py:35-67 | a page with no fields gives `"N/A"` everywhere but the place id |
| Emails.DetailsEmail | new.py:67 | the email is `"N/A"`, `"Email Not Found"` or a match on the website's page |
| EmailCsv.EmailsFor | new2.py:95-103 | a row gets an email only when the lookup found a website whose page lists it; no email means no additional emails |
| EmailCsv.EmailsForFound | new2.py:99-103 | a found primary email and its additional emails are stored as they are |
| EmailCsv.RecordRow | new2.py:90-103 | one row's email cells are set, every other cell is kept |
| EmailCsv.FillEmails | new2.py:89-110 | after the loop every row holds the emails of its place id |
| EmailCsv.ProcessCsv | new2.py:75-114 | without `Place Id` nothing changes; otherwise both columns start `""`, each row gets its place id's emails, and other columns are kept |
| Vendors.AllWorkingDays | extractor2.py:170 | all seven days, each `True` |
| Vendors.NewRecord | extractor2.py:136-171 | every field of `business_data`: the fixed defaults (city, country, state, flags, empty links and ratings, the zero `rating` map, empty `socialLinks`, every weekday `True`), both ids the document id, the row's raw website, place id, name, phones, description, latitude, longitude and street, and the computed address, category, images, emails, hours and postcode as given |
| Vendors.ResolvedWebsite | extractor2.py:126-128 | a non-empty website is used as it is; an empty one is replaced by the place-id lookup's result |
| Vendors.OrEmpty | extractor2.py:145-146 | `None` becomes `""` |
| Vendors.Registered | extractor2.py:173 | `row["Name"] in registered_vendors` holds iff the cell equals one of the registered names; a missing or numeric cell never does |
| Vendors.UploadStep | extractor2.py:117-177 | a write happens iff the name is not registered; the record written is `NewRecord` of the row and the document id, so every field copied from the row and every fixed default holds for it; it carries the row's `Fulladdress`, its UK postcode, the rescaled `Featured Image`, the raw website, the parsed week and the row's category; the `Email` cell and the record's email are the primary email of the resolved website's page (or `""`), and `additional_emails` the rest (or `""`) |
| Vendors.IsNameInList | extractor.py:143-161 | list membership; a missing or undecodable file names no one |
| Vendors.LegacyStep | extractor.py:39-94 | a write happens iff `names.json` does not list the name; the record written is `NewRecord` of the row and the document id, so every field copied from the row and every fixed default holds for it; it carries the row's `Fulladdress`, its narrow postcode, the rescaled `Featured Image`, the parsed week, category `Other`, email `""` and no additional emails |
| Vendors.UploadAgreesWithLegacy | extractor.py:49-83 | a row extractor2.py processes is one extractor.py processes, and the two records differ only in category, emails and postcode |
| Vendors.Run | extractor2.py:116-177 | the loop over the first `n` rows never finishes more than `n` |
| Vendors.RunStops | extractor2.py:116-177 | rows before the stop all finished; the stop is the error of the first row that raised |
| Vendors.RunEmails | extractor2.py:134 | a finished row's `Email` cell is its own step's email |
| Vendors.RunWriteFrom | extractor2.py:177 | every write comes from a finished row |
| Vendors.RunWriteOf | extractor2.py:177 | every finished row that writes is in the log |
| Vendors.RunAfterStop | extractor2.py:116-177 | after the first raising row nothing changes |
| Vendors.VendorStore.Set | extractor2.py:177 | `doc_ref.set` appends one write |
| Vendors.FinishRow | extractor2.py:134-177 | the `Email` cell is set and the write, if any, is logged |
| Vendors.RowLoop | extractor2.py:116-177 | the writes and the stop are `Run` of the row bodies; finished rows hold their emails, other cells are kept |
| Vendors.WriteLoop | extractor.py:38-96 | the writes and the stop are `Run` of the row bodies |
| Vendors.UploadAll | extractor2.py:116-179 | the loop over a normalised frame does what `UploadRun` says |
| Vendors.UploadLegacy | extractor.py:38-96 | the loop over a normalised frame does what `LegacyRun` says |
| Vendors.UploadRun | extractor2.py:116-177 | the loop finishes at most one row per row of the frame |
| Vendors.LegacyRun | extractor.py:38-94 | the loop finishes at most one row per row of the frame |
| Vendors.UploadWrittenIff | extractor2.py:173-177 | a finished row is written under its own id iff its name is not registered |
| Vendors.UploadDuplicatesWritten | extractor2.py:110 | two unregistered rows of the same name are both written: the registry is never updated |
| Vendors.UploadNoWriteAfterStop | extractor2.py:116-177 | every write belongs to a row before the stop |
| Vendors.UploadEmailCell | extractor2.py:134 | a finished row's `Email` cell is its step's email |
| Vendors.FallbackOnlyWhenEmpty | extractor2.py:126-128 | the lookup matters only for an empty `Website` |
| Vendors.EmailFromResolvedWebsite | extractor2.py:126-130 | a row's email is a match on its resolved website's page |
| Vendors.LegacyWrittenIff | extractor.py:90-94 | a finished row is written under its own id iff `names.json` does not list its name |
| Vendors.RunAllWritten | extractor.py:94 | when every finished step writes, there is one write per finished row |
| Vendors.MissingFileWritesAll | extractor.py:155-161 | without a readable `names.json` every finished row is written |
| Vendors.UploadCells | extractor2.py:91-103 | the normalised frame has every column the loop reads |
| Vendors.LegacyCells | extractor.py:14-27 | the normalised frame has every column the loop reads |
| Vendors.ExtractBusinessData | extractor2.py:88-179 | the writes and the stop are `UploadRun` of the normalised cells; the `Email` column holds the emails found |
| Vendors.ExtractLegacyBusinessData | extractor.py:8-96 | the writes and the stop are `LegacyRun` of the normalised cells |
| Export.MissingColumns | main.py:13 | empty iff every required column is present; only required, absent columns are named |
| Export.FirstEntry | main.py:20 | the text before the first comma: a comma-free prefix ended by a comma or the end |
| Export.PhonesAsWritten | main.py:20 | as written, a missing cell gives `"nan"` |
| Export.MissingPhonesAsWritten | main.py:20 | a missing `Phones` value gives `"nan"` |
| Export.PhonesCell | main.py:20 | a missing value gives `""`; any other its first entry |
| Export.PhonesOfList | main.py:20 | a list gives the text before its first comma |
| Export.BlanksKept | main.py:20 | blanks are kept, unlike in extractor.py |
| Export.Records | main.py:23 | one record per row, in order, keyed by the columns |
| Export.ExtractWith | main.py:4-23 | for a given rule for the `Phones` cell: raises naming exactly the missing columns; else one record per row, in order, exactly the eight columns with the row's cells, `Phones` mapped by the rule |
| Export.ExtractBusinessData | main.py:4-23 | as written: raises naming exactly the missing columns; else one record per row, in order, exactly the eight columns, `Phones` cut to the first entry of its text, so a missing cell gives `"nan"` |
| Export.ExtractBusinessDataIntended | main.py:20 | as the guard intends: the same records, except that a missing `Phones` cell gives `""` |

## Left out

- Selenium: driver setup, `get_website_from_place_id` and the page loading
  of `get_business_details`. The place-id lookup and the page load are
  parameters.
- `requests.get`, BeautifulSoup text extraction and the email regex
  `findall`. The fetch is a parameter returning the matches in page order,
  or a failure standing for any exception.
- Python's iteration order of `set(...)` is hash-dependent. It is a
  parameter required to list each distinct element once, so every property
  holds for every order.
- Firestore, Firebase and FCM are not modelled:
  - credentials and app initialisation;
  - `SERVER_TIMESTAMP` (`startTime` and `endTime` are not in the record);
  - `fetch_registered_vendors`, whose list is a parameter;
  - get_business_names.py;
  - `send_shop_onboard_notification`.
  Document ids are a parameter `newId`, and the `vendors` collection is the
  log of `set` calls.
- `location: GeoPoint(float(...), float(...))`: this is floating point. A
  latitude or longitude that `float()` cannot read does not raise in the
  model.
- Reading CSV and JSON files and writing CSV and JSON output. The frame read
  and the contents of `names.json` are inputs. A `names.json` holding JSON
  other than a list, where `in` would test keys or substrings, is not
  modelled.
- `asyncio.run`: the coroutine has no awaits. `time.sleep`, `print` and the
  module-level calls with example arguments are not modelled.
  `datetime.date.today()` is a parameter.
- `\w` and `\d` are ASCII only. Python also accepts other Unicode letters and
  digits in `str` patterns.
- Pandas type inference: a cell is text, missing (`NaN`) or another value
  kept by its `str()`.
- Vendors.UploadStep: the model raises when `Website` is not text. The source
  raises there too (`startswith` on a non-string), except for a falsy
  non-text value such as `0`, which it would send to the lookup.
- OpeningHours.ParseOpeningHours: the result is a map, so the Monday-to-Sunday
  insertion order of the Python dict is not part of it. The loop inserts the
  days in the order of `Days`.
- Vendors.IsNameInList: the entries of `names.json` are taken to be strings. A list
  holding numbers is not modelled; there `123 in [123]` holds for a numeric
  `Name`, and the message at extractor.py:91 would then raise `TypeError`.
- `fetch_registered_vendors` builds the registry by appending names in a loop.
  The registry is a parameter here.
- OpeningHours.ParseOpeningHours: `datetime.date.today()` is called again for
  each day (extractor2.py:261, extractor.py:201) and for each row. The model
  takes one date for the whole run, so a run that crosses midnight, where the
  later days or rows would get the next date, is not modelled.
- ImageBackfill: temp.py:58-59 put double-quoted strings inside double-quoted
  f-strings, which Python accepts only from version 3.12. Under an older
  interpreter the script does not load at all; the model follows Python 3.12.
- Vendors.RowLoop: `iterrows` yields copies of the rows taken before the
  loop. The model takes them from the frame at the start, so the
  `df.at[_, "Email"]` writes do not show in later rows. This is the same
  behaviour.

## Findings

| source | as written | input that shows it | evidently intended | confidence | as-written member | corrected member |
|---|---|---|---|---|---|---|
| main.py:20 | `astype(str)` runs before `pd.notna(x)`; with pandas 2.x it turns NaN into the text `"nan"`, so the guard always holds and a missing `Phones` cell becomes `"nan"` (pandas 3's default string dtype keeps the value missing) | a CSV row whose `Phones` cell is empty | a missing `Phones` value gives `""`, as the `else ""` branch says | medium, not executed | Export.MissingPhonesAsWritten | Export.ExtractBusinessDataIntended |
