# Carparks finder bot — a Dafny model of its core

The carparks finder bot is a Telegram bot. It stores each user's last shared location. On
request, it lists the five carparks nearest to that location, with their free lots. It pages
through the carpark metadata of the open-data datastore (HDB carpark information). It fetches
the live carpark availability and joins the two on the carpark number. It converts each
carpark's SVY21 coordinates to WGS84 and ranks the carparks by great-circle distance. A
background thread forgets locations older than ten minutes.

This project models that core in Dafny:

- `Text.dfy`: the Python string operations the join and the lot count depend on.
  `str.strip()` strips over Python's `str.isspace()` set. `str.upper()` is modelled on ASCII
  letters. `int()` is modelled on decimal text: surrounding whitespace, an optional sign, and
  digits with single underscores between them. `int()` skips a smaller whitespace set than
  `strip()`: the separators U+001C..U+001F are not skipped, so `int("\x1c5")` raises. It also
  refuses numerals of more than 4300 digits, Python's default `int_max_str_digits`.
- `Carparks.dfy`: the records, and one pass of the ranking loop's body for one metadata record
  (`RankRecord`). `Candidates` gives the list the loop collects, skipping every record whose
  body raises or finds no match.
- `Ranking.dfy`: the stable sort by distance, the cut to the first five, and the ranking loop
  itself as a method (`RankCarparks`).
- `Pagination.dfy`: the loop that fetches the metadata 100 records at a time
  (`FetchAllMetadata`).
- `Locations.dfy`: the `user_locations` dictionary as a class. It covers the upsert when a
  location is shared and one pass of the expiry sweep.
- `Bot.dfy`: the handler for the availability button. It ties the four pieces together and
  gives the two error replies.

The network replies, the coordinate transform, the haversine formula and `float()` are
parameters of the model. A `Datastore` is a function from (offset, limit) to a page reply. A
`Geo` value holds the float parser, the transform and the distance function. The proofs hold
for every choice of them.

Three behaviours of the code worth noting:

- A metadata page answered with a status other than 200 makes `fetch_carpark_info` return
  `[]`. The loop then stops and KEEPS the pages already collected. It is not a failure of the
  whole fetch (`Pagination.NonOkPageKeepsEarlierPages`). Only an exception fails the fetch.
- `available_lots` is the sum of whatever `int()` gives for the "C" entries. A negative count in
  the feed is summed as it is; nothing bounds it below.
- The first availability record whose trimmed, upper-cased number matches is the one used. If
  its `carpark_info` is empty, the carpark is skipped. A later duplicate is not consulted.

## Model

| member | source | states |
|---|---|---|
| Text.Strip | bot.py:131 | the stripped carpark number is no longer than the input and neither starts nor ends with a Python whitespace character |
| Text.TrimIsSliceAmid | bot.py:131 | `strip()` (and the trim inside `int()`) removes exactly the leading and the trailing whitespace: the result is the contiguous slice of the input between them |
| Text.StripIdempotent | bot.py:131 | stripping an already stripped number changes nothing |
| Text.Upper | bot.py:131 | `upper()` keeps the length, maps each character by the ASCII case mapping, and leaves no lower-case ASCII letter |
| Text.Normalize | bot.py:131 | the matching key `strip().upper()` is no longer than the input, has no whitespace at either end and no lower-case ASCII letter |
| Text.NormalizeIdempotent | bot.py:131 | `strip().upper()` is idempotent, so a normalized carpark number normalizes to itself |
| Text.NormalizeExample | bot.py:131 | " a1" and "A1" normalize to the same key "A1", so they match in the join |
| Text.ParseIntShape | bot.py:137 | what `int()` accepts is, once the whitespace it skips is dropped, non-empty, starts with a digit or a sign, ends with a digit and has at most 4300 digits |
| Text.IntSpaceExamples | bot.py:137 | `int(" 5\n")` and `int("\u30005")` are 5, while `int("\x1c5")` raises although `"\x1c5".strip()` is "5" |
| Text.RejectsLongNumerals | bot.py:137 | a numeral of more than 4300 digits makes `int()` raise, signed or not |
| Text.ParseIntOfDecimal | bot.py:137 | `int()` reads back every integer whose decimal form has at most 4300 digits (round trip) |
| Carparks.FirstIndex | bot.py:131 | the lookup finds the FIRST position holding the key, or reports that no position holds it |
| Carparks.FirstMatch | bot.py:131 | `next(...)` yields the first availability record whose normalized number equals the metadata record's normalized number, or None when no record matches |
| Carparks.CarLots | bot.py:137 | the C-type filter keeps exactly the entries whose `lot_type` is "C", each as many times as it occurs |
| Carparks.SumCarLots | bot.py:137 | a carpark_info list without C-type entries totals 0 |
| Carparks.SumCarLotsAppend | bot.py:137 | for `int()` as for any parser, the C-lot total of a concatenation is the sum of the totals, and it fails if either part fails |
| Carparks.SumCarLotsOnlyCarLots | bot.py:137 | for any parser, the total depends on the C-type entries only; other lot types are never parsed |
| Carparks.SumCarLotsDefined | bot.py:137 | the sum succeeds iff the parser (`int()` in the loop) accepts every C-type entry's `lots_available` |
| Carparks.SumCarLotsExample | bot.py:137 | [C "10", H anything] totals 10, even when the H count is not a number |
| Carparks.RankRecord | bot.py:124-146 | an entry built from a record keeps its number, address and free_parking (or "Unknown"), and its lot count is the C-lot total of the first matching availability record, whose carpark_info is not empty |
| Carparks.Candidates | bot.py:121-149 | the loop collects at most one entry per metadata record |
| Carparks.FilterMapMembers | bot.py:123-149 | a value is collected iff some input element produces it |
| Carparks.FilterMapSkip | bot.py:148-149 | an element whose body fails is skipped and leaves the rest of the list as it was |
| Carparks.SkippedRecordIgnored | bot.py:148-149 | a record that raises or finds no match contributes nothing, and the other records are collected in order |
| Carparks.RankRecordSkipped | bot.py:124-149 | a record is skipped iff x_coord or y_coord does not parse, no availability record matches, the matched `carpark_info` is empty, or a C-type count does not parse |
| Carparks.RankRecordProvenance | bot.py:125-146 | a ranked entry carries the record's own number and address, its free_parking or "Unknown", the transformed coordinates, their distance from the user, and the C-lot total of the first matching availability record |
| Carparks.CandidateProvenance | bot.py:121-149 | every collected entry is built that way from some metadata record |
| Ranking.AtDistanceMembers | bot.py:151 | the tie group at a distance holds exactly the entries at that distance |
| Ranking.InsertByDistance | bot.py:151 | inserting into the sorted list adds exactly that entry (as a multiset) |
| Ranking.InsertKeepsSorted | bot.py:151 | inserting into a list sorted by distance keeps it sorted |
| Ranking.InsertAtDistance | bot.py:151 | insertion puts the new entry ahead of the existing entries at its distance |
| Ranking.SortByDistance | bot.py:151 | `sorted(..., key=distance)` is a permutation of its input and is ordered by non-decreasing distance |
| Ranking.SortStable | bot.py:151 | the sort is stable: the entries at each distance keep their input order |
| Ranking.SortedDeterminedByTies | bot.py:151 | two sorted lists with the same tie groups are equal |
| Ranking.StableSortIsUnique | bot.py:151 | any sorted list with the input's tie groups IS the sort's result, so the sort is Python's stable sort |
| Ranking.SortedSplit | bot.py:151-153 | in a sorted list, every entry before a cut is no farther than every entry after it |
| Ranking.Nearest | bot.py:151-153 | the reply lists min(5, n) carparks, sorted by distance, drawn from the candidates (as a multiset) |
| Ranking.SortedPrefixFirst | bot.py:151-153 | what a sorted list leaves out after its first n entries is no nearer than what it keeps |
| Ranking.NearestIsNearest | bot.py:151-153 | no candidate left out of the reply is nearer than a listed one |
| Ranking.AtDistancePrefix | bot.py:153 | cutting a list keeps a prefix of each tie group |
| Ranking.NearestKeepsTieOrder | bot.py:151-153 | carparks at equal distance are listed in metadata order |
| Ranking.RankCarparks | bot.py:119-153 | the ranking loop collects exactly `Candidates` and returns its five nearest, sorted by distance |
| Ranking.SingleCarparkExample | bot.py:123-153 | metadata "A1" joins availability " a1"; its C lots (10) are counted, the unparsable H entry is ignored, and the missing free_parking reads "Unknown" |
| Pagination.FetchCarparkInfo | bot.py:74-82 | one page request fails only when it raises; a non-200 reply gives no records, a 200 reply its records |
| Pagination.FirstEndFrom | bot.py:105-111 | the first page at or after a given one that stops the loop, with no earlier stopping page in between |
| Pagination.LastPage | bot.py:105-111 | the page at which the loop stops: an exception, a short or empty batch, or a non-200 reply |
| Pagination.FetchAllMetadata | bot.py:103-112 | the paging loop returns the concatenation of the batches up to and including the stopping page, or fails when a page raises |
| Pagination.NonOkPageKeepsEarlierPages | bot.py:78-79 | a non-200 page stops the loop and adds nothing; the earlier pages are kept |
| Pagination.LastPageUnique | bot.py:105-111 | the stopping page is unique |
| Pagination.PagesAtTheirOffsets | bot.py:106-112 | after n full pages, the collected list has 100·n records and page i sits at offsets 100·i to 100·(i+1) |
| Pagination.TablePrefix | bot.py:74-82 | paging a well-behaved table of rows by full pages collects the table's prefix |
| Pagination.TablePage | bot.py:74-82 | page i of a well-behaved table is the rows from offset 100·i, at most 100 of them |
| Pagination.FullTablePage | bot.py:110-111 | a page of a well-behaved table before the last one is full, so the loop continues |
| Pagination.TableLastPage | bot.py:110-111 | page ⌊n/100⌋ of a table of n rows is short, so the loop stops there |
| Pagination.TableCollected | bot.py:103-112 | the pages up to ⌊n/100⌋ reassemble the table |
| Pagination.PagingReassemblesTable | bot.py:103-112 | paging a well-behaved datastore returns exactly its rows, including when the row count is a multiple of 100 (the extra empty page stops the loop) |
| Locations.LocationStore.constructor | bot.py:19 | the location store starts empty |
| Locations.LocationStore.HandleLocation | bot.py:53-57 | sharing a location sets that user's entry to the new coordinates and the current time, adds the user to the keys, and leaves every other user's entry as it was |
| Locations.LocationStore.Lookup | bot.py:95-100 | a lookup finds an entry iff the user has one, and it is that entry |
| Locations.LocationStore.ExpiredUsers | bot.py:167-172 | the first loop of a sweep lists exactly the users whose entry is more than 600 seconds old, each once, and changes nothing |
| Locations.LocationStore.CleanupPass | bot.py:167-175 | one sweep leaves exactly the entries that are not expired, unchanged |
| Locations.SweepKeepsFreshEntries | bot.py:171 | a sweep keeps an entry iff it is at most 600 seconds old (the comparison is strict: an entry exactly 600 seconds old survives) |
| Locations.SweepIdempotent | bot.py:167-175 | a second sweep at the same time removes nothing |
| Locations.SweepsCompose | bot.py:165-178 | a sweep at an earlier time followed by one at a later time equals the later sweep alone |
| Locations.SharedLocationLifetime | bot.py:53-57 | a freshly shared location survives a sweep iff the sweep runs at most 600 seconds after it was shared, whatever the user had before |
| Bot.FetchCarparkAvailability | bot.py:85-90 | the availability fetch fails iff the request raises, the status is 4xx or 5xx, or 'items' is empty; otherwise it gives the first item's carpark_data |
| Bot.ShowCarparkAvailability | bot.py:93-153 | a user without a stored location gets the "share your location first" reply, whatever the datastore holds, and nothing else does; a failed fetch gives the "failed to fetch" reply; otherwise the reply lists `Nearest(Candidates(...))` for the stored location |

## Left out

- The Telegram side is not modelled: the /start and /help handlers, keyboards, reply text and
  its formatting (including the `int(distance)` shown to the user), `set_my_commands` and
  `infinity_polling`. `ShowCarparkAvailability` returns the list the reply would show.
- HTTP and JSON are not modelled. A page reply is a status code with its records, or an
  exception. Malformed JSON and missing 'result'/'records'/'items'/'carpark_data' keys are all
  the exception case.
- The pyproj EPSG:3414 to EPSG:4326 transform, the haversine formula and `float()` are
  parameters (`Geo`). Floating point is modelled as exact reals, so NaN and infinities, and a
  NaN distance upsetting the sort, are outside the model.
- `str.upper()` is modelled on ASCII letters only. Non-ASCII case mapping, including mappings
  that change the length of a string, is not modelled.
- `int()` is modelled on text only. Non-ASCII decimal digits, and a `lots_available` that
  arrives as a JSON number rather than a string, are not modelled.
- Text.ParseInt fixes the digit limit at Python's default of 4300. An interpreter with another
  `int_max_str_digits` setting, or a Python older than the limit, is not modelled.
- A metadata record, an availability record or a `carpark_info` entry missing a key other
  than `free_parking` raises KeyError in the loop, and the metadata record is skipped. The
  record types here always have those keys, so that path is not modelled.
- Pagination.FetchAllMetadata requires that some page stops the loop, and so does
  Bot.ShowCarparkAvailability for a user with a stored location. Against a datastore that
  always returns full pages, the source loops forever, and the model does not cover that run.
- Locations.LocationStore.CleanupPass models one pass of the sweep. The `while True` loop, the
  60-second sleep, the daemon thread and the log line are not modelled. The order in which the
  pass visits the dictionary is not modelled either; the result does not depend on it.
- Concurrency between the sweep thread and the handlers is not modelled. Clock readings are
  parameters (`now`), and timestamps are reals.
- Reading the BOT_TOKEN environment variable at start-up is not modelled.
