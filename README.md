# UriOnlineJudgeWebScraper in Dafny

A model of the Kotlin class `UriOnlineJudgeWebScraper`. The scraper logs in to URI Online Judge and then searches the weekly leaderboard for a name. Each leaderboard row that contains the name is turned into a position and a four-line text block, and the blocks are returned sorted by position.

The model is split into modules:

- `Outcomes` (`outcomes.dfy`): the exceptions that can reach the caller, written as a `Result` datatype.
- `KotlinText` (`kotlin_text.dfy`): the Kotlin/JVM library calls the scraper relies on.
  - `split(" ")`, together with the `Join` that undoes it.
  - `toInt`, written as `Integer.parseInt`'s left-to-right digit loop and proved equal to "a numeral whose value fits in 32 bits".
  - `contains(…, ignoreCase)`.
- `StableSort` (`stable_sort.dfy`): `sortedBy`, written as insertion sort. Its result is proved sorted, a permutation of the input, and stable.
- `RankRow` (`rank_row.dfy`): `weeklyRankPairFormatter`. The imperative method, whose loop builds the Name, is proved equal to the function `FormatRow`. Round trips, error cases and the four-line layout are proved about that function.
- `PageCount` (`page_count.dfy`): the page count `getWeeklyRankPosition` reads from page 1's `table-info` element. Every match of `[0-9]* of ` is removed from the `table-info` text, then `toInt` is applied; a missing element means 1 page.
- `WebScraper` (`web_scraper.dfy`): the login exchange, the per-page filter, the loop over pages 2 .. count and the final sort.
  - The class `UriOnlineJudgeWebScraper` holds the `cookies` field.
  - Its method `Login` merges the POST's cookies into the field one key at a time.
  - Its method `GetWeeklyRankPosition` runs the search.

The HTTP exchanges and the HTML parsing are inputs to the model:

- the cookies of the login GET (`Result<Cookies>`);
- the login POST, as a function of the form it is sent (`LoginForm -> Result<LoginResponse>`);
- the page GET, as a function of the request (`Request -> Result<Page>`). A `Page` holds the texts of the `tr` elements of each `tbody` and the text of the `table-info` element, if there is one.

Exceptions become `Failure` values:

| Kotlin exception | model |
|---|---|
| `UriLoginException` | `LoginError` |
| `NumberFormatException` | `NumberFormatError` |
| `IndexOutOfBoundsException` | `IndexOutOfBounds` |
| anything the HTTP library throws | `Failure` returned by the inputs |

What the code does at the edges, and the model with it:

- A row with fewer than four tokens is not rejected.
  - With two tokens, the University is token 0.
  - With three tokens, the Name and the University are both token 1.
  - Only a row of one token fails, with an index error on `array[1]`, and only after `toInt` of token 0 succeeded.
- Points are never parsed as a number; they are copied as text.
- The University is always the single second-to-last token. The row `42 John Q Public Some University 1337` gives the Name `John Q Public Some` and the University `University`.
- A `table-info` text that does not reduce to a numeral is a `NumberFormatException`. There is no fallback to 1 page; only a missing element gives 1 page.

## Model

| member | source | states |
|---|---|---|
| RankRow.WeeklyRankPairFormatter | src/main/kotlin/UriOnlineJudgeWebScraper.kt:97-109 | The loop that builds the Name token by token, and the four `appendLine` calls, return exactly what `FormatRow` specifies, error cases included |
| RankRow.FormatRowOutcome | src/main/kotlin/UriOnlineJudgeWebScraper.kt:98-102 | `toInt` of token 0 runs first, so a non-numeral or out-of-range token 0 is a NumberFormatException for that token. Otherwise a row of one token fails on index 1. Every other row succeeds, with token 0's value as its position |
| RankRow.FieldsRoundTrip | src/main/kotlin/UriOnlineJudgeWebScraper.kt:98-107 | With at least four tokens: Position is token 0; the Name splits back into tokens 1 .. lastIndex-2; University and Points are the last two tokens; the four fields joined by spaces give back the row |
| RankRow.UnparseRoundTrip | src/main/kotlin/UriOnlineJudgeWebScraper.kt:98-107 | Fields whose Position, University and Points hold no space are read back unchanged from their space-joined row, whatever the Name holds |
| RankRow.FormatRowLines | src/main/kotlin/UriOnlineJudgeWebScraper.kt:99-108 | For a row without line breaks, the text splits on line feeds into exactly "Position: …", "Name: …", "University: …", "Points: …", then an empty piece after the last line feed |
| RankRow.FourLines | src/main/kotlin/UriOnlineJudgeWebScraper.kt:100-107 | Four `appendLine` calls on newline-free lines produce those four lines, each terminated |
| KotlinText.ParseIntSpec | src/main/kotlin/UriOnlineJudgeWebScraper.kt:99 | `toInt` succeeds exactly on an optional sign followed by at least one digit whose value lies in [-2^31, 2^31-1], with that value. Any other input is a NumberFormatException carrying the input |
| KotlinText.AccumulateValue | src/main/kotlin/UriOnlineJudgeWebScraper.kt:58 | The digit loop of `toInt`, resumed after any prefix of digits, ends with the negated value of all the digits exactly when they are all digits and that value stays within the limit |
| KotlinText.ParseIntRoundTrip | src/main/kotlin/UriOnlineJudgeWebScraper.kt:99 | `toInt` reads every 32-bit integer back from its decimal rendering, negative ones included |
| KotlinText.JoinSplit | src/main/kotlin/UriOnlineJudgeWebScraper.kt:98 | Joining the pieces of `split(" ")` with the separator gives back the input |
| KotlinText.SplitJoin | src/main/kotlin/UriOnlineJudgeWebScraper.kt:101-105 | Splitting a non-empty list of separator-free pieces joined by the separator gives the pieces back |
| KotlinText.JoinAppend | src/main/kotlin/UriOnlineJudgeWebScraper.kt:102-104 | Appending " " and a token to the joined Name is the join of the longer token list |
| KotlinText.SplitPiecesLack | src/main/kotlin/UriOnlineJudgeWebScraper.kt:98 | A character that occurs in the input only as the separator occurs in no piece |
| KotlinText.ContainsSpec | src/main/kotlin/UriOnlineJudgeWebScraper.kt:87 | `contains` holds exactly when the needle occurs at some index, comparing characters by `Char.equals(ignoreCase)` |
| KotlinText.ContainsEmbedded | src/main/kotlin/UriOnlineJudgeWebScraper.kt:45 | A text holding the needle anywhere, between any prefix and suffix, contains it, whether or not case is ignored |
| PageCount.MatchesAtIsRegexMatch | src/main/kotlin/UriOnlineJudgeWebScraper.kt:58 | The scan's match test is the regular expression `[0-9]* of ` at that index: some run of digits (possibly empty) followed by " of " |
| PageCount.RemoveMatchesWithoutSpace | src/main/kotlin/UriOnlineJudgeWebScraper.kt:58 | A text without spaces contains no match, so the replacement leaves it unchanged |
| PageCount.RemoveMatchesOfShape | src/main/kotlin/UriOnlineJudgeWebScraper.kt:58 | In "<digits> of <digits>" the replacement leaves exactly the trailing digits |
| PageCount.TotalPagesOfShape | src/main/kotlin/UriOnlineJudgeWebScraper.kt:58 | A `table-info` text "<p> of <t>" gives t's value as the page count when that value fits in 32 bits |
| PageCount.TotalPagesRejects | src/main/kotlin/UriOnlineJudgeWebScraper.kt:58 | A text that does not reduce to a numeral is a NumberFormatException for what is left, not a single page |
| StableSort.SortByCorrect | src/main/kotlin/UriOnlineJudgeWebScraper.kt:68 | `sortedBy` returns a permutation of its input, ordered by key, in which entries with equal keys keep their input order |
| StableSort.InsertSorted | src/main/kotlin/UriOnlineJudgeWebScraper.kt:68 | Inserting into a sorted list keeps it sorted |
| StableSort.InsertWithKey | src/main/kotlin/UriOnlineJudgeWebScraper.kt:68 | Insertion puts the new element first among the entries that have its key |
| WebScraper.LoginRejectsMarker | src/main/kotlin/UriOnlineJudgeWebScraper.kt:45-46 | A POST answer whose body holds the invalid-login marker anywhere ends the login with LoginError("Invalid user or password"), whatever its cookies |
| WebScraper.LoginExchange | src/main/kotlin/UriOnlineJudgeWebScraper.kt:29-49 | A failed GET or POST is the login's failure. A POST body holding the invalid-login marker is LoginError("Invalid user or password"). Otherwise the session has the keys of both responses; the POST's value wins for a shared key and the GET's value is kept for every other key |
| WebScraper.UriOnlineJudgeWebScraper.Login | src/main/kotlin/UriOnlineJudgeWebScraper.kt:29-49 | The method, which merges the POST's cookies into the field one at a time, leaves the session `LoginExchange` describes. A failed GET leaves the field as it was. A later failure leaves the GET's cookies in the field, because line 32 assigned them before the POST |
| WebScraper.UriOnlineJudgeWebScraper.constructor | src/main/kotlin/UriOnlineJudgeWebScraper.kt:13 | The session starts empty |
| WebScraper.Create | src/main/kotlin/UriOnlineJudgeWebScraper.kt:6-17 | Constructing the scraper logs in. A failed login leaves no scraper; a successful one leaves a new scraper holding the login's session |
| WebScraper.MatchingRowsExact | src/main/kotlin/UriOnlineJudgeWebScraper.kt:84-87 | The filter keeps a row exactly when it is a row of the table containing the name, ignoring case |
| WebScraper.MatchingRowsAppend | src/main/kotlin/UriOnlineJudgeWebScraper.kt:84-87 | The filter distributes over concatenation, so it keeps the table order |
| WebScraper.FormatAllEntries | src/main/kotlin/UriOnlineJudgeWebScraper.kt:88-89 | A successful formatting has one entry per kept row, each the formatting of that row |
| WebScraper.FormatAllFails | src/main/kotlin/UriOnlineJudgeWebScraper.kt:88-89 | Formatting fails exactly when some kept row fails, and then with the error of the first such row |
| WebScraper.ByPageMatches | src/main/kotlin/UriOnlineJudgeWebScraper.kt:77-90 | A page's result is the fetched document, which has a first `tbody`; its matches are, in order, the formattings of the rows of that `tbody` containing the name |
| WebScraper.ByPageEntries | src/main/kotlin/UriOnlineJudgeWebScraper.kt:84-89 | Every match of a page formats a row of that page containing the name |
| WebScraper.PagesUpToFailurePersists | src/main/kotlin/UriOnlineJudgeWebScraper.kt:60-66 | Once a page fails, the search over every longer range of pages fails with that error |
| WebScraper.PagesUpToEntries | src/main/kotlin/UriOnlineJudgeWebScraper.kt:60-66 | Every entry collected from pages 2 .. last is a match of one of those pages |
| WebScraper.SearchPages | src/main/kotlin/UriOnlineJudgeWebScraper.kt:60-67 | The loop over pages 2 .. count appends each page's matches to page 1's, or returns the error of the first page that fails |
| WebScraper.PagesUpToFailsAt | src/main/kotlin/UriOnlineJudgeWebScraper.kt:60-66 | A failing page anywhere in 2 .. last makes the search over those pages fail |
| WebScraper.WeeklyRankPageFails | src/main/kotlin/UriOnlineJudgeWebScraper.kt:56-68 | Every stage is needed. The search fails, with no partial result, in three cases: page 1 fails; the page count fails (even when every page fetch succeeds); or some page between 2 and the page count fails |
| WebScraper.WeeklyRankOrdered | src/main/kotlin/UriOnlineJudgeWebScraper.kt:68 | A successful search returns the texts of a permutation of the collected matches that is sorted by position and keeps equal positions in collection order |
| WebScraper.CollectedEntries | src/main/kotlin/UriOnlineJudgeWebScraper.kt:56-67 | Every collected entry is the formatting of a row containing the name on a fetched page: page 1, or a page no greater than the page count |
| WebScraper.WeeklyRankFound | src/main/kotlin/UriOnlineJudgeWebScraper.kt:56-89 | Every returned line is the text of such an entry, from page 1 or a page no greater than the page count. A row without the name is never reported |
| WebScraper.SinglePage | src/main/kotlin/UriOnlineJudgeWebScraper.kt:57-68 | With no `table-info` element, or a page count of 1 or less, only page 1's matches are collected. The result is their texts sorted by position |
| WebScraper.PagesUpToIncludes | src/main/kotlin/UriOnlineJudgeWebScraper.kt:60-66 | In a successful search over pages 2 .. last, every one of those pages succeeded and all of its matches are among the entries |
| WebScraper.CollectedIncludes | src/main/kotlin/UriOnlineJudgeWebScraper.kt:56-67 | In a successful collection, page 1 and every page up to the page count succeeded, and all of their matches were collected |
| WebScraper.ByPageIncludes | src/main/kotlin/UriOnlineJudgeWebScraper.kt:84-89 | A row of a page's first `tbody` that contains the name is among that page's matches, formatted |
| WebScraper.WeeklyRankReports | src/main/kotlin/UriOnlineJudgeWebScraper.kt:68 | The sort loses no entry: every collected entry's text is in the result |
| WebScraper.WeeklyRankComplete | src/main/kotlin/UriOnlineJudgeWebScraper.kt:51-68 | Completeness, as the doc comment promises ("find all users … with a given name"). In a successful search, every row that contains the name, on page 1 or a page up to the page count, is formatted successfully and its text is in the result |
| WebScraper.UriOnlineJudgeWebScraper.GetWeeklyRankPosition | src/main/kotlin/UriOnlineJudgeWebScraper.kt:56-69 | The method returns exactly `WeeklyRank` for the session's cookies, so the lemmas above apply to it |

## Left out

- HTTP and HTML parsing:
  - Jsoup's connections and its HTML parser are not modelled. A fetched page is given as the texts of its `tbody`/`tr` elements and of `table-info`.
  - The whitespace normalisation of `Element.text()` is the input's business.
  - What the HTTP library throws arrives as a `Failure` from the inputs.
- The 500000 ms timeout is recorded in each page request but has no effect in the model.
- `WebScraper.UriOnlineJudgeWebScraper.Login`: the form carries an absent CSRF token as `None`. What the HTTP library does with a null form value is part of the login POST input.
- `WebScraper.SearchPages`: pages 2 .. count are searched one after another, not in coroutines on `Dispatchers.IO`. The model therefore fixes two things that are nondeterministic in the source:
  - the order in which later pages' matches are appended;
  - which page's exception surfaces when several fail (here, the lowest page).
  - The unsynchronised `addAll` on a shared list is not modelled either. The final sort hides the append order except among entries with equal positions.
- `KotlinText.ParseInt`: only ASCII digits are accepted. `Integer.parseInt` also accepts other Unicode decimal digits.
  - Arithmetic is on unbounded integers, with the overflow test written as "the running value goes below the limit". This is the condition the source's pre-multiplication and post-multiplication checks guard.
- `KotlinText.Contains`: case folding covers ASCII letters only, not Kotlin's full Unicode `uppercaseChar`/`lowercaseChar`.
- `PageCount.RemoveMatches`: a general regular-expression engine is not modelled. The replacement is written for the one pattern `[0-9]* of ` used at line 58.
- `Main.kt` (prompting for credentials, timing, printing) is not part of this model.
