# Zhihu follower crawler — a Dafny model

This project models `crawler_user.py`, a crawler that does four things:

- It logs into Zhihu.
- It pages through the follower list of one topic by POSTing a cursor (`offset`, `start`).
- It builds a `ZhihuUser` from each follower's profile page.
- It appends each valid user as one JSON line to `user.json`.

The model covers four parts of the script:

- **Retry loop.** `ZhihuCommon.get` and `ZhihuCommon.post` share one retry loop. It makes at most five attempts. The class-wide `_last_get_page_fail` flag makes an attempt sleep ten seconds first. When every attempt fails, the bare `raise` runs outside any handler.
- **Profile parsing.** `ZhihuUser` parses the profile header, classifies the gender, reads the extra information outside the `try`, and implements `obj_to_dict` and `__str__`.
- **The crawler's steps.** `ZhihuCrawler` merges the configuration, runs `init_xsrf` and its broken handler, builds the login form, saves users with sorted keys, and runs the `do_crawler` loop with its cursor arithmetic.
- **Exceptions.** Every exception that escapes an operation is a value of `Web.Exception`.

The modules are:

- `Wrappers`: `Option`, `Result` and `Outcome`.
- `Text`: the Python `str.find`, `int()`, `str()`, the `s[3:]` slice and code-point order.
- `Web`: exceptions, JSON values and parsed documents. A parsed document is a set of lookups that have already been done. The `Transport` is a pair of functions giving each attempt's answer.
- `Retry`: the retry loop in closed form, plus the trace predicates.
- `Common`: the `ZhihuCommon` class state, with `RetryGet`, `RetryPost`, `Get` and `Post` as loops.
- `User`: the `ZhihuUser` class.
- `Crawler`: the `ZhihuCrawler` class and the pure specifications of login, `init_xsrf` and the crawl.

The imperative parts of the script are methods proved against the pure functions. The two request loops, `parse_extra_info`, `obj_to_dict`, `__str__` and `do_crawler`, with its inner loop over avatar links, are methods with loops. `_save_user` is a method without a loop. Their state lives in the classes `Common.ZhihuCommon` and `Crawler.ZhihuCrawler`. The appended file `user.json` is the sequence field `written`.

Five behaviours of the code are easy to misread:

- **Sleep before the first attempt.** The shared flag is checked before every attempt, the first included (`crawler_user.py:247-250`). So a call that follows a failed call sleeps before its first attempt. `Retry.PauseBefore` and `Retry.RunFirstAnswer` state this.
- **Error after five failures.** The bare `raise` runs after the handler has ended. Python therefore raises a `RuntimeError` ("No active exception to reraise"), never the last transport error. This is `NoActiveException`, and `Retry.RunAllFail` proves that no transport error escapes.
- **Scope of a failure.** `do_crawler` catches nothing. An exception from the listing POST or from a `ZhihuUser` constructor ends the crawl. `Crawler.Crawl` stops at the first pass that raises.
- **`init_xsrf` handler.** The handler calls `self._debug_print`, which `ZhihuCrawler` does not define. A failure therefore raises `AttributeError` (`Crawler.MissingDebugPrint`) instead of being logged.
- **Gender test.** The gender test is `find(...) > 0`. A class token that begins with `female` therefore counts as male, as `User.ClassifyFemalePrefix` shows.

## Model

| member | source | states |
|---|---|---|
| Text.Find | crawler_user.py:161 | `str.find`: -1 iff the substring occurs nowhere; otherwise it occurs at the result and at no earlier index |
| Text.NatToStringValue | crawler_user.py:191 | the decimal digits `str()` writes for a count read back as that count |
| Text.ParseIntToString | crawler_user.py:168-169 | `ParseInt` (Python `int()`) reads back every integer `IntToString` (Python `str()`) writes: `int(str(i)) == i`, negative ones included |
| Text.SliceFrom | crawler_user.py:76 | `s[k:]`: the suffix after `k` characters, empty when `k` is past the end, and prefix plus slice give back `s` |
| Text.StrLessIrreflexive | crawler_user.py:41 | the code-point order `sort_keys` uses is irreflexive |
| Text.StrLessTransitive | crawler_user.py:41 | that order is transitive |
| Text.StrictlySortedDistinct | crawler_user.py:41 | in a strictly sorted key list every earlier key is smaller than and different from every later one |
| User.DebugLine | crawler_user.py:116-118 | a message is printed, prefixed "[USER] ", iff its level is at least the object's level |
| User.DebugFilterMonotone | crawler_user.py:9-13 | lowering the threshold never hides a message, and at `verbose` every message is printed |
| User.FindPositive | crawler_user.py:161 | `find(sub) > 0` holds iff the substring occurs somewhere but not at index 0 |
| User.ClassifyTokenOccurrences | crawler_user.py:160-166 | `ClassifyToken`, the gender test, gives Female iff "female" occurs only after the start; Male iff not that and "male" occurs only after the start; unknown otherwise |
| User.ClassifyFemalePrefix | crawler_user.py:161-164 | a class token starting with "female" is classified as Male |
| User.NameOf | crawler_user.py:148-149 | the name succeeds iff the name span exists and its first child is text, and it is that text |
| User.CountOf | crawler_user.py:150-153 | a count succeeds iff the span's second child is a tag whose first child is text that `int()` accepts, and it is that integer |
| User.GenderOf | crawler_user.py:155-166 | no gender span gives "Unknown gender"; otherwise success iff the icon has at least two classes, classified from the second; always one of the three strings |
| User.AvatarOf | crawler_user.py:170 | the avatar succeeds iff the large avatar image exists and has `src`, and it is that `src` |
| User.ParsePageAllOrNothing | crawler_user.py:142-178 | `ParsePage`: a page is valid iff the header and every mandatory field read succeed, and then the fields are exactly those values |
| User.ExtraInfoSpec | crawler_user.py:180-186 | `ExtraInfoOver`, the extra information, fails with KeyError("title") iff a found span lacks `title`; otherwise its keys are the found keys, each mapped to its title |
| User.ParseExtraInfo | crawler_user.py:180-186 | the loop builds exactly the extra information of the five keys, or raises that KeyError |
| User.UserOfSpec | crawler_user.py:103-108 | `UserOf`, a constructed user, keeps its URL and is valid iff the fetch and the parse succeed; its extra keys are among the five; construction raises only KeyError("title"), and only for a parsed page |
| User.NewUser | crawler_user.py:103-108 | the constructor fetches through the shared state, keeps the retry discipline and yields exactly `UserOf` |
| User.ExtraRecordSpec | crawler_user.py:134-138 | the extra part of the record has exactly the given keys, each mapped to its value or "" |
| User.RecordOfKeys | crawler_user.py:124-140 | `RecordOf`, the dictionary of a user, has exactly the six profile keys and the five extra keys, an extra key holding its value or "" |
| User.RecordOfProfile | crawler_user.py:127-133 | in `RecordOf`, the six profile keys hold the name, URL, counts, gender and avatar URL |
| User.NoKeyClash | crawler_user.py:100-101 | no extra key coincides with a profile key, so the loop overwrites nothing |
| User.FillExtras | crawler_user.py:134-138 | the loop adds exactly the extra part of the record to the dictionary |
| User.ObjToDict | crawler_user.py:124-140 | `obj_to_dict` builds exactly the record of the user |
| User.ExtraTextEmpty | crawler_user.py:194-196 | `ExtraText`, the extra part of `__str__`, is empty iff none of the keys is present |
| User.ExtraTextSegments | crawler_user.py:194-196 | every present key's " key: value" piece occurs in `ExtraText` |
| User.DescribeHeadline | crawler_user.py:189-198 | `Describe` of a user without extra information is `Headline` alone, and it starts with "User " and the name |
| User.AppendExtras | crawler_user.py:194-196 | the loop appends exactly the extra text |
| User.Str | crawler_user.py:189-198 | `__str__` returns exactly the user's description |
| Retry.FirstAnswer | crawler_user.py:247-258 | the first answering attempt: every earlier one raised, and it answered (or none did) |
| Retry.Run | crawler_user.py:243-263 | a call's result is the first answer or NoActiveException, and it leaves the flag set iff it failed |
| Retry.RetryResultSpec | crawler_user.py:247-263 | `RetryResult`, what a call returns or raises: it answers iff some attempt responds, then with the first response; otherwise it raises NoActiveException |
| Retry.FailedEventsCounts | crawler_user.py:249-253 | `n` failed attempts are `n` requests, with a sleep before each except the first when the flag was clear |
| Retry.PauseCounts | crawler_user.py:249-250 | the pause before an attempt is one sleep, none only before a first attempt with the flag clear |
| Retry.AnsweredCounts | crawler_user.py:249-258 | `k` failures and an answer make `k + 1` attempts and `k` sleeps, plus one if the flag was set |
| Retry.RunFirstAnswer | crawler_user.py:247-258 | when attempt `k` is the first to answer, the call returns its response after `k + 1` attempts, sleeps as the flag dictates, and clears the flag |
| Retry.FirstAnswerAt | crawler_user.py:247-258 | the first answer is found at `k` when all earlier attempts raised and `k` answered |
| Retry.RunSucceedsIff | crawler_user.py:247-263 | a call answers iff one of its five attempts answers |
| Retry.RunAllFail | crawler_user.py:262-263 | five failures raise NoActiveException, never a transport error, after five attempts and four or five sleeps, leaving the flag set |
| Retry.RunAttemptsBound | crawler_user.py:247 | no call makes more than five attempts |
| Retry.FailedEventsSpaced | crawler_user.py:249-261 | failed attempts keep the backoff discipline and leave the flag set |
| Retry.PauseThenAttemptSpaced | crawler_user.py:249-257 | one attempt preceded by a sleep iff the flag is set keeps the discipline and sets the flag to its failure |
| Retry.AnsweredEventsSpaced | crawler_user.py:249-258 | failures followed by an answer keep the discipline and clear the flag |
| Retry.RunSpaced | crawler_user.py:243-263 | every call sleeps before an attempt exactly when the latest attempt in the process failed, and leaves the flag its result says |
| Retry.HistoryExtends | crawler_user.py:223 | the process-wide history keeps the discipline from one call to the next, the flag and sleep count following it |
| Common.GetAnswers | crawler_user.py:254 | the five possible answers of a GET are the transport's answers for that URL and attempt |
| Common.PostAnswers | crawler_user.py:276 | the five possible answers of a POST are the transport's answers for that URL, form and attempt |
| Common.FetchedSpec | crawler_user.py:243-263 | `Fetched`, what `get(url)` returns: the transport's first answer among the five attempts, or NoActiveException when all five raise, whatever the flag |
| Common.PostedSpec | crawler_user.py:265-284 | `Posted`, what `post(url, form)` returns: the transport's first answer among the five attempts, or NoActiveException when all five raise, whatever the flag |
| Common.ZhihuCommon.constructor | crawler_user.py:223-225 | the class state starts with the flag clear, no token, no sleeps and an empty history |
| Common.ZhihuCommon.SetXsrf | crawler_user.py:227-229 | `set_xsrf` stores the token and changes nothing else |
| Common.ZhihuCommon.RetryGet | crawler_user.py:243-263 | the GET loop returns `Run`'s result and leaves the flag, sleep count and history as `Run` says |
| Common.ZhihuCommon.Get | crawler_user.py:243-263 | `get` returns what the transport makes of the URL, whatever the flag; keeps the backoff discipline; the flag afterwards says whether it failed |
| Common.ZhihuCommon.RetryPost | crawler_user.py:265-284 | the POST loop returns `Run`'s result and leaves the flag, sleep count and history as `Run` says |
| Common.ZhihuCommon.Post | crawler_user.py:265-284 | `post` returns what the transport makes of the URL and form; keeps the discipline; the flag afterwards says whether it failed |
| Crawler.LoadConfigSpec | crawler_user.py:26-37 | `LoadConfig`: the configuration has the default keys plus the file's, the file's values win, the defaults fill the rest, and account and password are always present |
| Crawler.LoginChannel | crawler_user.py:84 | the channel is "email" iff the account contains '@', else "phone_num" |
| Crawler.LoginFormSpec | crawler_user.py:87-92 | `LoginForm` has exactly four fields: remember_me "true", the password, the token and the account under its channel |
| Crawler.LoginSpec | crawler_user.py:78-96 | `LoginOutcome` with a string account and a password: login posts to the channel's URL, even for an empty account; it succeeds with true iff the post answers with an "r" that `IsZero` accepts (Python `== 0`: true for 0, 0.0 and false), and raises iff the post or the "r" lookup fails |
| Crawler.LoginRaises | crawler_user.py:81-92 | `LoginOutcome` raises KeyError for a missing account, TypeError for a non-string account (its `len` fails) and KeyError for a missing password, before posting; a result needs a post that answers |
| Crawler.InitXsrfOutcome | crawler_user.py:44-55 | `init_xsrf` stores the page's token iff reading it succeeds; otherwise nothing is stored and the handler raises AttributeError |
| Crawler.XsrfOf | crawler_user.py:50-52 | the token read succeeds iff the home page is fetched and has the `_xsrf` input with a `value`, and is that value; a missing input raises TypeError |
| Crawler.Advance | crawler_user.py:74-76 | the offset moves by the number of follower divs even when reading the last id raises; no exception iff the page is non-empty and its last div has an `id` whose tail after three characters `int()` accepts, and then the last user id is `int(id[3:])`; otherwise the last user id is unchanged |
| Crawler.AdvanceRule | crawler_user.py:74-76 | with a last div id of three characters followed by the decimal of `v`, the cursor becomes (offset + count, `v`) |
| Crawler.AdvanceEmpty | crawler_user.py:74-76 | an empty page keeps the cursor and raises IndexError |
| Crawler.SortedRecordKeysSorted | crawler_user.py:41 | the eleven record keys in `sort_keys` order are strictly increasing |
| Crawler.SortedRecordKeysComplete | crawler_user.py:41 | those keys are exactly the profile keys and the extra keys |
| Crawler.EntriesIn | crawler_user.py:41 | a line lists the given keys in order, each with its value in the record |
| Crawler.EntriesInSorted | crawler_user.py:41 | for strictly sorted keys covering the record, the line holds every key of the record once, in increasing order, with its value |
| Crawler.RecordLineSorted | crawler_user.py:39-42 | `RecordLine`, the saved line of a user, holds exactly the keys of its record, in strictly increasing order, each with its value |
| Crawler.SaveAll | crawler_user.py:70-73 | the loop over a page's avatar links saves only valid users, at most one per link |
| Crawler.Visit | crawler_user.py:71-73 | one avatar link saves at most one user, and only a valid one |
| Crawler.SaveAllSpec | crawler_user.py:70-73 | every saved user is the user of one of the links; when no exception escapes, every link leading to a valid user has that user saved |
| Crawler.SaveAllOrder | crawler_user.py:70-73 | a loop that raises nothing saves exactly `ValidLinked`: the valid users of the links in link order, a user linked twice saved twice |
| Crawler.SaveAllRaised | crawler_user.py:70-73 | a loop that raises stopped at a link `n` that raised that exception, after visiting every earlier link cleanly and saving exactly `ValidLinked` of the links before `n` |
| Crawler.SaveAllVisited | crawler_user.py:70-73 | a loop that raises nothing visited every link without an exception |
| Crawler.SaveAllStops | crawler_user.py:70-73 | once a link raises, the rest of the page's links are not visited |
| Crawler.Step | crawler_user.py:60-76 | a pass that raises nothing moves the offset forward, and saves only valid users |
| Crawler.ListingAfter | crawler_user.py:60-69 | the follower page is read iff the POST of the cursor form answers and its `msg` can be read; a POST whose five attempts all raise gives NoActiveException |
| Crawler.StepCursor | crawler_user.py:74-76 | the offset moves by the page's div count once all links were visited, else the cursor stays and the pass raises; the last user id changes only in a pass that raises nothing |
| Crawler.Crawl | crawler_user.py:58-76 | the crawl saves only valid users |
| Crawler.CrawlEnds | crawler_user.py:59 | the offset never moves backwards, and a crawl that raises nothing ends with the offset at or past 100000 |
| Crawler.EmptyPageEndsCrawl | crawler_user.py:74-76 | an empty follower page ends the crawl with IndexError, the cursor unchanged, after saving that page's users |
| Crawler.CursorIgnoresProfiles | crawler_user.py:60-76 | where a pass raises nothing, the next cursor depends only on the listing, not on the profile pages |
| Crawler.ZhihuCrawler.constructor | crawler_user.py:15-24 | a new crawler shares the process's request state as it is (only the session is replaced), starts at the cursor (40, 1458573819), holds the merged configuration and has written nothing |
| Crawler.ZhihuCrawler.InitXsrf | crawler_user.py:44-55 | `init_xsrf` stores the token or raises as `InitXsrfOutcome` says; the history grows by one GET |
| Crawler.ZhihuCrawler.Login | crawler_user.py:78-96 | `login` returns or raises exactly as `LoginOutcome` says |
| Crawler.ZhihuCrawler.SaveUser | crawler_user.py:39-42 | `_save_user` appends exactly the user's sorted line |
| Crawler.ZhihuCrawler.SaveUsers | crawler_user.py:70-73 | the loop over avatar links raises what `SaveAll` says and appends exactly the lines of the users it saves |
| Crawler.ZhihuCrawler.VisitLink | crawler_user.py:71-73 | one link yields what `Visit` says and appends the line of its user only when that user is valid |
| Crawler.ZhihuCrawler.CrawlPage | crawler_user.py:60-76 | one pass raises, moves the cursor and appends lines exactly as `Step` says |
| Crawler.ZhihuCrawler.FetchListing | crawler_user.py:60-69 | the POST of `PageForm`, the three fields `offset`, `start` (the last user id) and `_xsrf`, gives the follower page or the exception `ListingAfter` says |
| Crawler.ZhihuCrawler.MoveCursor | crawler_user.py:74-76 | the cursor update is exactly `Advance` |
| Crawler.ZhihuCrawler.DoCrawler | crawler_user.py:58-76 | `do_crawler` ends with the exception, cursor and appended lines of `Crawl` from the starting cursor |

## Left out

- HTTP itself is a parameter: the session, headers, timeouts, TLS and `session_init`. The transport's answer to an attempt depends only on the request and the attempt's index within the call.
- HTML parsing with BeautifulSoup is left out. A document is the result of the lookups the code makes: the profile header spans, the avatar image, the extra-information spans, the `_xsrf` input and the follower listing.
- `time.sleep(10)` is a sleep counter. Wall-clock time is not modelled.
- Writing the default `config.json` back to disk is not modelled. Reading it is the optional dictionary given to the constructor.
- `user.json` is the sequence `written`, one entry per line. JSON escaping, `ensure_ascii=False` and the file's encoding are left out: a line is the sequence of key–value entries in key order.
- `get_and_save_page` and `_save_file` are left out: they only write pages to disk. `get_url` is a getter that nothing in the core calls. `main` only runs `init_xsrf`, then `login`, and `do_crawler` if login succeeded, printing the outcome; the three operations are modelled, the sequencing and every `print` are not.
- `_visited_user_url`, `root_topic`, `unclassed_topic`, `debug_fast_crawler`, `traversal_level_max` and the other file names are left out. Nothing in the core reads them.
- `int()` accepts ASCII digits with an optional sign, surrounding ASCII whitespace (space, and tab to carriage return) and single underscores between digits. Non-ASCII digits and non-ASCII whitespace, such as 0x85 or 0xA0, which `int()` also accepts, are not modelled: `ParseInt` rejects them.
- JSON values are null, booleans, integers, floats and strings. Lists and objects are not modelled, though a hand-written `config.json` could supply them.
- Crawler.LoginOutcome: raises TypeError for every non-string account. In Python a list- or object-valued account passes `len` and `'@' in` and is posted; the JSON values here have no lists or objects.
- User.Str: requires a valid user. On an invalid user Python's `__str__` raises AttributeError, because `_name` and `_extra_info` were never set; nothing in the program calls it on one.
- `requests` drops form fields whose value is `None`. The model keeps the token field as JSON null.
- Common.ZhihuCommon.RetryGet: the ghost history is assigned `Run`'s events when the loop exits, not event by event. The flag and the sleep count are updated step by step.
- Common.ZhihuCommon.RetryPost: same as RetryGet.
- Common.ZhihuCommon.Get: the five possible answers are computed before the loop starts. A real transport answers each attempt only as it is made.
- Crawler.ZhihuCrawler.Login: does not state the request history beyond keeping the backoff discipline (`Valid`).
- User.NewUser: does not state the request history beyond keeping the backoff discipline (`Valid`).
- Crawler.ZhihuCrawler.VisitLink: does not state the request history beyond keeping the backoff discipline (`Valid`).
- Crawler.ZhihuCrawler.SaveUsers: does not state the request history beyond keeping the backoff discipline (`Valid`).
- Crawler.ZhihuCrawler.FetchListing: does not state the request history beyond keeping the backoff discipline (`Valid`).
- Crawler.ZhihuCrawler.CrawlPage: does not state the request history beyond keeping the backoff discipline (`Valid`).
- Crawler.ZhihuCrawler.DoCrawler: does not state the request history beyond keeping the backoff discipline (`Valid`).
