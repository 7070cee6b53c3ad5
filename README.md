# Notice-board change detection, modelled in Dafny

`notice_watcher.py` polls a fixed list of university notice boards. For each
board it decides which listed posts are new against a persisted per-board list
of seen article identities, updates that list with bounded growth, saves the
state once and sends one e-mail when anything is new. This project models that
change-detection core and proves its properties.

- `seqs.dfy` (module `Seqs`): sequence vocabulary. It covers duplicate freedom,
  `Unique` (the key order of `dict.fromkeys`, first occurrence wins), `Take`
  (`s[:n]`), `Reversed`, and `Without` (the elements of one list absent from
  another).
- `articles.dfy` (module `Articles`): the tail of `extract_articles`.
  - Identity resolution: `ResolveId` is `re.search(r"/bbs/mjukr/\d+/(\d+)/artclView\.do", url)`, written out as a leftmost-match search, with the whole URL as the fallback.
  - The dict-based deduplication: the loop `Dedup` is specified by the function `Deduplicated`.
  - The stable descending sort by `sort_key`: `SortedByKey`.
  - `ExtractArticles`: the whole normalisation.
- `watcher.dfy` (module `Watcher`): the board loop of `main`.
  - `Step`: one board's classification and state update, as a pure function.
  - `Run`: the loop over all boards (`VisitAll`), specified by the function `Process`, then the notification decision. Each iteration is `VisitBoard`, which calls `ListOfSet` to produce `list(seen)` only when the board is not being seeded.
  - The notification decision.

Python's `list(seen)` lists a set in an order the language does not fix.
`ListOfSet` therefore picks the members of the set in an arbitrary order, and
`Step` takes that list as a parameter. Every property of the merged state holds
for any duplicate-free arrangement of the seen set (`Arrangement`). `Run` reports
the arrangements that occurred as a ghost out-parameter, and `Fits` states that
each one is an arrangement of the seen set the board had at that moment.

The previously seen identities that follow the current ones do not keep their
earlier order: the code appends `list(seen)` of a `set` (notice_watcher.py:170,
180). The model never claims that order is kept.

## Model

| member | source | states |
|---|---|---|
| Seqs.Unique | notice_watcher.py:180 | `dict.fromkeys` keeps each element once: the result has no duplicates, every input element is in it, and it holds nothing else |
| Seqs.UniqueFirstOccurrenceOrder | notice_watcher.py:180 | the kept keys are ordered by their first occurrence in the input |
| Seqs.UniqueAppendDistinct | notice_watcher.py:180 | deduplicating a list followed by a duplicate-free tail gives the deduplicated head followed by the tail's elements not in the head, in tail order |
| Seqs.UniqueSnoc | notice_watcher.py:180 | one more key is appended to the key order exactly when it is new |
| Seqs.Without | notice_watcher.py:180 | the seen entries that survive deduplication behind the current ids are exactly those not among them, duplicate-free when the seen list is |
| Seqs.UniqueExtends | notice_watcher.py:180 | appending never changes the deduplicated head, which stays a prefix |
| Seqs.Take | notice_watcher.py:166 | slicing `s[:n]` gives a prefix of length `min(n, len(s))` |
| Seqs.Reversed | notice_watcher.py:177 | `reversed` maps position `i` to position `len-1-i` |
| Seqs.SingletonArrangement | notice_watcher.py:180 | the only duplicate-free listing of a one-element set is that element |
| Articles.DigitsValue | notice_watcher.py:94 | `int(s)` of a run of ASCII digits, most significant first; SortKeyOfDecimal shows it inverts `str(n)` |
| Articles.SortKey | notice_watcher.py:93-94 | `sort_key`: the identity as an integer when it is all digits, else 0; SortKeyOfDecimal proves the key of `str(n)` is `n` |
| Articles.SortKeyOfDecimal | notice_watcher.py:93-94 | an identity that is a decimal number gets that number as its sort key |
| Articles.DigitRunEnd | notice_watcher.py:68 | a greedy `\d+` ends at the end of the maximal digit run |
| Articles.MatchAt | notice_watcher.py:68 | a match at a position captures a non-empty run of digits |
| Articles.MatchAtSound | notice_watcher.py:68 | a match at `i` means the URL spells `/bbs/mjukr/<digits>/<id>/artclView.do` at `i`, and the captured value is `<id>` |
| Articles.MatchAtComplete | notice_watcher.py:68 | wherever the URL spells such a path, the pattern matches there and captures its article number |
| Articles.Leftmost | notice_watcher.py:68 | `re.search` scans left to right: the position it stops at is a match, or the end of the URL |
| Articles.LeftmostFirst | notice_watcher.py:68 | no match starts before the position `re.search` stops at |
| Articles.ResolveIdSpec | notice_watcher.py:68-69 | the identity is the whole URL when no match occurs anywhere; otherwise it is the all-digit article number captured by the first match |
| Articles.ResolveId | notice_watcher.py:68-69 | the identity is the whole URL or an all-digit article number; ResolveIdSpec says which: the URL when nothing matches, else the capture of the leftmost match |
| Articles.ResolveArticleUrl | notice_watcher.py:68-69 | a post URL on the site, origin plus article path plus query, resolves to its article number |
| Articles.ToArticle | notice_watcher.py:80-85 | the record's identity is its URL or an all-digit article number (ResolveIdSpec says which); title, date and URL are the scraped ones |
| Articles.ToArticles | notice_watcher.py:80-85 | `items` holds one record per scanned link, in scan order, each built by `ToArticle` |
| Articles.LastIndex | notice_watcher.py:89-90 | locates the last record scanned with a given identity, which is the one the dict keeps |
| Articles.LastWith | notice_watcher.py:89-90 | the value `uniq[id]` holds after the scan: a scanned record with that identity, the last one (LastIndex) |
| Articles.Deduplicated | notice_watcher.py:88-91 | the identities of `list(uniq.values())` are the scanned identities in first-occurrence order |
| Articles.DeduplicatedSpec | notice_watcher.py:88-91 | after deduplication: identities are distinct; exactly the scanned identities occur; each record is the last scanned with its identity; records stand in first-occurrence order |
| Articles.Dedup | notice_watcher.py:88-91 | the dict-building loop, with the dict's insertion order kept, returns `Deduplicated` |
| Articles.Insert | notice_watcher.py:96 | the list after insertion holds exactly the inserted record and the records already there |
| Articles.InsertPermutes | notice_watcher.py:96 | insertion adds exactly one occurrence of the record |
| Articles.SortedByKey | notice_watcher.py:96 | the sorted list has exactly the members of the input |
| Articles.SortedNonIncreasing | notice_watcher.py:93-96 | with `reverse=True` the keys never increase along the result |
| Articles.SortedPermutes | notice_watcher.py:96 | the sort is a permutation: the same multiset of records |
| Articles.SortedStable | notice_watcher.py:96 | the sort is stable: for every key, the records with that key keep their relative order |
| Articles.SortedDistinct | notice_watcher.py:96 | sorting keeps distinct identities distinct |
| Articles.SortedByKeySpec | notice_watcher.py:93-96 | `sort(key=sort_key, reverse=True)` is non-increasing in the key and a permutation; it is stable (the records of each key keep their order); it keeps identities distinct |
| Articles.SortedByKeyIds | notice_watcher.py:96 | sorting keeps exactly the same identities |
| Articles.Normalised | notice_watcher.py:87-97 | what `extract_articles` returns: the deduplicated records sorted by key, largest first; NormalisedSpec states its properties |
| Articles.NormalisedSpec | notice_watcher.py:87-97 | `extract_articles` output: distinct identities; non-increasing keys; exactly the scanned identities; last record per identity; equal-key records in deduplicated order |
| Articles.ExtractArticles | notice_watcher.py:80-97 | the append loop, the dedup and the in-place sort together compute `Normalised` |
| Watcher.Seen | notice_watcher.py:170 | `set(state.get(name, []))`: the stored identities of the board, empty for a board without state; MergeShape and StepIdempotent use it as the seen set |
| Watcher.Seeds | notice_watcher.py:165 | the seeding branch is taken exactly for a board without state when no backlog is wanted; FirstSightingSeeds and BacklogReportsListing state both outcomes |
| Watcher.Unseen | notice_watcher.py:171 | the comprehension keeps exactly the listed articles whose identity is not seen |
| Watcher.UnseenAppend | notice_watcher.py:171 | filtering a concatenation is the concatenation of the filtered parts |
| Watcher.UnseenAt | notice_watcher.py:171 | an unseen article sits in the new list right after the unseen articles listed before it |
| Watcher.Report | notice_watcher.py:171-177 | `new_posts` for a board: the unseen posts cut to 50, reversed; NewPostsSpec, ReportSound, ReportComplete and ReportOrder state what it holds |
| Watcher.ReportSound | notice_watcher.py:171-177 | every reported post is listed and unseen |
| Watcher.ReportComplete | notice_watcher.py:171-177 | an unseen post with fewer than 50 unseen posts listed before it is reported |
| Watcher.ReportOrder | notice_watcher.py:174-177 | the report is the first 50 unseen posts, back to front |
| Watcher.Step | notice_watcher.py:160-181 | after processing a board, the board has a state entry and every other board's entry is unchanged |
| Watcher.FirstSightingSeeds | notice_watcher.py:165-168 | a new board without backlog is seeded with `ids[:300]` and reports nothing |
| Watcher.BacklogReportsListing | notice_watcher.py:165-177 | a new board with backlog wanted reports the first `min(len, 50)` listed posts, oldest first |
| Watcher.NewPostsSpec | notice_watcher.py:170-177 | reported posts are listed and unseen; their number is `min(unseen, 50)`; every unseen post with fewer than 50 unseen before it is reported; the report is the capped unseen list reversed |
| Watcher.MergeShape | notice_watcher.py:180-181 | the new seen list is the current ids deduplicated, then the seen ids that are not current, cut to 500; it has no duplicates, at most 500 entries, only current or seen ids, and its tail is seen and not current |
| Watcher.MergeKeepsCurrent | notice_watcher.py:174-181 | the current ids lead the new list; with at most 500 of them all are kept, including those cut by the 50-post cap |
| Watcher.MergeKeepsAll | notice_watcher.py:180-181 | while current and seen ids together number at most 500, the new list holds exactly their union |
| Watcher.StepIdempotent | notice_watcher.py:166-181 | within the caps, every listed identity is in the new state, and stepping again on the same listing reports nothing |
| Watcher.CappedPostsNeverResurface | notice_watcher.py:174-181 | with more than 50 and at most 500 new posts, exactly 50 are reported and none is reported on the next run |
| Watcher.AcademicBoardExample | notice_watcher.py:170-181 | seen `["100","99","98"]` with listing `["102","101","100","99"]` reports `["101","102"]` and stores `["102","101","100","99","98"]` for every set order |
| Watcher.StepWellFormed | notice_watcher.py:165-181 | on a normalised listing a step keeps every stored list duplicate-free and at most 500 long |
| Watcher.Put | notice_watcher.py:167-177 | `new_by_board[name] = posts` on an insertion-ordered dict: the key order is kept or extended by `name`, and only `name`'s entry changes |
| Watcher.TotalNew | notice_watcher.py:185 | `total_new`, the sum of the report lengths; TotalNewPositive says it is positive exactly when some board has a post |
| Watcher.TotalNewPositive | notice_watcher.py:185-186 | the total count of new posts is positive exactly when some board has a new post |
| Watcher.Visit | notice_watcher.py:160-181 | one board-loop iteration: the step on the normalised listing, then `new_by_board[name]`; the board's key keeps its place or is added last |
| Watcher.Process | notice_watcher.py:159-181 | `new_by_board` has one entry per configured board name, in first-configured order |
| Watcher.RunStep | notice_watcher.py:159-181 | one more board extends the run by one `Visit`, and the recorded set orders still fit exactly when the new order lists that board's seen set at that moment |
| Watcher.ProcessWellFormed | notice_watcher.py:159-181 | the loop keeps every stored list duplicate-free and within 500 |
| Watcher.ProcessBoards | notice_watcher.py:159-181 | after the loop every configured board has an entry; a stored board no longer configured is untouched |
| Watcher.ListOfSet | notice_watcher.py:180 | `list(seen)` lists every member of the set exactly once |
| Watcher.VisitBoard | notice_watcher.py:160-181 | one iteration of the board loop computes `Visit` on an arrangement of the board's seen set, or on none when it seeds; afterwards the board has a state entry, and its `new_by_board` key keeps its place or is added last |
| Watcher.VisitAll | notice_watcher.py:157-181 | the board loop: the final state and `new_by_board` are `Process` on the set orders that occurred, each an arrangement of the board's seen set at that point |
| Watcher.Run | notice_watcher.py:157-190 | the saved state and `new_by_board` are `Process` on the set orders that occurred, each an arrangement of the seen set at that point; `send_email` is called exactly when some board has a new post |

## Left out

- Fetching a listing over HTTP, with its status check and timeout (notice_watcher.py:50-51). This is network I/O.
- HTML selection, title normalisation, `urljoin` and the row date regex (notice_watcher.py:52-65, 72-78). These are foreign library calls. Their output, the raw records in scan order, is the `listing` input of a `Board`.
- Loading and saving `state.json` (notice_watcher.py:39-47). This is file I/O. The loaded state is `Run`'s parameter `loaded`; the saved state is its result `saved`, and it is returned once, after all boards.
- Reading `SEND_BACKLOG` (notice_watcher.py:155). This is environment access; `sendBacklog` is a parameter.
- `send_email` in full (notice_watcher.py:99-151): environment, clock, message text, SMTP. Only the decision to call it is modelled, as `Run`'s result `notified`. The console messages (notice_watcher.py:188, 190) are left out too.
- The board and tag constants (notice_watcher.py:18-37). The boards are a parameter.
- Digits. Python's `\d` and `str.isdigit` also accept non-ASCII digits; the model accepts only '0'..'9'.
- In-place updates. `items.sort` is Python's library sort, which is stable. It is modelled as a pure stable sort on values (`SortedByKey`), so in-place mutation and aliasing are not represented. `main`'s `state` and `new_by_board` are local variables of `VisitAll`, reassigned with the new map and list.
- A state file whose shape is not a mapping from board names to lists of strings. The model types the state as `map<string, seq<string>>`.
- Watcher.StepIdempotent: requires at most 300 listed ids on a seeding step and at most 500 otherwise. Beyond those caps the code itself does not keep every id, so a re-run can report posts again.
