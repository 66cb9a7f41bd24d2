# MiniGo crawl frontier and JSON diffs, modelled in Dafny

This project models three small Go programs from the MiniGo repository and
proves properties of them.

1. **The web crawler** (`webcrawler/webcrawl.go`). `main` seeds a crawl and
   five worker goroutines fetch pages. A dispatcher goroutine de-duplicates
   links through a visited set, enforces a depth limit of 2, queues child
   tasks and keeps a `sync.WaitGroup` counter of outstanding work. The
   same-host filter `filterAndResolveTags` is modelled too. Goroutines and
   channels become a sequential state machine (`Crawler.State`, `Crawler.Step`)
   run over an arbitrary sequence of actions, so every property proved about
   `Crawler.Run` holds for every interleaving the model admits.
2. **The revised JSON structural diff** (`recursiveDiffCheck` in
   `diffchecker/jsondiff.go`). It walks two decoded JSON values and appends
   `Change{Path, OldValue, NewValue}` entries to three lists: added, modified
   and deleted.
3. **The earlier draft** in the root `jsondiff.go`. This covers the flat
   user-list diff (`errCheck`, `constructMap`, `diffCheck`) and an incomplete
   first `recursiveDiffCheck`.

Both `recursiveDiffCheck` versions are one function, `JsonDiff.Walk`, with a
`Version` parameter (`Draft` or `Revised`). Its branches differ exactly where
the two Go functions differ. What each version reports is characterised
against `JsonDiffProperties.Expected`, which says independently which entry
belongs at each location below the current path:

- the revised walk reports exactly the expected entries (sound and complete),
  and no two entries of one list have the same segment path;
- the draft reports exactly the expected entries at the locations it reaches
  (`JsonDiffProperties.DraftSees`), again with no segment path twice in one
  list. It opens only two objects, or two arrays of which the old one is
  longer, and it returns at once for null, strings, bools and numbers;
- the revised walk reports nothing if and only if the two values are equal.

"No segment path twice" is a statement about the model's paths, which are
lists of keys and indices. Go keeps only the joined string, and a key may
itself contain ".": `{"a.b": 1, "a": {"b": 1}}` against `{"a": {}}` gives two
deleted entries that Go stores as the same `Change{Path: "a.b", OldValue: 1,
NewValue: nil}` (`JsonDiffProperties.GoPathsCollide`).

Go map iteration order is unspecified. The model fixes one arbitrary order
(`Collections.Enumerate`, a ghost choice), and every property of a map walk is
stated so that it holds for any order.

Files:

- `wrappers.dfy`: `Option` and `Result`.
- `collections.dfy`: `Distinct`, `Subsequence`, `Filter` and `Enumerate`.
- `json.dfy`: JSON values, paths and Go's path strings.
- `json_diff.dfy`: both walks.
- `json_diff_properties.dfy`: their characterisation.
- `user_diff.dfy`: the flat user-list diff.
- `url_filter.dfy`: `filterAndResolveTags`.
- `crawler.dfy`: the crawl state machine.
- `crawler_properties.dfy`: its invariant.

Four behaviours of the crawler code (`webcrawler/webcrawl.go`) worth knowing:

- **An unparsable href.** In `filterAndResolveTags` it fails the whole call
  (lines 102-105). The worker drops the error and sends an empty link list
  (line 44), so all links of that page are lost, not just the bad one.
- **A failed fetch.** The worker itself calls `wg.Done()` and sends no result
  (lines 37-41). The dispatcher never sees the task.
- **An unparsable start URL.** It is logged and then dereferenced as a nil
  `*url.URL` (lines 128-133), so the program panics and no crawl starts.
  `Crawler.Seed` returns a failure.
- **Every task carries the start string as its base URL.** The seed task gets
  the raw start string (line 134) and each child copies its parent's (line
  152). The worker resolves a page's hrefs against that base (line 44), not
  against the page's own URL, so relative links on deeper pages resolve as if
  they sat on the start page. `Crawler.Enqueue` and `CrawlerProperties.Bounded`
  state this.

## Model

| member | source | states |
|---|---|---|
| Urls.FilterAndResolveTags | webcrawler/webcrawl.go:93-113 | Fails exactly when the base URL or any href does not parse. A bad base is reported first, and the error names an input that did not parse. On success it returns the resolved hrefs whose host is the base's host, in input order. |
| Urls.ResolveFrom | webcrawler/webcrawl.go:101-112 | The href loop from position i: it fails exactly when a remaining href does not parse, and otherwise appends the remaining same-host resolutions to what was kept so far. |
| Urls.FilterKeepsSameHost | webcrawler/webcrawl.go:101-112 | Every kept link is on the base's host. Every resolved href on that host is kept. The kept links are a subsequence of the resolutions, so nothing is reordered. |
| Urls.OneBadHrefDiscardsAll | webcrawler/webcrawl.go:101-105 | A single unparsable href anywhere in the list makes the call fail, and the worker then has no links at all. |
| Crawler.Seed | webcrawler/webcrawl.go:126-134 | An unparsable start URL gives a failure. Otherwise the state has the start URL visited, counter 1, and exactly the depth-0 start task queued and sent. |
| Crawler.Work | webcrawler/webcrawl.go:36-52 | No result exactly when the fetch failed. Otherwise the result carries the task as its parent. Its links are empty when the base URL or any extracted href does not parse. Otherwise they are exactly the page's hrefs resolved against the base, kept when on the base's host, in page order. |
| Crawler.Enqueue | webcrawler/webcrawl.go:146-155 | The new tasks are exactly queued, counted and marked visited. Each is one of the links, at the parent's depth plus one with the parent's base URL, not visited before. No URL is sent twice. The URLs sent are exactly `Unseen(visited, links)`: the first unvisited occurrence of each string, in link order. Every link is visited afterwards. |
| Crawler.UnseenCovers | webcrawler/webcrawl.go:146-155 | The links `Unseen` keeps are links not visited, no two with the same string, and every string of the links is either visited already or kept. |
| CrawlerProperties.QueuedUnseen | webcrawler/webcrawl.go:146-155 | The tasks the loop sends are exactly the parent's children for the links `Unseen` keeps, one per link, in order. |
| CrawlerProperties.EnqueueKeepsFirst | webcrawler/webcrawl.go:146-155 | From nothing visited, the links a, b, a queue a and then b: a repeated link is queued at its first position only. |
| CrawlerProperties.FollowKeepsFirst | webcrawler/webcrawl.go:141-155 | A result below depth 2 whose links are a, b, a, with nothing visited, makes the dispatcher queue a and then b. |
| Crawler.EnqueueStep | webcrawler/webcrawl.go:147-154 | One link more: a link already visited adds nothing, and a new one heads the tasks sent. |
| Crawler.Follow | webcrawler/webcrawl.go:141-156 | Pops the oldest result. Below depth 2 its links are followed as `Enqueue` states: the tasks sent are for exactly `Unseen(visited, links)`, the first unvisited occurrence of each URL string, in link order, each queued, counted and marked visited. At depth 2 or more nothing is sent, visited or counted. |
| Crawler.DispatchOne | webcrawler/webcrawl.go:141-161 | The counter rises by the number of new tasks and then falls by one for the parent. A parent at depth 2 or more changes neither the tasks nor the visited set. |
| Crawler.Step | webcrawler/webcrawl.go:32-56 | Any worker or dispatcher step only adds to the visited set, the tasks sent and the `Done` count. |
| Crawler.Run | webcrawler/webcrawl.go:141-161 | Over any sequence of steps, visited only grows, tasks sent only grow and `Done` calls only grow. |
| CrawlerProperties.SeedInv | webcrawler/webcrawl.go:132-134 | The state after seeding satisfies the crawl invariant. |
| CrawlerProperties.TakeInv | webcrawler/webcrawl.go:34 | A worker receiving the oldest task keeps the invariant. |
| CrawlerProperties.FinishInv | webcrawler/webcrawl.go:36-52 | A worker finishing a task keeps the invariant, both when the fetch fails (it decrements directly) and when it sends a result. |
| CrawlerProperties.SentOnceGrows | webcrawler/webcrawl.go:147-153 | After a dispatch, the visited set is still exactly the URLs sent, none of them twice. |
| CrawlerProperties.InOrderGrows | webcrawler/webcrawl.go:152 | New tasks join the back of the task channel, which stays the newest tasks sent, in order. |
| CrawlerProperties.BoundedGrows | webcrawler/webcrawl.go:145-152 | Children of a task below depth 2, found on the start host, keep every task sent at depth at most 2, on the start host and with the start string as base. |
| CrawlerProperties.FollowInv | webcrawler/webcrawl.go:141-156 | Following a result's links keeps the invariant, up to the parent's pending `Done`. |
| CrawlerProperties.DoneInv | webcrawler/webcrawl.go:159 | The parent's `Done` restores the invariant. |
| CrawlerProperties.DispatchInv | webcrawler/webcrawl.go:141-161 | Handling a result keeps the invariant. |
| CrawlerProperties.StepInv | webcrawler/webcrawl.go:32-56 | Every transition keeps the invariant. |
| CrawlerProperties.RunInv | webcrawler/webcrawl.go:141-161 | Every sequence of transitions keeps the invariant. |
| CrawlerProperties.CrawlSafe | webcrawler/webcrawl.go:132-159 | In every run from the seed the following hold. The counter is never negative. No URL is sent twice, and the visited set is exactly the URLs sent. The site map has one page per task sent. Every task is at depth at most 2 and on the start host. |
| CrawlerProperties.ZeroMeansQuiet | webcrawler/webcrawl.go:165-170 | Under the invariant, the counter is zero if and only if no task is queued, held by a worker or waiting to be dispatched. |
| CrawlerProperties.Quiescent | webcrawler/webcrawl.go:165-170 | Once the counter is zero, no goroutine can change the state: `wg.Wait()` returning means the crawl is over. |
| CrawlerProperties.ChildrenCountedFirst | webcrawler/webcrawl.go:146-159 | Before the parent's `Done` the counter exceeds the number of children just queued. After it, the counter is at least that number, so it cannot reach zero while a child is outstanding. |
| CrawlerProperties.SentCount | webcrawler/webcrawl.go:175-178 | Tasks with distinct URLs have as many URL strings as tasks, so the printed site map lists one page per task sent. |
| JsonDiff.Walk | diffchecker/jsondiff.go:17-98 | Both versions only append: entries already in the three lists stay as a prefix. |
| JsonDiffProperties.WalkSound | diffchecker/jsondiff.go:17-90 | Every entry either version appends is the expected entry at its location, in the list of its kind. Its path is the current path extended by one segment per level descended. Every entry the draft appends lies at a location the draft sees. |
| JsonDiffProperties.WalkLeaf | diffchecker/jsondiff.go:81-90 | For two values that are not both objects or both arrays, the following hold. Equal values append nothing. Otherwise exactly one modified entry is appended at the current path, and its new value is a typed nil when the old value is an object or array. |
| JsonDiffProperties.DraftLeaf | jsondiff.go:76-135 | For two values that are not both objects or both arrays, the draft appends one modified entry at the current path when the old value is an object or an array, with the typed nil as new value. For any other old value it appends nothing. |
| JsonDiffProperties.LeafReported | diffchecker/jsondiff.go:19-24 | An object compared with a non-object, or an array with a non-array, gives the one modified entry at the current path, in both versions. The revised walk also reports a changed scalar or null there. |
| JsonDiffProperties.KeyStepComplete | diffchecker/jsondiff.go:26-37 | The iteration for an old key reports everything expected below that key: in the draft, everything the draft sees there. That is the deleted entry with a nil new value if the new object lacks the key, and the differences below it otherwise. |
| JsonDiffProperties.WalkKeysComplete | diffchecker/jsondiff.go:26-37 | The walk over the old object's keys reports everything expected below every key it visits, or, in the draft, everything the draft sees there. |
| JsonDiffProperties.AddKeysComplete | diffchecker/jsondiff.go:40-47 | Each key only the new object has yields its added entry with a nil old value. |
| JsonDiffProperties.WalkItemsComplete | diffchecker/jsondiff.go:55-61 | Every common index whose elements differ is descended into under the segment for that index, in both versions. |
| JsonDiffProperties.GoneReported | diffchecker/jsondiff.go:62-66 | Each index `len(new)..len(old)-1` yields a deleted entry with the old element and a nil new value. |
| JsonDiffProperties.ArrivedReported | diffchecker/jsondiff.go:74-78 | Each index `len(old)..len(new)-1` yields an added entry with a nil old value and the new element. |
| JsonDiffProperties.WalkComplete | diffchecker/jsondiff.go:17-90 | Every expected entry, at any depth, is appended at the current path extended by its location: by the revised walk always, and by the draft when the draft sees that location. |
| JsonDiffProperties.WalkOnce | diffchecker/jsondiff.go:17-90 | Neither version appends the same entry (segment path and values) twice to one list, because each location is visited once. |
| JsonDiffProperties.RevisedIsExact | diffchecker/jsondiff.go:17-90 | The revised walk appends exactly the expected entries, in the lists of their kinds, and no list receives the same entry twice; as each entry is fixed by its location, no two entries of one list share a segment path. |
| JsonDiffProperties.FindDifference | diffchecker/jsondiff.go:26-79 | Two different values always have some location carrying an expected entry. |
| JsonDiffProperties.NoChangesIffEqual | diffchecker/jsondiff.go:26-90 | The revised walk appends nothing if and only if the two values are equal. |
| JsonDiffProperties.DraftWithinRevised | jsondiff.go:75-139 | Every entry the draft appends, the revised walk appends too, in the same list. |
| JsonDiffProperties.DraftIsExact | jsondiff.go:75-139 | The draft appends exactly the expected entries at the locations it sees, no two in one list with the same segment path. So it reports: an old-only key as deleted with a nil new value; a new-only key as added; an object or array replaced by another kind as modified with a typed nil; and each index the new array lacks, when the old array is longer, as deleted. |
| JsonDiffProperties.DraftReportsDeletedKey | jsondiff.go:84-94 | The draft reports the key "a" of `{"a": null}`, missing from `{}`, as a deleted entry with a nil new value, so it does report what it sees. |
| JsonDiffProperties.DraftSilent | jsondiff.go:113-138 | The draft appends nothing when the old value is a string, bool, number or null, or when the old array is not longer than the new one. |
| JsonDiffProperties.DraftMisses | jsondiff.go:113-135 | A changed string, and a changed element of an array of unchanged length, are missed by the draft and reported by the revised walk. |
| Json.DecimalRoundTrip | diffchecker/jsondiff.go:58 | The decimal text `%d` prints for an index reads back as that index, so distinct indices give distinct path segments. |
| Json.PathTextAmbiguous | diffchecker/jsondiff.go:22 | The joined path string is ambiguous: the key "a.b" and the nested keys "a", "b" render the same `Path`. |
| JsonDiffProperties.GoPathsCollide | diffchecker/jsondiff.go:26-36 | For `{"a.b": 1, "a": {"b": 1}}` against `{"a": {}}` the revised walk deletes two different entries whose Go path strings are both "a.b", so Go's deleted list holds two equal values. |
| JsonDiffProperties.DeletionReported | diffchecker/jsondiff.go:26-36 | An expected deletion at a location appears, with a nil new value, in the revised walk's deleted list. |
| UserDiff.ErrCheck | jsondiff.go:20-24 | Succeeds exactly when there is no error, and otherwise fails with that error. |
| UserDiff.ConstructMap | jsondiff.go:26-33 | The keys are exactly the ids of the list. For a repeated id, the email of its last occurrence wins. |
| UserDiff.CompareOld | jsondiff.go:48-57 | Modified holds exactly the ids in both maps with different emails, and deleted exactly the ids only in the old map. Each appears once. |
| UserDiff.NewOnly | jsondiff.go:59-64 | Holds exactly the ids only in the new map, each once. |
| UserDiff.DiffCheck | jsondiff.go:35-67 | A decode failure of the old list wins, then one of the new list. Otherwise the result is exactly the ids of the new list that the old list lacks, each once, whatever the emails. |

## Left out

- HTTP fetching (`getHttpContent`) is network I/O. Its answer is a parameter of each `Finish` step: a page or none. Bodies of failed HTTP statuses count as pages, as in the code.
- Link extraction (`extractAbsoluteTags`) is a regular-expression library call. It is a function parameter `Env.extract` from bytes to href strings.
- URL parsing, reference resolution (section 5.2 of RFC 3986) and `String()` come from Go's `net/url` and are not part of this model. They are function parameters in `Urls.UrlLib`, and a URL is reduced to its host and its string form.
- Goroutines, channels, the mutex and the WaitGroup become the transitions of `Crawler.Step`. Five workers are any number of held tasks.
- Crawler.Step: the dispatcher's loop over one result's links is a single transition. Go lets workers receive, and even finish, newly queued children before that loop ends. Those worker steps only take from the front of the task channel, decrement the counter, or append a result to the result channel. The dispatcher does not read the result channel inside its loop, so they can be reordered after the loop. This reordering argument is not proved.
- The 1000-slot channel capacity, and the deadlock it could cause, are not modelled. Both channels are unbounded sequences.
- Closing the channels after `wg.Wait()`, the `done` channel, and workers exiting are not modelled. `CrawlerProperties.Quiescent` states what `wg.Wait()` returning means.
- That the crawl terminates is not proved.
- All logging and the final site-map printing are left out.
- JSON decoding and file reading in both `main` functions are left out. The diffs start from decoded values, and `UserDiff.DiffCheck` takes the two decoding outcomes as inputs.
- `float64` numbers are real numbers, since only equality is used.
- The `default` branch of the revised diff (diffchecker/jsondiff.go:91-96) is unreachable for decoded JSON and prints debugging output.
- JsonDiff.Walk: the draft returns `error`, and it is nil on every path (jsondiff.go:128-138). The walk returns only the three lists.
- JsonDiff.Walk: Go stores only the joined path string. The model keeps the path segments, and `Change.PathString` gives Go's string; `Json.PathTextAmbiguous` shows what the string loses.
- JsonDiffProperties.WalkOnce: distinctness holds for the model's entries, whose paths are segment lists, not for Go's. Go's lists can hold two equal `Change` values when an object key contains ".", because both entries render the same path string; `JsonDiffProperties.GoPathsCollide` exhibits such a pair.
- The order of entries produced by Go map iteration is not promised. Object-key properties are stated per location, which holds for every order.
- UserDiff.CompareOld and UserDiff.NewOnly promise no order within their lists, because Go's map order decides it.
- The draft's `main` (jsondiff.go:141-150) only decodes and prints, and is left out.
- `markdownpreviewer/*` is a file watcher and an HTTP server-sent-events broadcaster, outside the modelled core.
