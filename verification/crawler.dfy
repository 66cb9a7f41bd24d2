/** The crawl frontier of webcrawler/webcrawl.go as a sequential state
    machine. The goroutines of the program (five workers, the result
    dispatcher, `main`) share a task channel, a result channel, the visited
    set and a `sync.WaitGroup`; every interleaving of their steps is a
    sequence of the transitions below. A worker's step is split in two, as
    the program allows: receiving a task from the channel, and finishing it,
    so that tasks finish in any order while they are received in channel
    order. */
module Crawler {
  import opened Wrappers
  import opened Collections
  import opened Urls

  /** A fetched page body. */
  type Bytes = seq<bv8>

  /** CrawlTask: the start URL string every task carries, the URL to fetch,
      and how many links away from the start it was found. */
  datatype Task = Task(baseUrl: string, url: Url, depth: int)

  /** CrawlResult: a task and the same-host links found on its page. */
  datatype CrawlResult = CrawlResult(parent: Task, links: seq<Url>)

  /** Results of tasks at this depth are not followed. */
  const MaxDepth := 2

  /** The shared state of one crawl.
      - `visited`: the keys of `wc.visited` (a URL's `String()`);
      - `pending`: the WaitGroup counter;
      - `tasks`, `results`: the contents of the two channels, oldest first;
      - `active`: tasks a worker has received and not yet finished;
      - `enqueued`: every task ever sent on the task channel, in order;
      - `finished`: how many times `wg.Done()` has been called. */
  datatype State = State(
    visited: set<string>,
    pending: int,
    tasks: seq<Task>,
    active: seq<Task>,
    results: seq<CrawlResult>,
    enqueued: seq<Task>,
    finished: nat)

  /** What the crawl cannot compute itself: net/url, and the link extraction
      (`extractAbsoluteTags`, a regular expression over the page). */
  datatype Env = Env(lib: UrlLib, extract: Bytes -> seq<string>)

  /** One step of some goroutine.
      - `Take`: a worker receives the oldest task (worker, line 34);
      - `Finish(slot, page)`: the worker holding `active[slot]` fetched it,
        `page` being `getHttpContent`'s answer (None for nil), and either
        calls `wg.Done()` or sends its result (lines 36-52);
      - `Dispatch`: the dispatcher handles the oldest result (lines 141-161). */
  datatype Action = Take | Finish(slot: nat, page: Option<Bytes>) | Dispatch

  /** No URL string occurs in two tasks of `ts`. */
  predicate DistinctUrls(ts: seq<Task>) {
    forall i, j | 0 <= i < j < |ts| :: ts[i].url.text != ts[j].url.text
  }

  /** The URLs of the tasks, in order. */
  function UrlsOf(ts: seq<Task>): (r: seq<Url>)
    ensures |r| == |ts|
    ensures forall i | 0 <= i < |ts| :: r[i] == ts[i].url
  {
    if ts == [] then [] else [ts[0].url] + UrlsOf(ts[1..])
  }

  /** The set of URL strings of the tasks. */
  function TextsOf(ts: seq<Task>): set<string> {
    set t | t in ts :: t.url.text
  }

  /** The links whose URL string is neither in `seen` nor carried by an
      earlier link, in order: the first unvisited occurrence of each string. */
  function Unseen(seen: set<string>, links: seq<Url>): seq<Url>
    decreases |links|
  {
    if links == [] then []
    else if links[0].text in seen then Unseen(seen, links[1..])
    else [links[0]] + Unseen(seen + {links[0].text}, links[1..])
  }

  /** The URL strings of a list of links. */
  function LinkTexts(us: seq<Url>): set<string> {
    set u | u in us :: u.text
  }

  /** `Unseen` keeps unvisited links only, never two with one string, and
      loses no string: every string of `links` is in `seen` or kept. */
  lemma {:induction false} UnseenCovers(seen: set<string>, links: seq<Url>)
    ensures forall u | u in Unseen(seen, links) :: u in links && u.text !in seen
    ensures forall i, j | 0 <= i < j < |Unseen(seen, links)| ::
              Unseen(seen, links)[i].text != Unseen(seen, links)[j].text
    ensures LinkTexts(links) <= seen + LinkTexts(Unseen(seen, links))
    decreases |links|
  {
    if links != [] {
      var rest := links[1..];
      assert links == [links[0]] + rest;
      assert LinkTexts(links) == {links[0].text} + LinkTexts(rest);
      if links[0].text in seen {
        UnseenCovers(seen, rest);
      } else {
        var more := seen + {links[0].text};
        UnseenCovers(more, rest);
        var r := Unseen(seen, links);
        assert r == [links[0]] + Unseen(more, rest);
        assert LinkTexts(r) == {links[0].text} + LinkTexts(Unseen(more, rest));
        forall i, j | 0 <= i < j < |r| ensures r[i].text != r[j].text {
          assert r[j] in Unseen(more, rest);
          if i > 0 {
            assert r[i] == Unseen(more, rest)[i - 1];
          }
        }
      }
    }
  }

  /** Lines 126-134: the start URL is parsed, marked visited, counted and
      queued at depth 0. When it does not parse, Go logs the error and then
      calls `String()` on a nil URL, which panics: no crawl starts. */
  function Seed(lib: UrlLib, start: string): (r: Result<State, ParseError>)
    ensures r.Failure? <==> lib.parse(start).None?
    ensures r.Success? ==>
              var task := Task(start, lib.parse(start).value, 0);
              && r.value.tasks == r.value.enqueued == [task]
              && r.value.visited == {task.url.text}
              && r.value.pending == 1
              && r.value.active == [] && r.value.results == [] && r.value.finished == 0
  {
    match lib.parse(start)
    case None => Failure(ParseError(start))
    case Some(u) =>
      var task := Task(start, u, 0);
      Success(State({u.text}, 1, [task], [], [], [task], 0))
  }

  /** The worker's handling of one task, given the fetch outcome: no result
      when the page could not be fetched; otherwise the links of the page
      kept by `filterAndResolveTags` against the task's base URL, or no links
      at all when that reports an error (the error is dropped, line 44). */
  function Work(env: Env, task: Task, page: Option<Bytes>): (r: Option<CrawlResult>)
    ensures r.None? <==> page.None?
    ensures r.Some? ==> r.value.parent == task
    ensures r.Some? ==> forall l | l in r.value.links ::
              env.lib.parse(task.baseUrl).Some? && l.host == env.lib.parse(task.baseUrl).value.host
    ensures r.Some? && (env.lib.parse(task.baseUrl).None? || !AllParse(env.lib, env.extract(page.value))) ==>
              r.value.links == []
    ensures r.Some? && env.lib.parse(task.baseUrl).Some? && AllParse(env.lib, env.extract(page.value)) ==>
              var base := env.lib.parse(task.baseUrl).value;
              r.value.links == Filter(Resolutions(env.lib, base, env.extract(page.value)), OnHost(base))
  {
    match page
    case None => None
    case Some(body) =>
      var found := FilterAndResolveTags(env.lib, task.baseUrl, env.extract(body));
      Some(CrawlResult(task, found.GetOr([])))
  }

  /** `r` is `s` with the tasks `r.enqueued[|s.enqueued|..]` sent: each is
      queued, counted and marked visited. */
  predicate Grew(s: State, r: State) {
    && s.enqueued <= r.enqueued
    && var added := r.enqueued[|s.enqueued|..];
    && r.tasks == s.tasks + added
    && r.pending == s.pending + |added|
    && r.visited == s.visited + TextsOf(added)
  }

  /** The tasks `added` come from `links`: each at the parent's depth plus
      one with the parent's base URL, none visited in `seen` and none sent
      twice, in the order of `links`. */
  predicate Picked(seen: set<string>, added: seq<Task>, parent: Task, links: seq<Url>) {
    && (forall t | t in added ::
          && t.baseUrl == parent.baseUrl && t.depth == parent.depth + 1
          && t.url in links && t.url.text !in seen)
    && DistinctUrls(added)
    && Subsequence(UrlsOf(added), links)
  }

  /** What one pass of the dispatcher's loop over `links` does to `s`,
      yielding `r`: the tasks it sends are picked from the links, and
      afterwards every link is visited. */
  predicate Appended(s: State, r: State, parent: Task, links: seq<Url>) {
    && Grew(s, r)
    && Picked(s.visited, r.enqueued[|s.enqueued|..], parent, links)
    && (forall l | l in links :: l.text in r.visited)
  }

  /** The tasks sent on the way from `s` to `r` are for exactly the first
      unvisited occurrence of each URL string in `links`, in that order. */
  predicate FirstUnseen(s: State, r: State, links: seq<Url>)
    requires s.enqueued <= r.enqueued
  {
    UrlsOf(r.enqueued[|s.enqueued|..]) == Unseen(s.visited, links)
  }

  /** The dispatcher's loop over `result.FoundLinks` (lines 146-155), for a
      parent below the depth limit. Each link not yet visited is marked
      visited, counted and queued at the parent's depth plus one with the
      parent's base URL; a visited link, including one seen earlier in the
      same list, changes nothing. */
  function Enqueue(s: State, parent: Task, links: seq<Url>): (r: State)
    ensures Appended(s, r, parent, links) && FirstUnseen(s, r, links)
    ensures r.active == s.active && r.results == s.results && r.finished == s.finished
    decreases |links|
  {
    if links == [] then s
    else
      var next := Visit(s, parent, links[0]);
      var r := Enqueue(next, parent, links[1..]);
      EnqueueStep(s, r, parent, links);
      r
  }

  /** One iteration of that loop. */
  function Visit(s: State, parent: Task, link: Url): State {
    if link.text in s.visited then s
    else
      var task := Task(parent.baseUrl, link, parent.depth + 1);
      s.(visited := s.visited + {link.text}, pending := s.pending + 1,
         tasks := s.tasks + [task], enqueued := s.enqueued + [task])
  }

  /** The inductive step of `Enqueue`'s contract. */
  lemma EnqueueStep(s: State, r: State, parent: Task, links: seq<Url>)
    requires links != []
    requires Appended(Visit(s, parent, links[0]), r, parent, links[1..])
    requires FirstUnseen(Visit(s, parent, links[0]), r, links[1..])
    ensures Appended(s, r, parent, links) && FirstUnseen(s, r, links)
  {
    var link := links[0];
    var next := Visit(s, parent, link);
    assert links == [link] + links[1..];
    if link.text in s.visited {
      SubsequenceSkip(UrlsOf(r.enqueued[|s.enqueued|..]), links[1..], link);
    } else {
      var task := Task(parent.baseUrl, link, parent.depth + 1);
      var later := r.enqueued[|next.enqueued|..];
      GrewNew(s, next, r, task);
      PickedNew(s.visited, later, parent, links);
      assert r.enqueued[|s.enqueued|..] == [task] + later;
    }
  }

  /** Sending `task` and then `later` grows the state by `[task] + later`. */
  lemma GrewNew(s: State, next: State, r: State, task: Task)
    requires next == s.(visited := s.visited + {task.url.text}, pending := s.pending + 1,
                        tasks := s.tasks + [task], enqueued := s.enqueued + [task])
    requires Grew(next, r)
    ensures Grew(s, r)
    ensures r.enqueued[|s.enqueued|..] == [task] + r.enqueued[|next.enqueued|..]
  {
    var later := r.enqueued[|next.enqueued|..];
    var added := r.enqueued[|s.enqueued|..];
    assert added == [task] + later;
    assert TextsOf(added) == {task.url.text} + TextsOf(later);
  }

  /** A first link not yet seen, followed by tasks picked from the rest. */
  lemma PickedNew(seen: set<string>, later: seq<Task>, parent: Task, links: seq<Url>)
    requires links != [] && links[0].text !in seen
    requires Picked(seen + {links[0].text}, later, parent, links[1..])
    ensures Picked(seen, [Task(parent.baseUrl, links[0], parent.depth + 1)] + later, parent, links)
  {
    var link := links[0];
    var task := Task(parent.baseUrl, link, parent.depth + 1);
    var added := [task] + later;
    assert forall t | t in added ::
        && t.baseUrl == parent.baseUrl && t.depth == parent.depth + 1
        && t.url in links && t.url.text !in seen by {
      forall t | t in added
        ensures t.baseUrl == parent.baseUrl && t.depth == parent.depth + 1
        ensures t.url in links && t.url.text !in seen
      {
        if t != task {
          assert t in later;
          assert t.url in links[1..];
        }
      }
    }
    DistinctPrepend(task, later);
    assert Subsequence(UrlsOf(added), links) by {
      assert UrlsOf(added) == [link] + UrlsOf(later);
      assert ([link] + UrlsOf(later))[1..] == UrlsOf(later);
    }
  }

  /** A task whose URL string none of `later` has can go in front. */
  lemma DistinctPrepend(task: Task, later: seq<Task>)
    requires DistinctUrls(later)
    requires forall t | t in later :: t.url.text != task.url.text
    ensures DistinctUrls([task] + later)
  {
    var added := [task] + later;
    forall i, j | 0 <= i < j < |added|
      ensures added[i].url.text != added[j].url.text
    {
      assert added[j] == later[j - 1];
      if i > 0 {
        assert added[i] == later[i - 1];
      }
    }
  }

  /** The dispatcher's handling of the oldest result up to `wg.Done()`
      (lines 141-156): the result leaves the channel and its links are
      followed only when its task is below the depth limit. */
  function Follow(s: State): (r: State)
    requires s.results != []
    ensures r.results == s.results[1..] && r.active == s.active && r.finished == s.finished
    ensures s.results[0].parent.depth < MaxDepth ==> Appended(s, r, s.results[0].parent, s.results[0].links)
    ensures s.results[0].parent.depth < MaxDepth ==> FirstUnseen(s, r, s.results[0].links)
    ensures s.results[0].parent.depth >= MaxDepth ==>
              r.enqueued == s.enqueued && r.tasks == s.tasks && r.visited == s.visited && r.pending == s.pending
  {
    var res := s.results[0];
    var popped := s.(results := s.results[1..]);
    if res.parent.depth < MaxDepth then Enqueue(popped, res.parent, res.links) else popped
  }

  /** The whole of the dispatcher's handling of one result (lines 141-161):
      the links are followed first and the parent's `wg.Done()` comes last,
      so the counter goes up by the number of new tasks before it goes down
      by one. */
  function DispatchOne(s: State): (r: State)
    requires s.results != []
    ensures r.results == s.results[1..] && r.active == s.active
    ensures r.finished == s.finished + 1
    ensures s.enqueued <= r.enqueued && s.visited <= r.visited
    ensures r.pending == s.pending + (|r.enqueued| - |s.enqueued|) - 1
    ensures s.results[0].parent.depth >= MaxDepth ==>
              r.enqueued == s.enqueued && r.tasks == s.tasks && r.visited == s.visited
    ensures s.results[0].parent.depth < MaxDepth ==>
              forall l | l in s.results[0].links :: l.text in r.visited
  {
    var followed := Follow(s);
    followed.(pending := followed.pending - 1, finished := followed.finished + 1)
  }

  /** One transition. An action whose goroutine cannot move (an empty
      channel, a slot no worker holds) leaves the state as it is. */
  function Step(env: Env, s: State, a: Action): (r: State)
    ensures s.visited <= r.visited && s.enqueued <= r.enqueued && s.finished <= r.finished
  {
    match a
    case Take =>
      if s.tasks == [] then s
      else s.(tasks := s.tasks[1..], active := s.active + [s.tasks[0]])
    case Finish(slot, page) =>
      if slot >= |s.active| then s
      else
        var task := s.active[slot];
        var others := s.active[..slot] + s.active[slot + 1..];
        (match Work(env, task, page)
         case None => s.(active := others, pending := s.pending - 1, finished := s.finished + 1)
         case Some(res) => s.(active := others, results := s.results + [res]))
    case Dispatch =>
      if s.results == [] then s else DispatchOne(s)
  }

  /** A run: the transitions in order. */
  function Run(env: Env, s: State, actions: seq<Action>): (r: State)
    ensures s.visited <= r.visited && s.enqueued <= r.enqueued && s.finished <= r.finished
    decreases |actions|
  {
    if actions == [] then s else Run(env, Step(env, s, actions[0]), actions[1..])
  }
}
