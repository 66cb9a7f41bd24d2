/** What the crawl frontier of webcrawler/webcrawl.go keeps true under every
    interleaving of its goroutines: the WaitGroup counter equals the number
    of tasks not yet done and so never goes negative, no URL is queued twice,
    no task goes deeper than the limit or leaves the start URL's host, and
    the counter reaches zero only when nothing is left to do. */
module CrawlerProperties {
  import opened Wrappers
  import opened Collections
  import opened Urls
  import opened Crawler

  /** The counter is the number of tasks still in the task channel, held by a
      worker or waiting in the result channel, which is also the number of
      `wg.Add(1)` calls minus the number of `wg.Done()` calls. */
  predicate Counted(s: State) {
    && s.pending == |s.tasks| + |s.active| + |s.results|
    && s.pending == |s.enqueued| - s.finished
  }

  /** The task channel holds the most recently sent tasks, in the order they
      were sent. */
  predicate InOrder(s: State) {
    && |s.tasks| <= |s.enqueued|
    && s.tasks == s.enqueued[|s.enqueued| - |s.tasks|..]
  }

  /** The visited set is exactly the URLs sent so far, and no URL was sent
      twice. */
  predicate SentOnce(s: State) {
    && DistinctUrls(s.enqueued)
    && s.visited == TextsOf(s.enqueued)
  }

  /** Every task sent carries the start string, lies within the depth limit
      and is on the start URL's host. */
  predicate Bounded(start: string, seed: Url, s: State) {
    forall t | t in s.enqueued :: t.baseUrl == start && 0 <= t.depth <= MaxDepth && t.url.host == seed.host
  }

  /** The tasks a worker holds and the parents of the waiting results were
      all sent, and the links of the waiting results are on the start URL's
      host. */
  predicate Outstanding(seed: Url, s: State) {
    && (forall t | t in s.active :: t in s.enqueued)
    && (forall res | res in s.results :: res.parent in s.enqueued)
    && (forall res, l | res in s.results && l in res.links :: l.host == seed.host)
  }

  /** The invariant of a crawl from `start`. */
  predicate Inv(env: Env, start: string, s: State) {
    && env.lib.parse(start).Some?
    && var seed := env.lib.parse(start).value;
    && s.enqueued != [] && s.enqueued[0] == Task(start, seed, 0)
    && Counted(s)
    && InOrder(s)
    && SentOnce(s)
    && Bounded(start, seed, s)
    && Outstanding(seed, s)
  }

  /** The state `main` sets up satisfies the invariant. */
  lemma SeedInv(env: Env, start: string)
    requires Seed(env.lib, start).Success?
    ensures Inv(env, start, Seed(env.lib, start).value)
  {
    var s := Seed(env.lib, start).value;
    assert TextsOf(s.enqueued) == {s.enqueued[0].url.text};
  }

  /** The URL strings of a concatenation. */
  lemma TextsOfAppend(a: seq<Task>, b: seq<Task>)
    ensures TextsOf(a + b) == TextsOf(a) + TextsOf(b)
  {
    forall x | x in TextsOf(a + b) ensures x in TextsOf(a) + TextsOf(b) {
      var t :| t in a + b && t.url.text == x;
      if t !in a {
        assert t in b;
      }
    }
  }

  /** Tasks whose URL strings are new can be appended without a repeat. */
  lemma DistinctAppend(a: seq<Task>, b: seq<Task>)
    requires DistinctUrls(a) && DistinctUrls(b)
    requires forall t | t in b :: t.url.text !in TextsOf(a)
    ensures DistinctUrls(a + b)
  {
    var ab := a + b;
    forall i, j | 0 <= i < j < |ab|
      ensures ab[i].url.text != ab[j].url.text
    {
      if j >= |a| {
        assert ab[j] == b[j - |a|];
        if i < |a| {
          assert ab[i] in a;
        } else {
          assert ab[i] == b[i - |a|];
        }
      }
    }
  }

  /** A worker receiving a task keeps the invariant. */
  lemma TakeInv(env: Env, start: string, s: State)
    requires Inv(env, start, s)
    ensures Inv(env, start, Step(env, s, Take))
  {
    if s.tasks != [] {
      var r := Step(env, s, Take);
      assert s.tasks[0] in s.enqueued by {
        assert s.tasks[0] == s.enqueued[|s.enqueued| - |s.tasks|];
      }
      assert r.tasks == r.enqueued[|r.enqueued| - |r.tasks|..];
    }
  }

  /** A worker finishing a task keeps the invariant, whether the fetch failed
      and it calls `wg.Done()` or it sends a result. */
  lemma FinishInv(env: Env, start: string, s: State, slot: nat, page: Option<Bytes>)
    requires Inv(env, start, s)
    ensures Inv(env, start, Step(env, s, Finish(slot, page)))
  {
    if slot < |s.active| {
      var seed := env.lib.parse(start).value;
      var task := s.active[slot];
      var others := s.active[..slot] + s.active[slot + 1..];
      assert task in s.enqueued;
      assert task.baseUrl == start;
      assert forall t | t in others :: t in s.active;
      var r := Step(env, s, Finish(slot, page));
      match Work(env, task, page)
      case None =>
        assert r == s.(active := others, pending := s.pending - 1, finished := s.finished + 1);
      case Some(res) =>
        assert r == s.(active := others, results := s.results + [res]);
        assert forall x | x in r.results :: x in s.results || x == res;
    }
  }

  /** Sending new tasks keeps the visited set equal to the URLs sent, with
      no URL sent twice. */
  lemma SentOnceGrows(s: State, r: State)
    requires SentOnce(s) && Grew(s, r)
    requires DistinctUrls(r.enqueued[|s.enqueued|..])
    requires forall t | t in r.enqueued[|s.enqueued|..] :: t.url.text !in s.visited
    ensures SentOnce(r)
  {
    var added := r.enqueued[|s.enqueued|..];
    assert r.enqueued == s.enqueued + added;
    TextsOfAppend(s.enqueued, added);
    DistinctAppend(s.enqueued, added);
  }

  /** New tasks go to the back of the task channel. */
  lemma InOrderGrows(s: State, r: State)
    requires InOrder(s) && Grew(s, r)
    ensures InOrder(r)
  {
    var added := r.enqueued[|s.enqueued|..];
    assert r.enqueued == s.enqueued + added;
    assert r.tasks == r.enqueued[|r.enqueued| - |r.tasks|..];
  }

  /** The children of a task below the depth limit, found on the start
      URL's host, stay within the bounds. */
  lemma BoundedGrows(start: string, seed: Url, s: State, r: State, parent: Task, links: seq<Url>)
    requires Bounded(start, seed, s) && s.enqueued <= r.enqueued
    requires forall t | t in r.enqueued[|s.enqueued|..] ::
               t.baseUrl == parent.baseUrl && t.depth == parent.depth + 1 && t.url in links
    requires parent.baseUrl == start && 0 <= parent.depth < MaxDepth
    requires forall l | l in links :: l.host == seed.host
    ensures Bounded(start, seed, r)
  {
    var added := r.enqueued[|s.enqueued|..];
    assert r.enqueued == s.enqueued + added;
    ChildrenBounded(start, seed, parent, links, added);
    BoundedAppend(start, seed, s.enqueued, added);
  }

  lemma ChildrenBounded(start: string, seed: Url, parent: Task, links: seq<Url>, added: seq<Task>)
    requires forall t | t in added :: t.baseUrl == parent.baseUrl && t.depth == parent.depth + 1 && t.url in links
    requires parent.baseUrl == start && 0 <= parent.depth < MaxDepth
    requires forall l | l in links :: l.host == seed.host
    ensures forall t | t in added :: t.baseUrl == start && 0 <= t.depth <= MaxDepth && t.url.host == seed.host
  {
  }

  lemma BoundedAppend(start: string, seed: Url, a: seq<Task>, b: seq<Task>)
    requires forall t | t in a :: t.baseUrl == start && 0 <= t.depth <= MaxDepth && t.url.host == seed.host
    requires forall t | t in b :: t.baseUrl == start && 0 <= t.depth <= MaxDepth && t.url.host == seed.host
    ensures forall t | t in a + b :: t.baseUrl == start && 0 <= t.depth <= MaxDepth && t.url.host == seed.host
  {
  }

  /** Taking the oldest result off the channel while sending tasks keeps the
      outstanding work accounted for. */
  lemma OutstandingPop(seed: Url, s: State, r: State)
    requires Outstanding(seed, s) && s.results != []
    requires r.results == s.results[1..] && r.active == s.active && s.enqueued <= r.enqueued
    ensures Outstanding(seed, r)
  {
    assert forall x | x in r.results :: x in s.results;
    assert forall t | t in s.enqueued :: t in r.enqueued;
  }

  /** The invariant, but with one result taken off the channel whose
      `wg.Done()` has not happened yet. */
  predicate AlmostInv(env: Env, start: string, s: State) {
    && env.lib.parse(start).Some?
    && var seed := env.lib.parse(start).value;
    && s.enqueued != [] && s.enqueued[0] == Task(start, seed, 0)
    && s.pending == |s.tasks| + |s.active| + |s.results| + 1
    && s.pending == |s.enqueued| - s.finished
    && InOrder(s)
    && SentOnce(s)
    && Bounded(start, seed, s)
    && Outstanding(seed, s)
  }

  /** Following the links of a result keeps every part of the invariant but
      the count of outstanding results, which `Done` then restores. */
  lemma FollowInv(env: Env, start: string, s: State)
    requires Inv(env, start, s) && s.results != []
    ensures AlmostInv(env, start, Follow(s))
  {
    var seed := env.lib.parse(start).value;
    var res := s.results[0];
    var r := Follow(s);
    assert res in s.results;
    OutstandingPop(seed, s, r);
    if res.parent.depth < MaxDepth {
      SentOnceGrows(s, r);
      InOrderGrows(s, r);
      BoundedGrows(start, seed, s, r, res.parent, res.links);
    }
  }

  /** The dispatcher's `wg.Done()` restores the invariant. */
  lemma DoneInv(env: Env, start: string, s: State)
    requires AlmostInv(env, start, s)
    ensures Inv(env, start, s.(pending := s.pending - 1, finished := s.finished + 1))
  {
  }

  /** The dispatcher handling a result keeps the invariant. */
  lemma DispatchInv(env: Env, start: string, s: State)
    requires Inv(env, start, s)
    ensures Inv(env, start, Step(env, s, Dispatch))
  {
    if s.results != [] {
      FollowInv(env, start, s);
      var f := Follow(s);
      DoneInv(env, start, f);
      assert Step(env, s, Dispatch) == DispatchOne(s);
    }
  }

  /** Every transition keeps the invariant. */
  lemma StepInv(env: Env, start: string, s: State, a: Action)
    requires Inv(env, start, s)
    ensures Inv(env, start, Step(env, s, a))
  {
    match a
    case Take => TakeInv(env, start, s);
    case Finish(slot, page) => FinishInv(env, start, s, slot, page);
    case Dispatch => DispatchInv(env, start, s);
  }

  /** Every run keeps the invariant. */
  lemma {:induction false} RunInv(env: Env, start: string, s: State, actions: seq<Action>)
    requires Inv(env, start, s)
    ensures Inv(env, start, Run(env, s, actions))
    decreases |actions|
  {
    if actions != [] {
      StepInv(env, start, s, actions[0]);
      RunInv(env, start, Step(env, s, actions[0]), actions[1..]);
    }
  }

  /** Whatever the interleaving, a crawl from `start` never lets the counter
      go negative, never queues a URL twice, never goes past the depth limit
      and never leaves the start URL's host; the site map printed at the end
      has one page per task sent. */
  lemma CrawlSafe(env: Env, start: string, actions: seq<Action>)
    requires Seed(env.lib, start).Success?
    ensures var r := Run(env, Seed(env.lib, start).value, actions);
            && r.pending >= 0
            && DistinctUrls(r.enqueued)
            && r.visited == TextsOf(r.enqueued)
            && |r.visited| == |r.enqueued|
            && forall t | t in r.enqueued ::
                 t.depth <= MaxDepth && t.url.host == env.lib.parse(start).value.host
  {
    SeedInv(env, start);
    RunInv(env, start, Seed(env.lib, start).value, actions);
    SentCount(Run(env, Seed(env.lib, start).value, actions).enqueued);
  }

  /** The counter is zero exactly when no task is queued, held or waiting to
      be dispatched. */
  lemma ZeroMeansQuiet(env: Env, start: string, s: State)
    requires Inv(env, start, s)
    ensures s.pending == 0 <==> s.tasks == [] && s.active == [] && s.results == []
  {
  }

  /** Once the counter is zero no goroutine can move: `wg.Wait()` returning
      in `main` means the crawl is over. */
  lemma Quiescent(env: Env, start: string, s: State, a: Action)
    requires Inv(env, start, s) && s.pending == 0
    ensures Step(env, s, a) == s
  {
    ZeroMeansQuiet(env, start, s);
  }

  /** The parent's `wg.Done()` comes after its children's `wg.Add(1)`: the
      counter stays above the number of children just queued, so it cannot
      reach zero while one of them is outstanding. */
  lemma ChildrenCountedFirst(env: Env, start: string, s: State)
    requires Inv(env, start, s) && s.results != []
    ensures var children := |Follow(s).enqueued| - |s.enqueued|;
            && children >= 0
            && Follow(s).pending >= children + 1
            && DispatchOne(s).pending >= children
  {
  }

  /** Each visited page had exactly one `wg.Add(1)`: as many tasks were sent
      as there are pages in the site map. */
  lemma {:induction false} SentCount(ts: seq<Task>)
    requires DistinctUrls(ts)
    ensures |TextsOf(ts)| == |ts|
    decreases |ts|
  {
    if ts != [] {
      var rest := ts[1..];
      DistinctTail(ts);
      SentCount(rest);
      TextsOfCons(ts);
    }
  }

  lemma DistinctTail(ts: seq<Task>)
    requires ts != [] && DistinctUrls(ts)
    ensures DistinctUrls(ts[1..])
    ensures ts[0].url.text !in TextsOf(ts[1..])
  {
    var rest := ts[1..];
    forall i, j | 0 <= i < j < |rest| ensures rest[i].url.text != rest[j].url.text {
      assert rest[i] == ts[i + 1] && rest[j] == ts[j + 1];
    }
    forall t | t in rest ensures t.url.text != ts[0].url.text {
      var k :| 0 <= k < |rest| && rest[k] == t;
      assert t == ts[k + 1];
    }
  }

  lemma TextsOfCons(ts: seq<Task>)
    requires ts != []
    ensures TextsOf(ts) == {ts[0].url.text} + TextsOf(ts[1..])
  {
    assert ts == [ts[0]] + ts[1..];
    TextsOfAppend([ts[0]], ts[1..]);
    assert TextsOf([ts[0]]) == {ts[0].url.text};
  }

  /** A link that comes back later in the same list is queued once, at its
      first position: from a state with nothing visited, the links a, b, a
      queue a then b. */
  lemma EnqueueKeepsFirst(s: State, parent: Task, a: Url, b: Url)
    requires s.visited == {} && a.text != b.text
    ensures var r := Enqueue(s, parent, [a, b, a]);
            r.enqueued == s.enqueued + [Task(parent.baseUrl, a, parent.depth + 1),
                                        Task(parent.baseUrl, b, parent.depth + 1)]
  {
    UnseenRepeat(a, b);
    QueuedUnseen(s, Enqueue(s, parent, [a, b, a]), parent, [a, b, a]);
    ChildrenTwo(parent, a, b);
  }

  lemma ChildrenTwo(parent: Task, a: Url, b: Url)
    ensures Children(parent, [a, b]) == [Task(parent.baseUrl, a, parent.depth + 1),
                                         Task(parent.baseUrl, b, parent.depth + 1)]
  {
  }

  /** The dispatcher keeps that order: a result below the depth limit whose
      links are a, b, a, with nothing visited, queues a then b. */
  lemma FollowKeepsFirst(s: State, a: Url, b: Url)
    requires s.results != [] && s.results[0].parent.depth < MaxDepth
    requires s.visited == {} && s.results[0].links == [a, b, a] && a.text != b.text
    ensures var parent := s.results[0].parent;
            Follow(s).enqueued == s.enqueued + [Task(parent.baseUrl, a, parent.depth + 1),
                                                Task(parent.baseUrl, b, parent.depth + 1)]
  {
    var parent := s.results[0].parent;
    UnseenRepeat(a, b);
    QueuedUnseen(s, Follow(s), parent, [a, b, a]);
    ChildrenTwo(parent, a, b);
  }

  /** The tasks `Enqueue` sends are the children of the parent for the links
      `Unseen` keeps, in order. */
  lemma QueuedUnseen(s: State, r: State, parent: Task, links: seq<Url>)
    requires s.enqueued <= r.enqueued && FirstUnseen(s, r, links)
    requires forall t | t in r.enqueued[|s.enqueued|..] ::
               t.baseUrl == parent.baseUrl && t.depth == parent.depth + 1
    ensures r.enqueued == s.enqueued + Children(parent, Unseen(s.visited, links))
  {
    var added := r.enqueued[|s.enqueued|..];
    assert r.enqueued == s.enqueued + added;
    ChildrenOf(added, parent, Unseen(s.visited, links));
  }

  /** The tasks for the links `us`, as children of `parent`. */
  function Children(parent: Task, us: seq<Url>): seq<Task> {
    seq(|us|, i requires 0 <= i < |us| => Task(parent.baseUrl, us[i], parent.depth + 1))
  }

  /** Children of `parent` whose URLs are `us` are the tasks for `us`, in order. */
  lemma ChildrenOf(added: seq<Task>, parent: Task, us: seq<Url>)
    requires forall t | t in added :: t.baseUrl == parent.baseUrl && t.depth == parent.depth + 1
    requires UrlsOf(added) == us
    ensures added == Children(parent, us)
  {
    forall i | 0 <= i < |us| ensures added[i] == Task(parent.baseUrl, us[i], parent.depth + 1) {
      assert added[i] in added;
    }
  }

  lemma UnseenRepeat(a: Url, b: Url)
    requires a.text != b.text
    ensures Unseen({}, [a, b, a]) == [a, b]
  {
    assert [a, b, a][1..] == [b, a] && [b, a][1..] == [a] && [a][1..] == [];
    assert {} + {a.text} == {a.text} && {a.text} + {b.text} == {a.text, b.text};
    assert Unseen({a.text, b.text}, [a]) == [];
    assert Unseen({a.text}, [b, a]) == [b];
  }
}
