/**
 * utils/redditscraper.py: page through a subreddit's newest posts, retrying
 * each request a bounded number of times, and tally the posts per day.
 */
module RedditScraper {
  import opened Base
  import opened Seqs
  import Text

  const Host: string := "http://www.reddit.com"

  /** What a listing page holds: each child's `created_utc`, and the `after` token (JSON null is None). */
  datatype Page = Page(created: seq<real>, after: Option<string>)

  /** An HTTP reply: the status code and, for a 200, the decoded page. */
  datatype Reply = Reply(status: int, page: Page)

  /** The page asked for: the first page, or a later one with its `count` and `after` query values. */
  datatype Query = First | Later(count: int, after: string)

  /**
   * The outside world: `requests.get` of a page's URL at a given attempt (None
   * when it raises), and the day key `str(datetime.fromtimestamp(utc))[:10]`.
   */
  datatype Services = Services(get: (Query, nat) -> Option<Reply>, dateKey: real -> string)

  /** `Exception("Unable to retrieve request!")`. */
  datatype ScrapeError = Unavailable

  /** The query a call at `depth` with this `after` asks for. */
  function PageQuery(after: Option<string>, depth: int): Query
  {
    match after
    case None => First
    case Some(a) => Later(depth * 25, a)
  }

  /** The listing URL of a query, as the source formats it. */
  function PageUrl(sub: string, q: Query): (url: string)
    ensures var base := Host + "/r/" + sub + "/new/.json";
            |base| <= |url| && url[..|base|] == base
    ensures q.First? <==> url == Host + "/r/" + sub + "/new/.json"
  {
    match q
    case First => Host + "/r/" + sub + "/new/.json"
    case Later(count, after) => Host + "/r/" + sub + "/new/.json?count=" + Text.IntToString(count) + "&after=" + after
  }

  /**
   * The first page is `/r/<sub>/new/.json`; a later page's URL extends it with
   * `?count=` and the decimal `depth * 25`, then `&after=` and the token.
   */
  lemma PageUrls(sub: string, after: Option<string>, depth: int)
    ensures var base := Host + "/r/" + sub + "/new/.json";
            var url := PageUrl(sub, PageQuery(after, depth));
            (after.None? ==> url == base) &&
            (after.Some? ==> url == base + "?count=" + Text.IntToString(depth * 25) + "&after=" + after.value &&
                             Text.ParseInt(Text.IntToString(depth * 25)) == Some(depth * 25))
  {
    Text.ParseIntToString(depth * 25);
  }

  // ----- the retry loop -----

  /** Attempt `attempt` got a reply with status 200. */
  predicate Answered(svc: Services, q: Query, attempt: nat)
  {
    svc.get(q, attempt).Some? && svc.get(q, attempt).value.status == 200
  }

  /**
   * Attempt `attempt` succeeds: its sleep `delay * (attempt + 1)` is allowed
   * (a negative length makes `time.sleep` raise ValueError inside the `try`,
   * before any request) and the request is answered.
   */
  predicate Succeeds(svc: Services, q: Query, delay: real, attempt: nat)
  {
    delay * ((attempt + 1) as real) >= 0.0 && Answered(svc, q, attempt)
  }

  /** With a negative delay every attempt fails; otherwise an attempt succeeds exactly when it is answered. */
  lemma SucceedsIff(svc: Services, q: Query, delay: real, attempt: nat)
    ensures Succeeds(svc, q, delay, attempt) <==> delay >= 0.0 && Answered(svc, q, attempt)
  {
    var n := (attempt + 1) as real;
    if delay < 0.0 {
      assert delay * n < 0.0 * n;
    }
  }

  /** The first attempt from `attempt` on, below `retries`, that succeeds. */
  function FirstAnswer(svc: Services, q: Query, delay: real, attempt: nat, retries: int): (r: Option<nat>)
    decreases retries - attempt
    ensures r.Some? ==> attempt <= r.value < retries && Answered(svc, q, r.value)
  {
    if attempt >= retries then None
    else if Succeeds(svc, q, delay, attempt) then Some(attempt)
    else FirstAnswer(svc, q, delay, attempt + 1, retries)
  }

  /** The attempt found succeeds, below `retries`, and every earlier one failed; none found means all `retries` failed. */
  lemma {:induction false} FirstAnswerIff(svc: Services, q: Query, delay: real, attempt: nat, retries: int)
    decreases retries - attempt
    ensures var r := FirstAnswer(svc, q, delay, attempt, retries);
            (r.Some? ==> attempt <= r.value < retries && Succeeds(svc, q, delay, r.value) &&
                         forall j :: attempt <= j < r.value ==> !Succeeds(svc, q, delay, j)) &&
            (r.None? ==> forall j :: attempt <= j < retries ==> !Succeeds(svc, q, delay, j))
  {
    if attempt < retries && !Succeeds(svc, q, delay, attempt) {
      FirstAnswerIff(svc, q, delay, attempt + 1, retries);
    }
  }

  /** The sleep lengths asked for before attempts `0 .. n-1`: `delay * (retry_count + 1)`. */
  function Waits(delay: real, n: nat): (r: seq<real>)
    ensures |r| == n
  {
    if n == 0 then [] else Waits(delay, n - 1) + [delay * (n as real)]
  }

  lemma WaitsStep(delay: real, n: nat)
    ensures Waits(delay, n + 1) == Waits(delay, n) + [delay * ((n + 1) as real)]
  {
  }

  /**
   * The `while retry_count < retries` loop: sleep, request, stop at the first
   * status 200; a failed status or an exception counts one retry; running out
   * raises. A negative sleep length raises inside the `try` and counts as a
   * failed attempt. Also returns the sleep lengths asked for, in order.
   */
  method Request(svc: Services, q: Query, retries: int, delay: real) returns (r: Result<Page, ScrapeError>, waits: seq<real>)
    ensures match FirstAnswer(svc, q, delay, 0, retries)
            case Some(a) => r == Ok(svc.get(q, a).value.page) && waits == Waits(delay, a + 1)
            case None => r == Err(Unavailable) && waits == Waits(delay, if retries > 0 then retries else 0)
  {
    var retryCount := 0;
    waits := [];
    while retryCount < retries
      invariant 0 <= retryCount && (retryCount <= retries || retryCount == 0)
      invariant FirstAnswer(svc, q, delay, 0, retries) == FirstAnswer(svc, q, delay, retryCount, retries)
      invariant waits == Waits(delay, retryCount)
      decreases retries - retryCount
    {
      WaitsStep(delay, retryCount);
      waits := waits + [delay * ((retryCount + 1) as real)];
      if delay * ((retryCount + 1) as real) >= 0.0 {
        var reply := svc.get(q, retryCount);
        if reply.Some? && reply.value.status == 200 {
          return Ok(reply.value.page), waits;
        }
      }
      retryCount := retryCount + 1;
    }
    r := Err(Unavailable);
  }

  /**
   * A request makes at most `retries` attempts. With a non-negative delay it
   * fails exactly when every attempt goes unanswered; with a negative delay it
   * always fails.
   */
  lemma RequestBound(svc: Services, q: Query, retries: int, delay: real)
    ensures FirstAnswer(svc, q, delay, 0, retries).Some? ==> FirstAnswer(svc, q, delay, 0, retries).value + 1 <= retries
    ensures delay >= 0.0 ==>
              (FirstAnswer(svc, q, delay, 0, retries).None? <==> forall j :: 0 <= j < retries ==> !Answered(svc, q, j))
    ensures delay < 0.0 ==> FirstAnswer(svc, q, delay, 0, retries).None?
  {
    FirstAnswerIff(svc, q, delay, 0, retries);
    forall j: nat | j < retries ensures Succeeds(svc, q, delay, j) <==> delay >= 0.0 && Answered(svc, q, j) {
      SucceedsIff(svc, q, delay, j);
    }
  }

  // ----- the per-day tally -----

  /** `post_map`: its keys in insertion order (as a dict keeps them), and their counts. */
  datatype PostMap = PostMap(keys: seq<string>, counts: map<string, int>)

  predicate Distinct(s: seq<string>)
  {
    forall i, j :: 0 <= i < j < |s| ==> s[i] != s[j]
  }

  predicate Valid(p: PostMap)
  {
    && Distinct(p.keys)
    && (forall k :: k in p.counts ==> k in p.keys)
    && (forall i :: 0 <= i < |p.keys| ==> p.keys[i] in p.counts)
  }

  /** `post_map.setdefault(key, 0); post_map[key] += 1`. */
  function Increment(p: PostMap, key: string): (r: PostMap)
    ensures r.counts.Keys == p.counts.Keys + {key}
    ensures forall k :: k in p.counts && k != key ==> r.counts[k] == p.counts[k]
  {
    if key in p.counts then PostMap(p.keys, p.counts[key := p.counts[key] + 1])
    else PostMap(p.keys + [key], p.counts[key := 1])
  }

  /** Tallying a list of day keys one after another. */
  function Tallied(p: PostMap, dates: seq<string>): PostMap
    decreases |dates|
  {
    if dates == [] then p else Increment(Tallied(p, dates[..|dates| - 1]), dates[|dates| - 1])
  }

  /** How often `k` occurs in `s`. */
  function Count(s: seq<string>, k: string): nat
  {
    if s == [] then 0 else Count(s[..|s| - 1], k) + (if s[|s| - 1] == k then 1 else 0)
  }

  /** The sum of the counts, taken over the keys. */
  function Total(keys: seq<string>, counts: map<string, int>): int
    requires forall i :: 0 <= i < |keys| ==> keys[i] in counts
  {
    if keys == [] then 0 else Total(keys[..|keys| - 1], counts) + counts[keys[|keys| - 1]]
  }

  lemma {:induction false} TotalOtherKey(keys: seq<string>, counts: map<string, int>, k: string, v: int)
    requires forall i :: 0 <= i < |keys| ==> keys[i] in counts
    requires k !in keys
    ensures Total(keys, counts[k := v]) == Total(keys, counts)
  {
    if keys != [] {
      TotalOtherKey(keys[..|keys| - 1], counts, k, v);
    }
  }

  lemma {:induction false} TotalBump(keys: seq<string>, counts: map<string, int>, k: string)
    requires forall i :: 0 <= i < |keys| ==> keys[i] in counts
    requires Distinct(keys) && k in keys
    ensures Total(keys, counts[k := counts[k] + 1]) == Total(keys, counts) + 1
  {
    var init, last := keys[..|keys| - 1], keys[|keys| - 1];
    assert Distinct(init);
    if last == k {
      assert k !in init;
      TotalOtherKey(init, counts, k, counts[k] + 1);
    } else {
      assert k in init;
      TotalBump(init, counts, k);
    }
  }

  /** `a` is an initial segment of `b`. */
  predicate Prefix(a: seq<string>, b: seq<string>)
  {
    |a| <= |b| && b[..|a|] == a
  }

  /** One increment keeps the map well formed and only ever appends `key` to the order (when it is new). */
  lemma IncrementValid(p: PostMap, key: string)
    requires Valid(p)
    ensures Valid(Increment(p, key)) && Prefix(p.keys, Increment(p, key).keys)
  {
    if key !in p.counts {
      var ks := p.keys + [key];
      assert key !in p.keys;
      assert ks[..|p.keys|] == p.keys;
      forall i | 0 <= i < |ks| ensures ks[i] in Increment(p, key).counts {
      }
    }
  }

  /** One increment adds 1 to `key`, starting from 0 for a new key, and leaves every other key alone. */
  lemma IncrementCounts(p: PostMap, key: string)
    ensures var q := Increment(p, key);
            key in q.counts && q.counts[key] == (if key in p.counts then p.counts[key] else 0) + 1 &&
            (forall k :: k != key ==> (k in q.counts <==> k in p.counts)) &&
            (forall k :: k != key && k in p.counts ==> q.counts[k] == p.counts[k])
  {
  }

  /** One increment adds 1 to the total. */
  lemma IncrementTotal(p: PostMap, key: string)
    requires Valid(p)
    ensures Total(Increment(p, key).keys, Increment(p, key).counts) == Total(p.keys, p.counts) + 1
  {
    if key in p.counts {
      TotalBump(p.keys, p.counts, key);
    } else {
      assert key !in p.keys;
      TotalNewKey(p.keys, p.counts, key);
    }
  }

  lemma TotalNewKey(keys: seq<string>, counts: map<string, int>, key: string)
    requires forall i :: 0 <= i < |keys| ==> keys[i] in counts
    requires key !in keys
    ensures Total(keys + [key], counts[key := 1]) == Total(keys, counts) + 1
  {
    assert (keys + [key])[..|keys|] == keys;
    TotalOtherKey(keys, counts, key, 1);
  }

  /** Tallying keeps the map well formed; the old keys keep their order, with new days after them. */
  lemma {:induction false} TalliedValid(p: PostMap, dates: seq<string>)
    requires Valid(p)
    decreases |dates|
    ensures Valid(Tallied(p, dates)) && Prefix(p.keys, Tallied(p, dates).keys)
  {
    if dates != [] {
      var init := dates[..|dates| - 1];
      TalliedValid(p, init);
      var m := Tallied(p, init);
      IncrementValid(m, dates[|dates| - 1]);
      var q := Tallied(p, dates);
      assert q.keys[..|p.keys|] == q.keys[..|m.keys|][..|p.keys|];
    }
  }

  /**
   * After tallying, the map holds exactly the old keys and the new days, and
   * each key's count is its old count plus its occurrences among the days.
   */
  lemma {:induction false} TalliedCounts(p: PostMap, dates: seq<string>)
    decreases |dates|
    ensures var q := Tallied(p, dates);
            (forall k :: k in q.counts <==> k in p.counts || k in dates) &&
            (forall k :: k in q.counts ==> q.counts[k] == (if k in p.counts then p.counts[k] else 0) + Count(dates, k))
  {
    if dates != [] {
      var init, last := dates[..|dates| - 1], dates[|dates| - 1];
      TalliedCounts(p, init);
      IncrementCounts(Tallied(p, init), last);
      CountAbsent(init, last);
      assert forall k :: k in dates <==> k in init || k == last by {
        assert dates == init + [last];
      }
    }
  }

  /** A key that does not occur is counted zero times. */
  lemma {:induction false} CountAbsent(s: seq<string>, k: string)
    ensures k !in s ==> Count(s, k) == 0
  {
    if s != [] && k !in s {
      assert k !in s[..|s| - 1];
      CountAbsent(s[..|s| - 1], k);
    }
  }

  /** Tallying the children's days raises the total by the number of children. */
  lemma {:induction false} TalliedTotal(p: PostMap, dates: seq<string>)
    requires Valid(p)
    decreases |dates|
    ensures Valid(Tallied(p, dates))
    ensures Total(Tallied(p, dates).keys, Tallied(p, dates).counts) == Total(p.keys, p.counts) + |dates|
  {
    if dates != [] {
      var init := dates[..|dates| - 1];
      TalliedTotal(p, init);
      IncrementValid(Tallied(p, init), dates[|dates| - 1]);
      IncrementTotal(Tallied(p, init), dates[|dates| - 1]);
    }
  }

  lemma {:induction false} TalliedAppend(p: PostMap, a: seq<string>, b: seq<string>)
    decreases |b|
    ensures Tallied(p, a + b) == Tallied(Tallied(p, a), b)
  {
    if b == [] {
      assert a + b == a;
    } else {
      var init := b[..|b| - 1];
      TalliedAppend(p, a, init);
      assert (a + b)[..|a + b| - 1] == a + init;
    }
  }

  /**
   * The loop over `data['data']['children']`: each child's day key is
   * counted once.
   */
  method AddPosts(p: PostMap, dates: seq<string>) returns (q: PostMap)
    ensures q == Tallied(p, dates)
  {
    var keys, counts := p.keys, p.counts;
    var i := 0;
    while i < |dates|
      invariant 0 <= i <= |dates|
      invariant PostMap(keys, counts) == Tallied(p, dates[..i])
    {
      assert dates[..i + 1][..i] == dates[..i];
      var key := dates[i];
      if key !in counts {
        keys := keys + [key];
        counts := counts[key := 0];
      }
      counts := counts[key := counts[key] + 1];
      i := i + 1;
    }
    assert dates[..i] == dates;
    q := PostMap(keys, counts);
  }

  // ----- pagination -----

  /** The day keys of a page's children, in listing order. */
  function PageDates(svc: Services, page: Page): seq<string>
  {
    seq(|page.created|, j requires 0 <= j < |page.created| => svc.dateKey(page.created[j]))
  }

  /** Python's truth test on `after`: present and non-empty. */
  predicate HasNext(page: Page)
  {
    page.after.Some? && page.after.value != ""
  }

  /**
   * The pages the recursion fetches from `depth` on, each with the query it
   * answered: none once `depth >= pages`, otherwise this page and, while
   * `after` is non-empty, the pages after it.
   */
  function Chain(svc: Services, pages: int, retries: int, delay: real, after: Option<string>, depth: int): Result<seq<(Query, Page)>, ScrapeError>
    decreases pages - depth
  {
    if depth >= pages then Ok([])
    else
      var q := PageQuery(after, depth);
      match FirstAnswer(svc, q, delay, 0, retries)
      case None => Err(Unavailable)
      case Some(a) =>
        var page := svc.get(q, a).value.page;
        if HasNext(page) then
          match Chain(svc, pages, retries, delay, page.after, depth + 1)
          case Err(e) => Err(e)
          case Ok(rest) => Ok([(q, page)] + rest)
        else Ok([(q, page)])
  }

  /** Every fetched page's day keys, page after page. */
  function ChainDates(svc: Services, chain: seq<(Query, Page)>): seq<string>
  {
    if chain == [] then [] else PageDates(svc, chain[0].1) + ChainDates(svc, chain[1..])
  }

  lemma ChainDatesCons(svc: Services, x: (Query, Page), c: seq<(Query, Page)>)
    ensures ChainDates(svc, [x] + c) == PageDates(svc, x.1) + ChainDates(svc, c)
  {
    assert ([x] + c)[1..] == c;
  }

  /**
   * At most `pages - depth` pages are fetched, and at least one; the last
   * page has no further `after` unless the page budget ran out.
   */
  lemma {:induction false} ChainLength(svc: Services, pages: int, retries: int, delay: real, after: Option<string>, depth: int)
    requires Chain(svc, pages, retries, delay, after, depth).Ok? && depth < pages
    decreases pages - depth
    ensures var c := Chain(svc, pages, retries, delay, after, depth).value;
            1 <= |c| <= pages - depth && (HasNext(c[|c| - 1].1) ==> depth + |c| == pages)
  {
    var q := PageQuery(after, depth);
    var page := svc.get(q, FirstAnswer(svc, q, delay, 0, retries).value).value.page;
    if HasNext(page) && depth + 1 < pages {
      ChainLength(svc, pages, retries, delay, page.after, depth + 1);
    }
  }

  /**
   * The first page answers `PageQuery(after, depth)`; every page but the last
   * has a non-empty `after`, and the next page answers the query built from it
   * at the next depth, so page i asks for `count = (depth + i) * 25`.
   */
  lemma {:induction false} ChainQueries(svc: Services, pages: int, retries: int, delay: real, after: Option<string>, depth: int)
    requires Chain(svc, pages, retries, delay, after, depth).Ok? && depth < pages
    decreases pages - depth
    ensures var c := Chain(svc, pages, retries, delay, after, depth).value;
            |c| >= 1 && c[0].0 == PageQuery(after, depth) &&
            forall i :: 0 <= i < |c| - 1 ==> HasNext(c[i].1) && c[i + 1].0 == PageQuery(c[i].1.after, depth + i + 1)
  {
    var c := Chain(svc, pages, retries, delay, after, depth).value;
    var q := PageQuery(after, depth);
    var page := svc.get(q, FirstAnswer(svc, q, delay, 0, retries).value).value.page;
    if HasNext(page) && depth + 1 < pages {
      ChainQueries(svc, pages, retries, delay, page.after, depth + 1);
      var rest := Chain(svc, pages, retries, delay, page.after, depth + 1).value;
      assert c == [(q, page)] + rest;
      forall i | 1 <= i < |c| - 1
        ensures HasNext(c[i].1) && c[i + 1].0 == PageQuery(c[i].1.after, depth + i + 1)
      {
        assert c[i] == rest[i - 1] && c[i + 1] == rest[i];
      }
    }
  }

  /** What `scrape` returns: `post_map` itself at the page budget, otherwise the tally of every fetched page's children. */
  function ScrapeResult(svc: Services, pages: int, retries: int, delay: real, after: Option<string>, depth: int, postMap: Option<PostMap>): Result<Option<PostMap>, ScrapeError>
  {
    if depth >= pages then Ok(postMap)
    else
      match Chain(svc, pages, retries, delay, after, depth)
      case Err(e) => Err(e)
      case Ok(c) => Ok(Some(Tallied(if postMap.None? then PostMap([], map[]) else postMap.value, ChainDates(svc, c))))
  }

  /**
   * `scrape(subreddit, pages, retries, delay, after, depth, post_map)`, the
   * subreddit fixed by `svc`. Returns `post_map` untouched once `depth >=
   * pages` (so `None` when called with `pages <= 0`); otherwise fetches this
   * page, counts its children and recurses while `after` is non-empty.
   */
  method Scrape(svc: Services, pages: int, retries: int, delay: real,
                after: Option<string>, depth: int, postMap: Option<PostMap>)
    returns (r: Result<Option<PostMap>, ScrapeError>)
    decreases pages - depth
    ensures r == ScrapeResult(svc, pages, retries, delay, after, depth, postMap)
  {
    if depth >= pages {
      return Ok(postMap);
    }
    var start := if postMap.None? then PostMap([], map[]) else postMap.value;
    var q := PageQuery(after, depth);
    var reply, waits := Request(svc, q, retries, delay);
    if reply.Err? {
      return Err(reply.error);
    }
    var page := reply.value;
    ghost var a := FirstAnswer(svc, q, delay, 0, retries).value;
    assert page == svc.get(q, a).value.page;
    var counted := AddPosts(start, PageDates(svc, page));
    ChainDatesCons(svc, (q, page), []);
    assert [(q, page)] + [] == [(q, page)];
    assert PageDates(svc, page) + [] == PageDates(svc, page);
    if HasNext(page) {
      r := Scrape(svc, pages, retries, delay, page.after, depth + 1, Some(counted));
      if depth + 1 < pages {
        match Chain(svc, pages, retries, delay, page.after, depth + 1)
        case Err(e) =>
        case Ok(c) =>
          TalliedAppend(start, PageDates(svc, page), ChainDates(svc, c));
          ChainDatesCons(svc, (q, page), c);
          assert Chain(svc, pages, retries, delay, after, depth) == Ok([(q, page)] + c);
          assert r == Ok(Some(Tallied(counted, ChainDates(svc, c))));
      } else {
        assert Chain(svc, pages, retries, delay, page.after, depth + 1) == Ok([]);
        assert Chain(svc, pages, retries, delay, after, depth) == Ok([(q, page)] + []);
      }
      return;
    }
    return Ok(Some(counted));
  }

  /**
   * A scrape started below the page budget with no map fails exactly when a
   * page could not be fetched; otherwise its map is well formed, holds exactly
   * the days of the fetched children, each counted as often as it occurs, and
   * its counts add up to the number of children. A negative delay always fails.
   */
  lemma ScrapeFromEmpty(svc: Services, pages: int, retries: int, delay: real, after: Option<string>, depth: int)
    requires depth < pages
    ensures ScrapeResult(svc, pages, retries, delay, after, depth, None).Err? <==> Chain(svc, pages, retries, delay, after, depth).Err?
    ensures delay < 0.0 ==> ScrapeResult(svc, pages, retries, delay, after, depth, None).Err?
    ensures Chain(svc, pages, retries, delay, after, depth).Ok? ==>
              var r := ScrapeResult(svc, pages, retries, delay, after, depth, None);
              var dates := ChainDates(svc, Chain(svc, pages, retries, delay, after, depth).value);
              r.Ok? && r.value.Some? && Valid(r.value.value) &&
              (forall k :: k in r.value.value.counts <==> k in dates) &&
              (forall k :: k in r.value.value.counts ==> r.value.value.counts[k] == Count(dates, k)) &&
              Total(r.value.value.keys, r.value.value.counts) == |dates|
  {
    RequestBound(svc, PageQuery(after, depth), retries, delay);
    if Chain(svc, pages, retries, delay, after, depth).Ok? {
      var dates := ChainDates(svc, Chain(svc, pages, retries, delay, after, depth).value);
      var empty := PostMap([], map[]);
      TalliedCounts(empty, dates);
      TalliedTotal(empty, dates);
    }
  }

  /** The `__main__` listing: `sorted(post_map.items(), key=lambda x: x[0])`. */
  function SortedItems(p: PostMap): seq<(string, int)>
    requires Valid(p)
  {
    var ks := Text.Sort(p.keys);
    seq(|ks|, i requires 0 <= i < |ks| => (ks[i], if ks[i] in p.counts then p.counts[ks[i]] else 0))
  }

  /** The listing has every day once, in ascending key order, each with its count. */
  lemma SortedItemsFacts(p: PostMap)
    requires Valid(p)
    ensures var items := SortedItems(p);
            |items| == |p.keys| &&
            (forall i :: 0 <= i < |items| ==> items[i].0 in p.counts && items[i].1 == p.counts[items[i].0]) &&
            (forall k :: k in p.counts ==> exists i :: 0 <= i < |items| && items[i].0 == k) &&
            (forall i, j :: 0 <= i < j < |items| ==> Text.LexLess(items[i].0, items[j].0))
  {
    var ks := Text.Sort(p.keys);
    var items := SortedItems(p);
    assert multiset(ks) == multiset(p.keys);
    assert |ks| == |multiset(ks)| == |multiset(p.keys)| == |p.keys|;
    forall i | 0 <= i < |items| ensures items[i].0 in p.counts {
      assert ks[i] in multiset(ks);
    }
    forall k | k in p.counts ensures exists i :: 0 <= i < |items| && items[i].0 == k {
      assert k in multiset(p.keys);
      assert k in multiset(ks);
      var i :| 0 <= i < |ks| && ks[i] == k;
      assert items[i].0 == k;
    }
    SortedDistinct(ks, p.keys);
  }

  /** A sorted arrangement of distinct keys is strictly ascending. */
  lemma SortedDistinct(ks: seq<string>, keys: seq<string>)
    requires Text.Sorted(ks) && multiset(ks) == multiset(keys) && Distinct(keys)
    ensures forall i, j :: 0 <= i < j < |ks| ==> Text.LexLess(ks[i], ks[j])
  {
    forall i, j | 0 <= i < j < |ks| ensures Text.LexLess(ks[i], ks[j]) {
      assert Text.LexLessEq(ks[i], ks[j]);
      DistinctCount(keys, ks[i]);
      PairCount(ks, i, j);
    }
  }

  /** Two equal entries make their value occur at least twice. */
  lemma PairCount(s: seq<string>, i: nat, j: nat)
    requires i < j < |s|
    ensures s[i] == s[j] ==> multiset(s)[s[i]] >= 2
  {
    assert s == s[..j] + s[j..];
    assert s[i] == s[..j][i];
    assert s[j] == s[j..][0];
    assert s[i] in multiset(s[..j]);
    assert s[j] in multiset(s[j..]);
  }

  lemma {:induction false} DistinctCount(keys: seq<string>, k: string)
    requires Distinct(keys)
    ensures multiset(keys)[k] <= 1
  {
    if keys != [] {
      var init := keys[..|keys| - 1];
      assert keys == init + [keys[|keys| - 1]];
      assert Distinct(init);
      DistinctCount(init, k);
      assert keys[|keys| - 1] == k ==> k !in init;
    }
  }
}
