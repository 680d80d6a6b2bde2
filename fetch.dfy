/**
 * The cursor pagination loop of `export_posts_to_json`: request a page of
 * `app.bsky.feed.post` records, transform and append its records, follow the
 * returned cursor, and fall back once from the PDS client to the default
 * client when a request fails.
 *
 * The server's answers are the sequence `pages`: the i-th request made gets
 * `pages[i]`, a page of records with an optional cursor, or `Failure` when the
 * call raised. Running out of `pages` before the loop stops gives `Unfinished`.
 */
module Fetch {
  import opened Wrappers
  import opened Records

  /** The client a request goes through: one aimed at the account's PDS, or the default one. */
  datatype Client = PdsClient(endpoint: string) | DefaultClient

  /** One `list_records` call: which client, and the cursor passed. */
  datatype Request = Request(client: Client, cursor: Option<string>)

  datatype Page = Page(records: seq<RawRecord>, cursor: Option<string>) | Failure

  /**
   * The loop's variables. `client.PdsClient?` plays the part of both
   * `pds_endpoint` being set and `client is not default_client`: the code only
   * ever changes the two together. `requests` records every call made.
   */
  datatype FetchState = FetchState(
    client: Client,
    cursor: Option<string>,
    fetched: nat,
    posts: seq<Post>,
    requests: seq<Request>)

  /** Why the program exits with status 1 from inside the loop. */
  datatype FatalReason = NoPostsOnDefaultClient | FailureOnDefaultClient

  datatype FetchResult =
    | Finished(state: FetchState)
    | Fatal(reason: FatalReason, state: FetchState)
    | Unfinished(state: FetchState)

  /** `Client(base_url=pds_endpoint)` when the endpoint is a non-empty string, else the default client. */
  function InitialClient(pds: Option<string>): (c: Client)
    ensures c.PdsClient? <==> pds.Some? && pds.value != ""
    ensures c.PdsClient? ==> c.endpoint == pds.value
  {
    if pds.Some? && pds.value != "" then PdsClient(pds.value) else DefaultClient
  }

  function Initial(pds: Option<string>): FetchState {
    FetchState(InitialClient(pds), None, 0, [], [])
  }

  /** `not cursor`: the cursor is missing or empty. */
  predicate CursorEnds(c: Option<string>) {
    c.None? || c.value == ""
  }

  function Transformed(did: string, records: seq<RawRecord>): (ps: seq<Post>)
    ensures |ps| == |records|
  {
    seq(|records|, i requires 0 <= i < |records| => ToPost(did, records[i]))
  }

  datatype Step =
    | Continue(state: FetchState)
    | Stop(state: FetchState)
    | Exit(reason: FatalReason, state: FetchState)

  /**
   * One iteration of `while True`, given the answer to its request. Whichever
   * way it ends, it has sent one request through the current client with the
   * current cursor, appended the page's posts and counted them; only a
   * failure switches to the default client.
   */
  function StepOnce(did: string, st: FetchState, page: Page): (r: Step)
    ensures r.state.requests == st.requests + [Request(st.client, st.cursor)]
  {
    var sent := st.(requests := st.requests + [Request(st.client, st.cursor)]);
    match page
    case Failure =>
      if st.client.PdsClient? then Continue(sent.(client := DefaultClient))
      else Exit(FailureOnDefaultClient, sent)
    case Page(records, cursor) =>
      if records == [] && st.fetched == 0 then
        if st.client.PdsClient? then Stop(sent) else Exit(NoPostsOnDefaultClient, sent)
      else
        var got := sent.(posts := st.posts + Transformed(did, records),
                         fetched := st.fetched + |records|,
                         cursor := cursor);
        if CursorEnds(cursor) then Stop(got) else Continue(got)
  }

  /** The whole loop from state `st` against the answers `pages`. */
  function Run(did: string, st: FetchState, pages: seq<Page>): FetchResult
    decreases |pages|
  {
    if pages == [] then Unfinished(st)
    else
      match StepOnce(did, st, pages[0])
      case Continue(next) => Run(did, next, pages[1..])
      case Stop(last) => Finished(last)
      case Exit(reason, last) => Fatal(reason, last)
  }

  /** The posts a page contributes: its transformed records, none for a failure. */
  function PostsOf(did: string, page: Page): seq<Post> {
    if page.Page? then Transformed(did, page.records) else []
  }

  function CountOf(page: Page): nat {
    if page.Page? then |page.records| else 0
  }

  /** The posts of the successful pages among `pages`, page after page, record after record. */
  function PagePosts(did: string, pages: seq<Page>): seq<Post> {
    if pages == [] then [] else PostsOf(did, pages[0]) + PagePosts(did, pages[1..])
  }

  /** The number of records the successful pages among `pages` hold. */
  function RecordCount(pages: seq<Page>): nat {
    if pages == [] then 0 else CountOf(pages[0]) + RecordCount(pages[1..])
  }

  lemma {:induction false} PagePostsLength(did: string, pages: seq<Page>)
    ensures |PagePosts(did, pages)| == RecordCount(pages)
  {
    if pages != [] {
      PagePostsLength(did, pages[1..]);
    }
  }

  /** What one iteration adds to the posts and to `posts_fetched`, whichever way it ends. */
  lemma StepEffect(did: string, st: FetchState, page: Page)
    ensures var s := StepOnce(did, st, page).state;
      && s.posts == st.posts + PostsOf(did, page)
      && s.fetched == st.fetched + CountOf(page)
  {
    assert Transformed(did, []) == [];
  }

  /**
   * A run makes one request per answer it reads, at least one when there is
   * an answer, and reads them all only when it does not stop; the requests
   * made before are kept.
   */
  lemma {:induction false} RunRequestCount(did: string, st: FetchState, pages: seq<Page>)
    ensures var r := Run(did, st, pages);
      && |st.requests| <= |r.state.requests| <= |st.requests| + |pages|
      && (pages != [] ==> |r.state.requests| > |st.requests|)
      && (r.Unfinished? ==> |r.state.requests| == |st.requests| + |pages|)
      && r.state.requests[..|st.requests|] == st.requests
    decreases |pages|
  {
    if pages != [] {
      var s := StepOnce(did, st, pages[0]);
      if s.Continue? {
        RunRequestCount(did, s.state, pages[1..]);
        var rq := Run(did, s.state, pages[1..]).state.requests;
        assert rq[..|st.requests|] == rq[..|s.state.requests|][..|st.requests|];
      }
    }
  }

  /**
   * The posts of a run are the old ones followed by the posts of the
   * successful pages it read, in order.
   */
  lemma {:induction false} RunPosts(did: string, st: FetchState, pages: seq<Page>)
    ensures var r := Run(did, st, pages);
      var k := |r.state.requests| - |st.requests|;
      0 <= k <= |pages| && r.state.posts == st.posts + PagePosts(did, pages[..k])
    decreases |pages|
  {
    RunRequestCount(did, st, pages);
    if pages != [] {
      var s := StepOnce(did, st, pages[0]);
      var r := Run(did, st, pages);
      var k := |r.state.requests| - |st.requests|;
      StepEffect(did, st, pages[0]);
      assert pages[..k][0] == pages[0];
      assert pages[..k][1..] == pages[1..][..k - 1];
      if s.Continue? {
        RunPosts(did, s.state, pages[1..]);
      } else {
        assert PagePosts(did, pages[1..][..0]) == [];
      }
    }
  }

  /** `posts_fetched` grows by the record count of the successful pages a run read. */
  lemma {:induction false} RunFetched(did: string, st: FetchState, pages: seq<Page>)
    ensures var r := Run(did, st, pages);
      var k := |r.state.requests| - |st.requests|;
      0 <= k <= |pages| && r.state.fetched == st.fetched + RecordCount(pages[..k])
    decreases |pages|
  {
    RunRequestCount(did, st, pages);
    if pages != [] {
      var s := StepOnce(did, st, pages[0]);
      var r := Run(did, st, pages);
      var k := |r.state.requests| - |st.requests|;
      StepEffect(did, st, pages[0]);
      assert pages[..k][0] == pages[0];
      assert pages[..k][1..] == pages[1..][..k - 1];
      if s.Continue? {
        RunFetched(did, s.state, pages[1..]);
      } else {
        assert RecordCount(pages[1..][..0]) == 0;
      }
    }
  }

  /**
   * From the start, the loop keeps `posts_fetched == len(all_posts)`, and
   * both equal the number of records of the successful pages read.
   */
  lemma CountMatchesPosts(did: string, pds: Option<string>, pages: seq<Page>)
    ensures var r := Run(did, Initial(pds), pages);
      && |r.state.requests| <= |pages|
      && r.state.fetched == |r.state.posts| == RecordCount(pages[..|r.state.requests|])
  {
    var r := Run(did, Initial(pds), pages);
    RunPosts(did, Initial(pds), pages);
    RunFetched(did, Initial(pds), pages);
    PagePostsLength(did, pages[..|r.state.requests|]);
  }

  /**
   * How request `next` follows request `req` once `page` answered `req` and
   * the loop went on: after a page, through the same client with the page's
   * cursor, which was non-empty; after a failure, through the default client
   * with the same cursor, and only if `req` went through the PDS client.
   */
  predicate Follows(page: Page, req: Request, next: Request) {
    match page
    case Failure => req.client.PdsClient? && next == Request(DefaultClient, req.cursor)
    case Page(_, c) => !CursorEnds(c) && next == Request(req.client, c)
  }

  /** A step that goes on issues its next request as Follows describes. */
  lemma ContinueFollows(did: string, st: FetchState, page: Page)
    requires StepOnce(did, st, page).Continue?
    ensures var next := StepOnce(did, st, page).state;
      Follows(page, Request(st.client, st.cursor), Request(next.client, next.cursor))
  {
  }

  lemma {:induction false} RunRequests(did: string, st: FetchState, pages: seq<Page>)
    ensures var r := Run(did, st, pages);
      var n := |st.requests|;
      && n + |pages| >= |r.state.requests| >= n
      && (pages != [] ==> |r.state.requests| > n && r.state.requests[n] == Request(st.client, st.cursor))
      && forall j :: 0 <= j && n + j + 1 < |r.state.requests| ==>
           Follows(pages[j], r.state.requests[n + j], r.state.requests[n + j + 1])
    decreases |pages|
  {
    RunRequestCount(did, st, pages);
    if pages != [] {
      var r := Run(did, st, pages);
      var R := r.state.requests;
      var n := |st.requests|;
      var s := StepOnce(did, st, pages[0]);
      if s.Continue? {
        var next := s.state;
        RunRequests(did, next, pages[1..]);
        RunRequestCount(did, next, pages[1..]);
        assert R[n] == R[..n + 1][n] == next.requests[n];
        forall j | 0 <= j && n + j + 1 < |R|
          ensures Follows(pages[j], R[n + j], R[n + j + 1])
        {
          if j == 0 {
            ContinueFollows(did, st, pages[0]);
          } else {
            assert pages[j] == pages[1..][j - 1];
            assert n + j == (n + 1) + (j - 1);
          }
        }
      } else {
        assert R == st.requests + [Request(st.client, st.cursor)];
      }
    }
  }

  /**
   * How a run ends. A normal stop is a page whose cursor is missing or empty,
   * or an empty first page seen through the PDS client; a fatal exit is an
   * empty first page through the default client, or a failure through the
   * default client. A run cut short by the end of the answers last went on
   * after a failure only through the PDS client.
   */
  lemma {:induction false} RunEnds(did: string, st: FetchState, pages: seq<Page>)
    requires st.fetched == |st.posts|
    ensures var r := Run(did, st, pages);
      var R := r.state.requests;
      var k := |R| - |st.requests|;
      && 0 <= k <= |pages|
      && (r.Finished? ==>
            k >= 1 && pages[k - 1].Page?
            && (CursorEnds(pages[k - 1].cursor)
                || (pages[k - 1].records == [] && r.state.posts == [] && r.state.client.PdsClient?)))
      && (r.Fatal? && r.reason == FailureOnDefaultClient ==>
            k >= 1 && pages[k - 1].Failure? && R[|R| - 1].client == DefaultClient)
      && (r.Fatal? && r.reason == NoPostsOnDefaultClient ==>
            k >= 1 && pages[k - 1].Page? && pages[k - 1].records == [] && r.state.posts == []
            && R[|R| - 1].client == DefaultClient)
      && (r.Unfinished? && k >= 1 && pages[k - 1].Failure? ==> R[|R| - 1].client.PdsClient?)
    decreases |pages|
  {
    RunRequestCount(did, st, pages);
    if pages != [] {
      var r := Run(did, st, pages);
      var s := StepOnce(did, st, pages[0]);
      if s.Continue? {
        var next := s.state;
        assert next.fetched == |next.posts|;
        RunEnds(did, next, pages[1..]);
        RunRequestCount(did, next, pages[1..]);
        var k := |r.state.requests| - |next.requests|;
        if k >= 1 {
          assert pages[k] == pages[1..][k - 1];
        } else if r.Unfinished? {
          assert r.state == next;
        }
      }
    }
  }

  /**
   * The loop stops at a page with a missing or empty cursor: answers ending
   * in such a page are never run out of.
   */
  lemma {:induction false} CursorEndStops(did: string, st: FetchState, pages: seq<Page>)
    requires pages != [] && pages[|pages| - 1].Page? && CursorEnds(pages[|pages| - 1].cursor)
    ensures !Run(did, st, pages).Unfinished?
    decreases |pages|
  {
    var s := StepOnce(did, st, pages[0]);
    if |pages| > 1 && s.Continue? {
      assert pages[1..][|pages| - 2] == pages[|pages| - 1];
      CursorEndStops(did, s.state, pages[1..]);
    }
  }

  /**
   * An empty page before any post was fetched ends the loop: normally when
   * the PDS client asked, fatally when the default client did.
   */
  lemma EmptyFirstPage(did: string, st: FetchState, cursor: Option<string>, rest: seq<Page>)
    requires st.fetched == 0
    ensures var r := Run(did, st, [Page([], cursor)] + rest);
      && (st.client.PdsClient? ==> r.Finished? && r.state.posts == st.posts)
      && (st.client.DefaultClient? ==> r == Fatal(NoPostsOnDefaultClient, r.state))
  {
  }

  /**
   * An empty page once posts have been fetched does not stop the loop by
   * itself: it only moves the cursor on.
   */
  lemma EmptyPageLaterContinues(did: string, st: FetchState, cursor: Option<string>, rest: seq<Page>)
    requires st.fetched > 0 && !CursorEnds(cursor)
    ensures Run(did, st, [Page([], cursor)] + rest)
         == Run(did, st.(requests := st.requests + [Request(st.client, st.cursor)], cursor := cursor), rest)
  {
    assert ([Page([], cursor)] + rest)[1..] == rest;
    assert Transformed(did, []) == [];
    assert st.posts + [] == st.posts;
  }

  /**
   * Once a request has gone through the default client, every later one does
   * too, and a failure answering one of them ends the requests.
   */
  lemma {:induction false} DefaultClientIsFinal(pages: seq<Page>, reqs: seq<Request>, m: nat, j: nat)
    requires |reqs| <= |pages| + 1
    requires forall i :: 0 <= i && i + 1 < |reqs| ==> Follows(pages[i], reqs[i], reqs[i + 1])
    requires m <= j < |reqs| && reqs[m].client == DefaultClient
    ensures reqs[j].client == DefaultClient
    ensures j < |pages| && pages[j].Failure? ==> j == |reqs| - 1
    decreases j - m
  {
    if j > m {
      DefaultClientIsFinal(pages, reqs, m, j - 1);
      assert Follows(pages[j - 1], reqs[j - 1], reqs[j]);
    }
    if j + 1 < |reqs| {
      assert Follows(pages[j], reqs[j], reqs[j + 1]);
    }
  }

  /**
   * The fallback happens at most once: of two failed requests, the later one
   * is the last request of the run, and the run then ends in `Fatal`.
   */
  lemma AtMostOneFallback(did: string, pds: Option<string>, pages: seq<Page>, j1: nat, j2: nat)
    requires j1 < j2 < |pages|
    requires pages[j1].Failure? && pages[j2].Failure?
    requires j2 < |Run(did, Initial(pds), pages).state.requests|
    ensures j2 == |Run(did, Initial(pds), pages).state.requests| - 1
    ensures Run(did, Initial(pds), pages).Fatal?
  {
    var r := Run(did, Initial(pds), pages);
    var reqs := r.state.requests;
    assert |Initial(pds).requests| == 0;
    RunRequests(did, Initial(pds), pages);
    assert Follows(pages[j1], reqs[j1], reqs[j1 + 1]);
    DefaultClientIsFinal(pages, reqs, j1 + 1, j2);
    assert j2 == |reqs| - 1 && reqs[j2].client == DefaultClient;
    RunEnds(did, Initial(pds), pages);
    assert !r.Finished? && !r.Unfinished?;
  }

  /** The inner `for record in response.records` loop: transform and append each record. */
  method AppendPosts(did: string, posts: seq<Post>, records: seq<RawRecord>) returns (all: seq<Post>)
    ensures all == posts + Transformed(did, records)
  {
    all := posts;
    for k := 0 to |records|
      invariant |all| == |posts| + k
      invariant all[..|posts|] == posts
      invariant forall j :: 0 <= j < k ==> all[|posts| + j] == ToPost(did, records[j])
    {
      var post := TransformRecord(did, records[k]);
      all := all + [post];
    }
  }

  /**
   * `list_records` loop (lines 198-263), with local variables as in the
   * source and the answers to its requests taken from `pages`.
   */
  method FetchAllPosts(did: string, pds: Option<string>, pages: seq<Page>) returns (r: FetchResult)
    ensures r == Run(did, Initial(pds), pages)
  {
    var client := InitialClient(pds);
    var cursor: Option<string> := None;
    var postsFetched: nat := 0;
    var allPosts: seq<Post> := [];
    var requests: seq<Request> := [];
    var i := 0;
    while i < |pages|
      invariant 0 <= i <= |pages|
      invariant Run(did, FetchState(client, cursor, postsFetched, allPosts, requests), pages[i..])
             == Run(did, Initial(pds), pages)
    {
      ghost var st := FetchState(client, cursor, postsFetched, allPosts, requests);
      assert pages[i..][0] == pages[i] && pages[i..][1..] == pages[i + 1..];
      var page := pages[i];
      requests := requests + [Request(client, cursor)];
      i := i + 1;
      if page.Failure? {
        if client.PdsClient? {
          client := DefaultClient;
          continue;
        }
        return Fatal(FailureOnDefaultClient, FetchState(client, cursor, postsFetched, allPosts, requests));
      }
      var records := page.records;
      if records == [] && postsFetched == 0 {
        if client.PdsClient? {
          return Finished(FetchState(client, cursor, postsFetched, allPosts, requests));
        }
        return Fatal(NoPostsOnDefaultClient, FetchState(client, cursor, postsFetched, allPosts, requests));
      }
      allPosts := AppendPosts(did, allPosts, records);
      postsFetched := postsFetched + |records|;
      cursor := page.cursor;
      if cursor.None? || cursor.value == "" {
        return Finished(FetchState(client, cursor, postsFetched, allPosts, requests));
      }
      assert StepOnce(did, st, page) == Continue(FetchState(client, cursor, postsFetched, allPosts, requests));
    }
    assert pages[i..] == [];
    return Unfinished(FetchState(client, cursor, postsFetched, allPosts, requests));
  }
}
