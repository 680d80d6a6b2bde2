/**
 * `export_posts_to_json`: resolve the PDS, run the fetch loop, refuse an
 * empty result, sort newest first, and enforce the token budget.
 */
module Export {
  import opened Wrappers
  import opened Records
  import opened DidResolution
  import opened Fetch
  import opened Sorting
  import opened Budget

  datatype ExportOutcome =
    | ResolveFailed                                   // handle did not resolve: exit 1
    | FetchFailed(reason: FatalReason)                // exit 1 inside the loop
    | FetchUnfinished                                 // the given answers ran out
    | NothingToSave                                   // "no posts to save": exit 1
    | Exported(posts: seq<Post>, budget: BudgetOutcome)

  /**
   * One export. `repo` is the identifier the handle resolved to (None: the
   * resolution raised); `http` answers the DID-document request; `pages`
   * answers the `list_records` calls; `measure` serialises and counts tokens;
   * `answers` are the lines typed at the trim prompt.
   */
  method ExportPostsToJson(
    repo: Option<string>,
    http: string -> Option<DidDocument>,
    pages: seq<Page>,
    measure: seq<Post> -> Option<nat>,
    answers: seq<string>)
    returns (o: ExportOutcome)
    ensures repo.None? <==> o.ResolveFailed?
    ensures repo.Some? ==>
              var run := Run(repo.value, Initial(DiscoverPdsEndpoint(repo.value, http)), pages);
              && (o.FetchFailed? <==> run.Fatal?)
              && (o.FetchFailed? ==> o.reason == run.reason)
              && (o.FetchUnfinished? <==> run.Unfinished?)
              && (o.NothingToSave? <==> run.Finished? && run.state.posts == [])
              && (o.Exported? ==>
                    && run.Finished? && run.state.posts != []
                    && NewestFirst(o.posts)
                    && multiset(o.posts) == multiset(run.state.posts)
                    && (forall t :: CreatedAt(o.posts, t) == CreatedAt(run.state.posts, t)))
    ensures o.Exported? ==> BudgetDecided(o.posts, measure, answers, o.budget)
  {
    if repo.None? {
      return ResolveFailed;
    }
    var did := repo.value;
    var pds := DiscoverPdsEndpoint(did, http);
    var run := FetchAllPosts(did, pds, pages);
    if run.Fatal? {
      return FetchFailed(run.reason);
    }
    if run.Unfinished? {
      return FetchUnfinished;
    }
    var allPosts := run.state.posts;
    if allPosts == [] {
      return NothingToSave;
    }
    var a := new Post[|allPosts|](i requires 0 <= i < |allPosts| => allPosts[i]);
    assert a[..] == allPosts;
    SortInPlace(a);
    SortNewestFirstCorrect(allPosts);
    var sorted := a[..];
    var budget := CheckTokenLimitAndOfferTrim(sorted, measure, answers);
    return Exported(sorted, budget);
  }
}
