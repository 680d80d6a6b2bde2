# Bluesky post exporter — a Dafny model of its core

`export_posts.py` exports every post of one Bluesky (atproto) account to a JSON
file and then keeps that file under a token budget for use in an LLM prompt.
This project models the logic that sits between its network, file and
tokenizer calls, and proves what that logic guarantees:

- **PDS discovery** (`did_resolution.dfy`, module `DidResolution`): the URL of
  the DID document of a `did:plc:` or `did:web:` identifier, and the first
  `#atproto_pds` / `AtprotoPersonalDataServer` service entry of that document
  that has a non-empty string endpoint, with trailing slashes removed.
- **Record transformation** (`records.dfy`, `Records`): a raw post record
  becomes `{created_at, text, images}`; images only for an
  `app.bsky.embed.images` embed, each with its CDN URL
  `https://cdn.bsky.app/img/feed_fullsize/plain/<did>/<cid>@jpeg` and alt text.
- **The cursor pagination loop** (`fetch.dfy`, `Fetch`): a spec state machine
  `Run` over the sequence of answers the server gives (`Page(records, cursor)`
  or `Failure`), and the imperative loop `FetchAllPosts`, proved equal to it.
  Its state is the client in use (PDS or default, with the one-shot
  fallback), the cursor, `posts_fetched`, the accumulated posts, and the
  trace of requests made.
- **Sorting** (`sorting.dfy`, `Sorting`): `list.sort(key=created_at,
  reverse=True)` as an in-place insertion sort on an array, proved equal to a
  functional stable sort that is shown to order newest first, to permute, and
  to keep the relative order of posts with equal timestamps.
- **Budget enforcement** (`budget.dfy`, `Budget`): the inclusive 950,000-token
  limit, the trim estimate, the y/n prompt over a sequence of typed answers,
  the prefix trim and the single re-measurement.
- **Orchestration** (`export.dfy`, `Export`): resolution, discovery, fetch,
  the "no posts to save" exit, sort, budget.
- `text.dfy` (`Text`) holds the Python string operations used above
  (`startswith`, `endswith`, `replace`, `rstrip`, `strip`, ASCII `lower`, and
  the code-point order of `str`); `wrappers.dfy` holds `Option`.

The file as published is not valid Python: `def fetch_did_document` at line 10
has no body, and its body (lines 116-139) sits under a first, stray
`def export_posts_to_json` at line 114. The model reads lines 116-139 as the
body of `fetch_did_document(did)`.

Behaviour worth noting:

- A failed page request is not a partial result: through the PDS client it
  switches once to the default client with the same cursor; through the
  default client it exits with status 1 (lines 255-263).
- An empty page ends the loop only before any post was fetched, normally
  through the PDS client and with exit 1 through the default client (lines
  217-227); after that only a missing or empty cursor ends it. An empty page
  through the PDS client leaves no posts, and the program then exits at line 265.
- The number of posts to remove is truncated (`int(...)`, line 58), not
  rounded up.

## Model

| member | source | states |
|---|---|---|
| `Text.ReplaceChar` | export_posts.py:131 | every ':' of the text becomes '/', every other character is kept, the length is unchanged |
| `Text.TrimRight` | export_posts.py:156 | `rstrip("/")` returns the longest prefix that does not end in '/', and everything it removed was '/' |
| `Text.Strip` | export_posts.py:69 | `strip()` returns the slice between the leading and the trailing whitespace, and that slice neither starts nor ends with whitespace |
| `Text.Lower` | export_posts.py:69 | `lower()` maps each ASCII capital to its small letter and keeps every other character |
| `Text.LessTotal` | export_posts.py:269 | two different `created_at` strings are always ordered one way or the other under Python's string order |
| `Text.NotLessTransitive` | export_posts.py:269 | "not older than" is transitive, so a newest-first order is consistent across all pairs |
| `DidResolution.DidDocumentUrl` | export_posts.py:122-137 | a document URL exists exactly for `did:plc:` and `did:web:` identifiers, it is an https URL, and a `did:web:` URL holds no ':' after its scheme (every ':' became '/') |
| `DidResolution.DocumentUrlRoundTrip` | export_posts.py:122-137 | the identifier can be read back from its document URL: `https://plc.directory/` + the PLC DID, or `https://` + the web DID's part with ':' as '/' + `/.well-known/did.json` |
| `DidResolution.ServiceEntries` | export_posts.py:149 | the entries searched are `service` when it is non-empty, and `services` otherwise |
| `DidResolution.IsPdsEntry` | export_posts.py:151-153 | the type `AtprotoPersonalDataServer` alone marks a PDS entry; an entry whose id and type are both missing or not strings is never one |
| `DidResolution.PdsFragmentId` | export_posts.py:151-153 | an id made of any text followed by `#atproto_pds` marks a PDS entry, whatever its type |
| `DidResolution.Qualifies` | export_posts.py:153-155 | an entry with a missing, non-string or empty endpoint never qualifies; with a non-empty string endpoint it qualifies exactly when it is a PDS entry |
| `DidResolution.FirstQualifying` | export_posts.py:149-155 | the index of the first entry that names a PDS and has a non-empty string endpoint: every earlier entry fails that test; the number of entries when none passes |
| `DidResolution.FirstPdsEndpoint` | export_posts.py:150-157 | None exactly when no entry qualifies; otherwise the endpoint of the first qualifying entry, trailing slashes removed |
| `DidResolution.PdsEndpointFromDidDoc` | export_posts.py:141-157 | None for a missing document; otherwise None exactly when no entry of `ServiceEntries` qualifies, else the endpoint of the first qualifying entry with trailing slashes removed, which never ends in '/' |
| `DidResolution.UnusableEntrySkipped` | export_posts.py:153-155 | a PDS entry whose endpoint is missing, empty or not a string is passed over, and the search goes on |
| `DidResolution.AllSlashEndpoint` | export_posts.py:154-156 | when the first qualifying endpoint is all slashes, the result is the empty string |
| `DidResolution.DiscoverPdsEndpoint` | export_posts.py:176-186 | no PDS for identifiers of other DID methods; otherwise exactly the endpoint `PdsEndpointFromDidDoc` reads from the document fetched at the DID's document URL, which never ends in '/' |
| `Records.ImageUrl` | export_posts.py:239 | the URL starts with the CDN base, '/', the DID and '/', ends with `@jpeg`, and holds exactly the CID in between |
| `Records.ImageUrlRoundTrip` | export_posts.py:239 | the blob CID can be read back from an image URL: the URL is the CDN base, the DID and the CID, with `@jpeg` |
| `Records.ToPost` | export_posts.py:229-245 | timestamp and text copied; no images unless the embed is an images embed; then one image per embedded image, in order, with its CID's URL and its alt text |
| `Records.TransformRecord` | export_posts.py:229-245 | the loop that appends one image reference per embedded image builds exactly `ToPost` |
| `Fetch.InitialClient` | export_posts.py:189-192 | the PDS client is used exactly when discovery gave a non-empty endpoint, and it targets that endpoint |
| `Fetch.StepOnce` | export_posts.py:206-263 | one iteration of the loop sends exactly one request, through the current client with the current cursor |
| `Fetch.Run` | export_posts.py:205-263 | the loop run against the answers until it stops, exits or runs out of them; what it does is stated by `RunRequestCount`, `RunPosts`, `RunFetched`, `RunRequests`, `RunEnds` and `CursorEndStops` |
| `Fetch.PagePostsLength` | export_posts.py:229-247 | the posts of a run of pages are as many as their records |
| `Fetch.StepEffect` | export_posts.py:229-247 | one iteration appends the page's transformed records (none for a failure) and adds their count to `posts_fetched` |
| `Fetch.RunRequestCount` | export_posts.py:205-263 | each request consumes one answer; a run with an answer makes at least one request, reads every answer when it never stops, and keeps the requests made before |
| `Fetch.RunPosts` | export_posts.py:229-245 | the posts are the old ones followed by the successful answered pages' posts, in page and record order |
| `Fetch.RunFetched` | export_posts.py:247 | `posts_fetched` grows by the record count of the successful answered pages |
| `Fetch.CountMatchesPosts` | export_posts.py:229-247 | from the start, `posts_fetched == len(all_posts)` == the sum of the record counts of the successful pages answered |
| `Fetch.RunRequests` | export_posts.py:207-262 | the first request goes through the starting client with no cursor; after a page the next request uses the same client and the page's (non-empty) cursor; after a failure it uses the default client with the same cursor, and only the PDS client can fail without ending the run |
| `Fetch.ContinueFollows` | export_posts.py:250-262 | an iteration that goes on issues its next request through the same client with the page's non-empty cursor, or after a failure of the PDS client through the default client with the same cursor |
| `Fetch.RunEnds` | export_posts.py:216-263 | a normal stop is a page with a missing or empty cursor, or an empty first page through the PDS client; a fatal exit is an empty first page or a failure through the default client; a run cut short after a failure last went on through the PDS client |
| `Fetch.CursorEndStops` | export_posts.py:250-253 | a page with a missing or empty cursor ends the loop: answers that end in such a page are never run out of |
| `Fetch.EmptyFirstPage` | export_posts.py:217-227 | an empty page before any post stops the loop through the PDS client and is fatal through the default client |
| `Fetch.EmptyPageLaterContinues` | export_posts.py:216-253 | an empty page after posts were fetched only moves the cursor on |
| `Fetch.DefaultClientIsFinal` | export_posts.py:258-263 | once the default client is in use it stays in use, and a failure answering a request through it is the last request |
| `Fetch.AtMostOneFallback` | export_posts.py:255-263 | of two failed requests the later one is the last of the run, and the run is fatal |
| `Fetch.AppendPosts` | export_posts.py:229-245 | the record loop appends exactly the transformed records, in order |
| `Fetch.FetchAllPosts` | export_posts.py:198-263 | the imperative loop returns exactly what the state machine `Run` gives from the starting state |
| `Sorting.SortNewestFirst` | export_posts.py:269 | the stable newest-first order keeps the number of posts; `SortNewestFirstCorrect` states the order itself |
| `Sorting.InsertPermutes` | export_posts.py:269 | an insertion step adds the post and loses none |
| `Sorting.InsertSorted` | export_posts.py:269 | an insertion step keeps a newest-first list newest first |
| `Sorting.InsertKeepsTimestampOrder` | export_posts.py:269 | an insertion step places the post after every earlier post with the same timestamp |
| `Sorting.SortNewestFirstCorrect` | export_posts.py:269 | the sorted list is newest first, a permutation of the fetched posts, and stable for equal `created_at` |
| `Sorting.InsertAt` | export_posts.py:269 | an insertion step puts the post right after the last post not older than it |
| `Sorting.InsertInPlace` | export_posts.py:269 | shifting older elements right inserts `a[i]` into `a[..i]` in place and leaves the rest alone |
| `Sorting.SortInPlace` | export_posts.py:269 | the in-place sort leaves the array equal to the stable newest-first order of its old contents |
| `Budget.TrimEstimate` | export_posts.py:56-59 | excess = tokens - 950000 is positive and keep = n - remove; ZeroDivisionError (None) exactly when n == 0 or tokens < n |
| `Budget.TrimEstimateBrackets` | export_posts.py:56-58 | avg is positive and is the floor of tokens / n; remove is the floor of 1.1 * excess / avg, both stated as the bounds they satisfy |
| `Budget.EstimateExample` | export_posts.py:56-59 | 1,000,000 tokens over 10,000 posts: excess 50,000, average 100, remove 550, keep 9450 |
| `Budget.EstimateKeepBounds` | export_posts.py:56-59 | keep never exceeds n, and is negative exactly when 1.1 times the excess reaches n+1 average posts |
| `Budget.PySlicePrefix` | export_posts.py:85 | Python's `s[:k]` as written: a prefix, of length k clamped to the length for k >= 0, and of length len + k (at least 0) for negative k |
| `Budget.NegativeKeepSliceKeepsPosts` | export_posts.py:59-85 | 20,000,000 tokens over 10,000 posts give keep = -477, and `all_posts[:-477]` still holds 9,523 posts |
| `Budget.NewestPosts` | export_posts.py:84-85 | the trim is a prefix of length keep (0 if negative, at most n), and of a newest-first list no kept post is older than a dropped one |
| `Budget.NewestPostsIsSlice` | export_posts.py:85 | whenever keep is not negative the trim equals Python's `all_posts[:keep]` |
| `Budget.Recognise` | export_posts.py:69-76 | after strip and lower, "y"/"yes" means trim and "n"/"no" means keep; anything else is not an answer |
| `Budget.AskToTrim` | export_posts.py:68-76 | the first recognised answer decides; none when the input ends before one |
| `Budget.RecheckTrimmed` | export_posts.py:105-110 | a missing or zero recount is not reported; otherwise it fits exactly when it is at most 950,000 |
| `Budget.CheckTokenLimitAndOfferTrim` | export_posts.py:30-112 | `BudgetDecided`: unmeasured keeps the file; at most 950,000 tokens is within the limit; over it, the estimate, the first answer, the newest-prefix trim and one recount decide, with no second trim |
| `Export.ExportPostsToJson` | export_posts.py:159-286 | failure to resolve, a fatal fetch and an empty fetch end the export; otherwise the exported posts are the fetched ones, newest first, stably, and the budget outcome is `BudgetDecided` for those sorted posts, their token count and the typed answers |

## Findings

| source | as written | input that shows it | evidently intended | confidence | as-written member | corrected member |
|---|---|---|---|---|---|---|
| export_posts.py:59-85 | `posts_to_keep = len(all_posts) - posts_to_remove` can be negative, and `all_posts[:posts_to_keep]` then counts from the end and keeps `len + posts_to_keep` posts | 20,000,000 tokens over 10,000 posts: remove 10,477, keep -477, the trimmed file keeps 9,523 posts (about 19M tokens) | keep no posts when the estimate removes more than there are | not executed | `Budget.PySlicePrefix`, `Budget.NegativeKeepSliceKeepsPosts` | `Budget.NewestPosts` |

The rest of the model trims with `Budget.NewestPosts`; `Budget.NewestPostsIsSlice`
shows it is the code's slice whenever the estimate is not negative.

## Left out

- HTTP and the atproto client (`requests.get`, `raise_for_status`, `r.json()`, `Client(...)`, `resolve_handle`, `list_records`, lines 124-135, 164-168, 207-214): the resolved DID is an input (None when resolution raised), the DID-document fetch is a function from URL to an already-parsed document, and the listing calls' answers are the sequence `pages`. The request's constant arguments (collection `app.bsky.feed.post`, limit 100) are not recorded.
- The tokenizer (lines 12-28), `json.dump` and the file reads and writes (lines 37-38, 92-97, 271-272): together they are the function `measure` from posts to an optional token count. JSON text is not modelled.
- Timestamps, file names, all `print` output and `sys.exit`: exits are the outcomes `Fatal`, `FetchFailed`, `NothingToSave`, `ResolveFailed`.
- Budget.TrimEstimate: computes `excess / avg * 1.1` exactly as floor(11·excess / (10·avg)); Python's float result can differ by one near integer boundaries.
- Budget.TrimEstimate: requires an over-limit count, because the code only reaches lines 56-59 after the limit check.
- Exceptions the code does not expect: a record missing a field (caught as a page failure in Python), a service entry that is not an object or a service list that is not a list (uncaught AttributeError/TypeError), `records` being None. Records and service entries are modelled as well-formed.
- Text.Lower: ASCII only; no other character lower-cases to one of "y", "yes", "n", "no", so recognising answers is unaffected. Text.Strip uses the characters for which Python's `str.isspace()` holds.
- did:web: the model builds the URL as the code does, always appending `/.well-known/did.json` and not percent-decoding a port; the W3C did:web method appends `/did.json` after a path. atproto only uses host-level did:web identifiers.
- `Fetch.Unfinished` and `Export.FetchUnfinished`: the answers are a finite sequence; running out of them before the loop stops is an outcome of the model, not of the program.
- The `__main__` block (lines 289-307), which runs the export twice: plumbing.
- Budget.CheckTokenLimitAndOfferTrim: trims with the corrected `NewestPosts`, which keeps no posts for a negative estimate; the code's `all_posts[:posts_to_keep]` (line 85) then keeps len + keep posts (see "## Findings").
- Export.ExportPostsToJson: its trimmed result is the corrected `NewestPosts` prefix, not the code's slice, for the same reason.
- The input prompt at end of input: `input()` raises EOFError; modelled as the outcome `InputEnded`.
