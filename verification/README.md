# git_api: a Dafny model of the GitHub REST client `GitAPIAccess`

`GitAPIAccess` is a small client for the GitHub REST API. Its state is the user
name and token it authenticates with, and a cache `repos` that maps an owner name
to the table of that owner's repositories. It offers four things:

- the rate-limit headers of the response for the authenticated user;
- the repository table of a user or an organisation, fetched page by page;
- the top 100 human commit authors of an organisation;
- the two listing URL templates those use.

The model keeps the client as a class, `GitApi.GitApiAccess`:

- The cache is its `repos` field.
- A ghost field `Sent` logs every request, with its URL and credentials.
- The network is a parameter, `GitApi.Server`: for each URL, the status code and
  the decoded content the client reads. That content is a header list, a list of
  repository objects or a list of commit authors.

The loops of the source are methods with loop invariants, proved against
specification functions:

- Pagination: `Repositories.StopPage`, `Collected` and `Listing`.
- Projection onto the columns `name`, `private` and `created_at`:
  `Repositories.Projection`.
- The commit tally: `Contributors.Tallied` and `Tallies`, with `Counts` for the
  dictionary's values and `FirstSeen` for its insertion order.
- The header filter: `RateLimit.RateLimitHeaders`.

The sort by commit count is a pure function, `Contributors.SortByCount`. It is a
stable insertion sort on descending count. `StableSortIsUnique` shows that it is
the only stable descending order of the rows, so it is the order Python's
`sorted(..., reverse=True)` produces.

Python's `str.format` is modelled as `Text.Format`. This makes the listing
query's quirk exact: in `"?page={1}&per_page={1}00"` the page number fills both
fields, so page p asks for `per_page` equal to 100·p. That is 100, 200, 300 and so
on, not a fixed page size (`Http.PerPageGrowsWithPage`).

The cache is keyed by the owner name alone, not by the URL. A user listing and an
organisation listing under the same name therefore share one entry
(`GitApiAccess.ReposOf` ignores the template on a hit).

Modules:

| file | module | content |
|---|---|---|
| options.dfy | Options | `Option` |
| text.dfy | Text | substring test, decimal digits of a number, `str.format` |
| http.dfy | Http | responses, requests, JSON scalars, URL constants and templates |
| ratelimit.dfy | RateLimit | header filter of `get_response_limit` |
| contributors.dfy | Contributors | tally, sort, top-100 table of `get_most_active_authors` |
| repositories.dfy | Repositories | pagination and projection of `make_repos_response` |
| gitapi.dfy | GitApi | the class: cache, request log and the public methods |

## Model

| member | source | states |
|---|---|---|
| Text.HundredfoldDec | git_api.py:66 | the decimal form of p followed by "00" is the decimal form of 100·p |
| Text.FormatPlain | git_api.py:71 | text without braces formats to itself |
| Text.FormatAppend | git_api.py:71 | formatting a concatenation formats the parts in turn when the left part formats |
| Text.FormatPlainField | git_api.py:71 | plain text, a positional field, then text: the field is replaced by its argument |
| Http.TemplateFormat | git_api.py:91-99 | both listing templates format with the owner to `.../users/<owner>/repos` or `.../orgs/<owner>/repos` |
| Http.QueryFormat | git_api.py:66 | the page query formats to `?page=<p>&per_page=<p>00`, the page number in both places |
| Http.PageUrlIsFormat | git_api.py:66-71 | formatting the template plus the page query with owner and page never fails, and yields exactly `PageUrl`: the listing URL followed by `?page=<p>&per_page=<p>00` |
| Http.PerPageGrowsWithPage | git_api.py:66 | page p of a listing asks for `per_page` = 100·p |
| RateLimit.RateLimitHeadersMembership | git_api.py:23-26 | a header is kept if and only if it is a response header whose name contains `RateLimit` |
| RateLimit.RateLimitHeadersAppend | git_api.py:23-26 | the filter keeps header order: filtering a concatenation concatenates the filtered parts |
| RateLimit.CollectRateLimit | git_api.py:21-28 | the `keys`/`values` loop lists exactly the kept headers, in order, each name paired with its own value |
| Contributors.HumansFacts | git_api.py:44-45 | no kept commit has `[bot]` in its author name, and every other author keeps all its commits |
| Contributors.TalliedAppend | git_api.py:34-50 | the commits tallied over consecutive runs of repositories are those of each run, in order |
| Contributors.OneRepository | git_api.py:38-40 | a repository adds its human commits if its response is 200, nothing otherwise, and later repositories are tallied all the same |
| Contributors.TalliedHasNoBots | git_api.py:44-45 | no bot author is ever tallied |
| Contributors.FirstSeenFacts | git_api.py:47-50 | the dictionary's keys are exactly the tallied authors, each once |
| Contributors.FirstIndex | git_api.py:47-48 | the position of an author's first commit: that commit is by the author and none before it is |
| Contributors.FirstSeenOrder | git_api.py:47-48 | keys are in the order of their authors' first commits (dictionary insertion order) |
| Contributors.CountsFacts | git_api.py:47-50 | the dictionary the increments build from a list of commits has exactly the authors of the list as keys, each mapped to its number of commits |
| Contributors.FirstSeenSnoc | git_api.py:47-50 | one more commit leaves the key order unchanged for a known author and appends a new one |
| Contributors.TalliesNewKey | git_api.py:47-48 | a first commit by an author inserts its key last with count 1, and the tally stays exact |
| Contributors.TalliesKnownKey | git_api.py:49-50 | a further commit by a known author raises its count by one, and the tally stays exact |
| Contributors.TallyStep | git_api.py:44-50 | loop step of `AddCommits`: skipping a bot commit or applying the insert-or-increment for a human one keeps the dictionary the tally of the human commits so far |
| Contributors.RepositoryStep | git_api.py:38-50 | loop step of `TallyCommits`: a 200 response adds its human commits to the tally, any other response leaves the dictionary as it is |
| Contributors.AddCommits | git_api.py:41-50 | the loop over one response's commits leaves the dictionary holding the tally of the earlier commits plus this response's human commits |
| Contributors.ItemsAreTally | git_api.py:52-54 | `contributors.items()` of an exact tally is the list of rows of the tallied commits |
| Contributors.TallyRowsFacts | git_api.py:47-50 | each tallied author has exactly one row, its count is its number of commits, rows follow first-commit order |
| Contributors.Insert | git_api.py:52 | inserting a row adds exactly that row (multiset) |
| Contributors.InsertSorted | git_api.py:52 | inserting into a list sorted by descending count keeps it sorted |
| Contributors.SortByCount | git_api.py:52 | the sorted rows are in non-increasing count order and are a permutation of the input |
| Contributors.InsertWithCount | git_api.py:52 | inserting a row keeps the relative order of the rows of each count |
| Contributors.SortStable | git_api.py:52 | the sort is stable: for every count, the rows with that count keep their input order |
| Contributors.SortedEqual | git_api.py:52 | two descending lists with the same rows of each count, in the same order, are equal |
| Contributors.StableSortIsUnique | git_api.py:52 | any stable descending reordering of the rows equals `SortByCount`, so ties keep first-seen order as Python's stable sort does |
| Contributors.BuildTable | git_api.py:53-57 | the column-building loop puts each row's name, email and count at that row's position in the three columns |
| Contributors.HeadTabulates | git_api.py:59 | final step of `GetMostActiveAuthors`: `head(100)` of the table is the table of the first 100 rows |
| Contributors.TopAuthorsRows | git_api.py:52-59 | the report has one row per tallied author up to 100 (min(100, number of authors) rows), non-increasing counts, and each row's count is its author's number of commits (at least one) |
| Contributors.WithCountPrefix | git_api.py:59 | the rows of each count in a prefix are a prefix of that count's rows |
| Contributors.TopAuthorsTies | git_api.py:52-59 | for every count, the reported rows with that count are a prefix of the tally's rows with that count, in first-seen order |
| Contributors.TopAuthorsCut | git_api.py:59 | an author cut off by `head(100)` has no more commits than any reported author |
| Repositories.ValuesOfMembers | git_api.py:83-85 | the values an item contributes for a key are exactly its values under that key |
| Repositories.ColumnMembers | git_api.py:82-85 | a column holds exactly the values of its own key from any item; every other key is dropped |
| Repositories.ColumnAligned | git_api.py:82-87 | when each item has the key once, the column has one entry per item, in item order |
| Repositories.ProjectColumns | git_api.py:82-85 | the nested loop over items and keys yields the projection of the data onto `name`, `private` and `created_at` |
| Repositories.FirstStopExists | git_api.py:69-80 | if some page ends the loop, there is a first such page |
| Repositories.StopPage | git_api.py:69-80 | the page where the loop ends is failed or empty, and every earlier page is a non-empty 200 list |
| Repositories.ListingOfRun | git_api.py:69-85 | if pages 1 to k−1 are non-empty 200 lists and page k fails or is empty, then page k is the last one requested, and the listing is None (failure) or the projection of pages 1 to k−1 |
| Repositories.BeforeStop | git_api.py:76-80 | loop step of `FetchPages`: a non-empty 200 page comes before the stop page, so the loop goes on, and its items are appended to `data` |
| Repositories.FailedPage | git_api.py:72-74 | a failed page is the stop page and the listing is None |
| Repositories.EmptyPage | git_api.py:76-77 | an empty 200 page is the stop page and the listing projects the pages before it |
| Repositories.ListingColumns | git_api.py:79-87 | with well-formed items, each column has one entry per fetched item, in page order, taken from that item |
| GitApi.CommitStep | git_api.py:34-40 | loop step of `TallyCommits`: one more repository appends its commit-list request and its response, and its counted commits join the tally |
| GitApi.GitApiAccess.constructor | git_api.py:6-9 | keeps the credentials, starts with an empty cache and no request sent |
| GitApi.GitApiAccess.FetchPages | git_api.py:66-80 | requests pages 1 to StopPage in order; None if the last one fails, else the concatenated items of the pages before it |
| GitApi.GitApiAccess.MakeReposResponse | git_api.py:61-89 | a cached owner is answered from the cache with no request; otherwise the listing is fetched, a failure returns None and leaves the cache unchanged, and a success stores the table under the owner alone |
| GitApi.GitApiAccess.GetUserRepos | git_api.py:91-94 | the listing of the client's own user, through the user template |
| GitApi.GitApiAccess.GetOrgRepos | git_api.py:96-99 | the listing of an organisation, through the organisation template |
| GitApi.GitApiAccess.TallyCommits | git_api.py:34-50 | one commit-list request per repository, in listing order, and the dictionary ends as the exact tally of the human commits of the 200 responses |
| GitApi.GitApiAccess.GetMostActiveAuthors | git_api.py:30-59 | None when the organisation listing fails; otherwise the table of the top authors of the tallied commits, with the requests sent and the cache as `make_repos_response` leaves them |
| GitApi.GitApiAccess.GetResponseLimit | git_api.py:14-28 | one profile request; None exactly when it is not 200, else the series of its RateLimit headers in order |

## Left out

- HTTP, basic authentication and JSON decoding are not modelled: the server's answer to each URL is a parameter, and the request log records URL and credentials only.
- The server's answer depends on the URL alone; the client's credentials are fixed per object, so this loses nothing within one client.
- pandas is not modelled (`DataFrame`, `Series`, `.head`, `pd.set_option`): tables are parallel column sequences and `head` is a prefix.
- `pd.DataFrame(repos)` raises `ValueError` when the three columns have different lengths; the model returns the columns as they are. `Repositories.ListingColumns` states the aligned case.
- The `print` diagnostics and `main()` are not part of this model: they only write to the console or use fixed credentials.
- GitApi.GitApiAccess.GetMostActiveAuthors: a failed organisation listing makes line 32 raise `TypeError`; the model returns None instead.
- GitApi.GitApiAccess.MakeReposResponse: `url_repos` is restricted to the two templates the class passes it; other templates are not modelled.
- GitApi.GitApiAccess.MakeReposResponse: for an owner that is not cached it requires that some page fails or is empty; otherwise the source requests pages forever. The same requirement carries over to GetUserRepos, GetOrgRepos and GetMostActiveAuthors.
- Text.Format covers only single-digit positional fields and `{{`/`}}`: the client uses no other kind. Every other replacement field gives None, including those Python formats (`{}`, `{0:>5}`, `{0!r}`, `{10}`, `{0[k]}`).
- Commits whose author is missing (`KeyError` at lines 42-43) are not modelled: each commit is given as its author's name and email.
- URLs are kept as raw strings; the HTTP library's percent-encoding of names is not modelled, and the commit-list `params` are the fixed query `?page=1&per_page=1000`.
- Response headers are a list in iteration order; the case-insensitive lookup and the merging of repeated header names by the HTTP library are not modelled.
- Only the single commit-list response per repository is tallied, as in the source; how many commits the API puts in it is up to the server.
