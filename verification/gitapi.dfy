/**
 * The client object `GitAPIAccess`: credentials, the per-owner cache of repository
 * tables, and the requests it sends to the GitHub REST API.
 */
module GitApi {
  import opened Options
  import opened Text
  import opened Http
  import opened RateLimit
  import opened Contributors
  import opened Repositories

  /** The API as the client sees it: what each URL answers to this client's credentials. */
  datatype Server = Server(
    profile: string -> Response<seq<Header>>,
    repoPages: Pages,
    commits: string -> Response<seq<Author>>)

  /** The repository names of a listing, as the f-string renders each cell of the `name` column. */
  function RepoNames(t: RepoTable): seq<string> {
    seq(|t.name|, k requires 0 <= k < |t.name| => Str(t.name[k]))
  }

  /** The answers to the commit-list requests for the repositories `names` of `org`, in order. */
  ghost function CommitResponses(server: Server, org: string, names: seq<string>): seq<Response<seq<Author>>>
    decreases |names|
  {
    if names == [] then []
    else CommitResponses(server, org, names[..|names| - 1]) + [server.commits(CommitsUrl(org, names[|names| - 1]))]
  }

  /** The commit-list requests for the repositories `names` of `org`, in order. */
  ghost function CommitRequests(org: string, names: seq<string>, user: string, token: string): seq<Request>
    decreases |names|
  {
    if names == [] then []
    else CommitRequests(org, names[..|names| - 1], user, token) + [Get(CommitsUrl(org, names[|names| - 1]), user, token)]
  }

  /** One more repository: its request and answer come last, and its human commits join the tally. */
  lemma CommitStep(server: Server, org: string, names: seq<string>, i: nat, user: string, token: string)
    requires i < |names|
    ensures CommitRequests(org, names[..i + 1], user, token)
         == CommitRequests(org, names[..i], user, token) + [Get(CommitsUrl(org, names[i]), user, token)]
    ensures CommitResponses(server, org, names[..i + 1])
         == CommitResponses(server, org, names[..i]) + [server.commits(CommitsUrl(org, names[i]))]
    ensures Tallied(CommitResponses(server, org, names[..i + 1]))
         == Tallied(CommitResponses(server, org, names[..i])) + Counted(server.commits(CommitsUrl(org, names[i])))
  {
    assert names[..i + 1][..i] == names[..i];
    var rs := CommitResponses(server, org, names[..i]);
    var last := server.commits(CommitsUrl(org, names[i]));
    assert (rs + [last])[..|rs|] == rs;
  }

  class GitApiAccess {
    const username: string
    const token: string
    /** `self.repos`: the table of each owner whose listing was fetched successfully. */
    var repos: map<string, RepoTable>
    /** Every request this client has sent, in order. */
    ghost var Sent: seq<Request>

    constructor (username: string, token: string)
      ensures this.username == username && this.token == token
      ensures repos == map[] && Sent == []
    {
      this.username := username;
      this.token := token;
      repos := map[];
      Sent := [];
    }

    /** The requests one pass needs before the session has the listing of `name`. */
    ghost predicate CanList(server: Server, t: string, name: string)
      reads this
      requires IsReposTemplate(t)
    {
      name !in repos ==> PaginationEnds(server.repoPages, t, name)
    }

    /** What `make_repos_response(t, name)` returns now: the cached table, or the fetched listing. */
    ghost function ReposOf(server: Server, t: string, name: string): Option<RepoTable>
      reads this
      requires IsReposTemplate(t) && CanList(server, t, name)
    {
      if name in repos then Some(repos[name]) else Listing(server.repoPages, t, name)
    }

    /** The cache after that call: the fetched table is stored only when the listing succeeds. */
    ghost function ReposAfter(server: Server, t: string, name: string): map<string, RepoTable>
      reads this
      requires IsReposTemplate(t) && CanList(server, t, name)
    {
      if name in repos then repos
      else match Listing(server.repoPages, t, name)
        case None => repos
        case Some(table) => repos[name := table]
    }

    /** The requests that call sends: none on a cache hit, else pages 1 to StopPage. */
    ghost function FetchRequests(server: Server, t: string, name: string): seq<Request>
      reads this
      requires IsReposTemplate(t) && CanList(server, t, name)
    {
      if name in repos then []
      else PageRequests(t, name, StopPage(server.repoPages, t, name), username, token)
    }

    /**
     * The `while True` loop of `make_repos_response`: requests pages 1, 2, ... of
     * `name`'s listing until one fails (None) or is empty (Some of the items of the
     * pages before it, in page order).
     */
    method FetchPages(server: Server, urlRepos: string, name: string) returns (r: Option<seq<RepoItem>>)
      requires IsReposTemplate(urlRepos) && PaginationEnds(server.repoPages, urlRepos, name)
      modifies this`Sent
      ensures var pages, stop := server.repoPages, StopPage(server.repoPages, urlRepos, name);
        && Sent == old(Sent) + PageRequests(urlRepos, name, stop, username, token)
        && r == if Page(pages, urlRepos, name, stop).status != StatusOk then None
                else Some(Collected(pages, urlRepos, name, stop - 1))
    {
      ghost var pages := server.repoPages;
      var data: seq<RepoItem> := [];
      var curPage: nat := 1;
      ghost var stop := StopPage(pages, urlRepos, name);
      while true
        invariant 1 <= curPage <= stop
        invariant data == Collected(pages, urlRepos, name, curPage - 1)
        invariant Sent == old(Sent) + PageRequests(urlRepos, name, curPage - 1, username, token)
        decreases stop - curPage
      {
        var url := PageUrl(urlRepos, name, curPage);
        Sent := Sent + [Get(url, username, token)];
        var response := server.repoPages(url);
        if response.status != StatusOk {
          FailedPage(pages, urlRepos, name, curPage);
          return None;
        }
        if |response.content| == 0 {
          EmptyPage(pages, urlRepos, name, curPage);
          break;
        }
        BeforeStop(pages, urlRepos, name, curPage);
        data := data + response.content;
        curPage := curPage + 1;
      }
      r := Some(data);
    }

    /**
     * `make_repos_response`: a cached owner is answered from the cache without any
     * request; otherwise pages are requested until the first failed or empty one, and
     * the projected table is stored and returned, or None on a failed page.
     */
    method MakeReposResponse(server: Server, urlRepos: string, name: string) returns (r: Option<RepoTable>)
      requires IsReposTemplate(urlRepos) && CanList(server, urlRepos, name)
      modifies this
      ensures name in old(repos) ==> r == Some(old(repos)[name]) && repos == old(repos) && Sent == old(Sent)
      ensures r.None? ==> repos == old(repos)
      ensures r.Some? ==> repos == old(repos)[name := r.value]
      ensures r == old(ReposOf(server, urlRepos, name))
      ensures repos == old(ReposAfter(server, urlRepos, name))
      ensures Sent == old(Sent + FetchRequests(server, urlRepos, name))
    {
      if name in repos {
        return Some(repos[name]);
      }
      var data := FetchPages(server, urlRepos, name);
      if data.None? {
        return None;
      }
      var table := ProjectColumns(data.value);
      repos := repos[name := table];
      r := Some(table);
    }

    /** `get_user_repos`: the listing of the client's own user. */
    method GetUserRepos(server: Server) returns (r: Option<RepoTable>)
      requires CanList(server, UserReposUrl, username)
      modifies this
      ensures r == old(ReposOf(server, UserReposUrl, username))
      ensures repos == old(ReposAfter(server, UserReposUrl, username))
      ensures Sent == old(Sent + FetchRequests(server, UserReposUrl, username))
    {
      r := MakeReposResponse(server, UserReposUrl, username);
    }

    /** `get_org_repos`: the listing of an organisation. */
    method GetOrgRepos(server: Server, orgName: string) returns (r: Option<RepoTable>)
      requires CanList(server, OrgReposUrl, orgName)
      modifies this
      ensures r == old(ReposOf(server, OrgReposUrl, orgName))
      ensures repos == old(ReposAfter(server, OrgReposUrl, orgName))
      ensures Sent == old(Sent + FetchRequests(server, OrgReposUrl, orgName))
    {
      r := MakeReposResponse(server, OrgReposUrl, orgName);
    }

    /**
     * The loop of `get_most_active_authors` over the repositories: one commit-list
     * request each, skipping those that do not answer 200, tallying the rest.
     */
    method TallyCommits(server: Server, orgName: string, names: seq<string>)
      returns (order: seq<Author>, counts: map<Author, nat>)
      modifies this`Sent
      ensures Sent == old(Sent) + CommitRequests(orgName, names, username, token)
      ensures Tallies(order, counts, Tallied(CommitResponses(server, orgName, names)))
    {
      order, counts := [], map[];
      ghost var seen: seq<Author> := [];
      var i := 0;
      assert names[..0] == [];
      while i < |names|
        invariant 0 <= i <= |names|
        invariant Sent == old(Sent) + CommitRequests(orgName, names[..i], username, token)
        invariant seen == Tallied(CommitResponses(server, orgName, names[..i]))
        invariant Tallies(order, counts, seen)
      {
        var url := CommitsUrl(orgName, names[i]);
        Sent := Sent + [Get(url, username, token)];
        var response := server.commits(url);
        CommitStep(server, orgName, names, i, username, token);
        ghost var before, beforeCounts := order, counts;
        if response.status == StatusOk {
          order, counts := AddCommits(order, counts, response.content, seen);
        }
        RepositoryStep(before, beforeCounts, seen, response, order, counts);
        seen := seen + Counted(response);
        i := i + 1;
      }
      assert names[..|names|] == names;
    }

    /** The commits that `get_most_active_authors` tallies for the repositories of `listing`. */
    ghost function OrgCommits(server: Server, orgName: string, listing: RepoTable): seq<Author> {
      Tallied(CommitResponses(server, orgName, RepoNames(listing)))
    }

    /**
     * `get_most_active_authors`: None when the organisation listing fails; otherwise
     * the table of the top authors of the human commits of every repository whose
     * commit list answered 200, after one commit-list request per repository.
     */
    method GetMostActiveAuthors(server: Server, orgName: string) returns (r: Option<AuthorsTable>)
      requires CanList(server, OrgReposUrl, orgName)
      modifies this
      ensures old(ReposOf(server, OrgReposUrl, orgName)).None? ==> r.None?
      ensures old(ReposOf(server, OrgReposUrl, orgName)).Some? ==>
        var listing := old(ReposOf(server, OrgReposUrl, orgName)).value;
        && r.Some?
        && Tabulates(r.value, TopAuthors(OrgCommits(server, orgName, listing)))
        && Sent == old(Sent + FetchRequests(server, OrgReposUrl, orgName))
                   + CommitRequests(orgName, RepoNames(listing), username, token)
      ensures old(ReposOf(server, OrgReposUrl, orgName)).None? ==>
        Sent == old(Sent + FetchRequests(server, OrgReposUrl, orgName))
      ensures repos == old(ReposAfter(server, OrgReposUrl, orgName))
    {
      var orgRepos := GetOrgRepos(server, orgName);
      if orgRepos.None? {
        return None;
      }
      var names := RepoNames(orgRepos.value);
      var order, counts := TallyCommits(server, orgName, names);
      ItemsAreTally(order, counts, Tallied(CommitResponses(server, orgName, names)));
      var sorted := SortByCount(Items(order, counts));
      var table := BuildTable(sorted);
      HeadTabulates(table, sorted, TopLimit);
      r := Some(Head(table, TopLimit));
    }

    /**
     * `get_response_limit`: one request for the user profile; None unless it answers
     * 200, else the RateLimit headers of the answer, in header order.
     */
    method GetResponseLimit(server: Server) returns (r: Option<Series>)
      modifies this`Sent
      ensures Sent == old(Sent) + [Get(UserUrl, username, token)]
      ensures r.None? <==> server.profile(UserUrl).status != StatusOk
      ensures r.Some? ==> Lists(r.value, RateLimitHeaders(server.profile(UserUrl).content))
    {
      Sent := Sent + [Get(UserUrl, username, token)];
      var response := server.profile(UserUrl);
      if response.status != StatusOk {
        return None;
      }
      var series := CollectRateLimit(response.content);
      r := Some(series);
    }
  }
}
