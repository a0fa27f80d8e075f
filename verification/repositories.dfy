/**
 * `GitAPIAccess.make_repos_response` apart from its cache: the pages of a
 * listing, requested in turn until the first empty one, and the projection of
 * their items onto the columns `name`, `private` and `created_at`.
 */
module Repositories {
  import opened Options
  import opened Text
  import opened Http

  /** One object of a listing page: its keys, in order, each with its value. */
  type RepoItem = seq<(string, Value)>

  /** The table kept per owner: the columns `name`, `private` and `created_at`. */
  datatype RepoTable = RepoTable(name: seq<Value>, private: seq<Value>, createdAt: seq<Value>)

  /** What the API answers at each listing URL. */
  type Pages = string -> Response<seq<RepoItem>>

  /** The values `item` has under `key`, in key order (a JSON object has at most one). */
  function ValuesOf(item: RepoItem, key: string): seq<Value>
    decreases |item|
  {
    if item == [] then []
    else
      var last := item[|item| - 1];
      ValuesOf(item[..|item| - 1], key) + (if last.0 == key then [last.1] else [])
  }

  lemma {:induction false} ValuesOfMembers(item: RepoItem, key: string)
    ensures forall v :: v in ValuesOf(item, key) <==> (key, v) in item
    decreases |item|
  {
    if item != [] {
      ValuesOfMembers(item[..|item| - 1], key);
      assert item == item[..|item| - 1] + [item[|item| - 1]];
    }
  }

  lemma ValuesOfStep(item: RepoItem, j: nat, key: string)
    requires j < |item|
    ensures ValuesOf(item[..j + 1], key) == ValuesOf(item[..j], key) + (if item[j].0 == key then [item[j].1] else [])
  {
    assert item[..j + 1][..j] == item[..j];
  }

  /** The column that the loop over all items builds for `key`. */
  function ColumnOf(data: seq<RepoItem>, key: string): seq<Value>
    decreases |data|
  {
    if data == [] then []
    else ColumnOf(data[..|data| - 1], key) + ValuesOf(data[|data| - 1], key)
  }

  lemma ColumnOfStep(data: seq<RepoItem>, i: nat, key: string)
    requires i < |data|
    ensures ColumnOf(data[..i + 1], key) == ColumnOf(data[..i], key) + ValuesOf(data[i], key)
  {
    assert data[..i + 1][..i] == data[..i];
  }

  /** A column holds the values of its own key, from any item, and nothing else. */
  lemma {:induction false} ColumnMembers(data: seq<RepoItem>, key: string)
    ensures forall v :: v in ColumnOf(data, key) <==> exists i :: 0 <= i < |data| && (key, v) in data[i]
    decreases |data|
  {
    if data != [] {
      var init, last := data[..|data| - 1], data[|data| - 1];
      ColumnMembers(init, key);
      ValuesOfMembers(last, key);
      forall v | (exists i :: 0 <= i < |data| && (key, v) in data[i]) ensures v in ColumnOf(data, key) {
        var i :| 0 <= i < |data| && (key, v) in data[i];
        if i < |init| {
          assert init[i] == data[i];
        }
      }
      forall v | v in ColumnOf(data, key) ensures exists i :: 0 <= i < |data| && (key, v) in data[i] {
        if v in ColumnOf(init, key) {
          var i :| 0 <= i < |init| && (key, v) in init[i];
          assert data[i] == init[i];
        } else {
          assert (key, v) in data[|data| - 1];
        }
      }
    }
  }

  /** An item that carries `key` exactly once, as every repository object of the API does for its fields. */
  predicate HasKeyOnce(item: RepoItem, key: string) {
    |ValuesOf(item, key)| == 1
  }

  /** An item with each of the three projected fields exactly once. */
  predicate WellFormed(item: RepoItem) {
    HasKeyOnce(item, "name") && HasKeyOnce(item, "private") && HasKeyOnce(item, "created_at")
  }

  /** When every item carries `key` once, the column has one entry per item, in item order. */
  lemma {:induction false} ColumnAligned(data: seq<RepoItem>, key: string)
    requires forall i :: 0 <= i < |data| ==> HasKeyOnce(data[i], key)
    ensures |ColumnOf(data, key)| == |data|
    ensures forall i :: 0 <= i < |data| ==> ValuesOf(data[i], key) == [ColumnOf(data, key)[i]]
    decreases |data|
  {
    if data != [] {
      var init := data[..|data| - 1];
      ColumnAligned(init, key);
    }
  }

  /** The three columns of `data`; every other key is dropped. */
  function Projection(data: seq<RepoItem>): RepoTable {
    RepoTable(ColumnOf(data, "name"), ColumnOf(data, "private"), ColumnOf(data, "created_at"))
  }

  /** The nested loop over the items and their keys that appends each wanted value to its column. */
  method ProjectColumns(data: seq<RepoItem>) returns (t: RepoTable)
    ensures t == Projection(data)
  {
    var names: seq<Value> := [];
    var privates: seq<Value> := [];
    var createdAts: seq<Value> := [];
    var i := 0;
    while i < |data|
      invariant 0 <= i <= |data|
      invariant RepoTable(names, privates, createdAts) == Projection(data[..i])
    {
      var repo := data[i];
      var j := 0;
      while j < |repo|
        invariant 0 <= j <= |repo|
        invariant names == ColumnOf(data[..i], "name") + ValuesOf(repo[..j], "name")
        invariant privates == ColumnOf(data[..i], "private") + ValuesOf(repo[..j], "private")
        invariant createdAts == ColumnOf(data[..i], "created_at") + ValuesOf(repo[..j], "created_at")
      {
        var (key, value) := repo[j];
        ValuesOfStep(repo, j, "name");
        ValuesOfStep(repo, j, "private");
        ValuesOfStep(repo, j, "created_at");
        if key == "name" {
          names := names + [value];
        } else if key == "private" {
          privates := privates + [value];
        } else if key == "created_at" {
          createdAts := createdAts + [value];
        }
        j := j + 1;
      }
      assert repo[..|repo|] == repo;
      ColumnOfStep(data, i, "name");
      ColumnOfStep(data, i, "private");
      ColumnOfStep(data, i, "created_at");
      i := i + 1;
    }
    assert data[..|data|] == data;
    t := RepoTable(names, privates, createdAts);
  }

  /** A page that ends the loop: an error status, or an empty list. */
  predicate IsStop(response: Response<seq<RepoItem>>) {
    response.status != StatusOk || response.content == []
  }

  /** The answer to the request for page `p` of `owner`'s listing. */
  function Page(pages: Pages, t: string, owner: string, p: nat): Response<seq<RepoItem>>
    requires IsReposTemplate(t)
  {
    pages(PageUrl(t, owner, p))
  }

  /** Some page ends the loop; otherwise the source requests pages forever. */
  ghost predicate PaginationEnds(pages: Pages, t: string, owner: string)
    requires IsReposTemplate(t)
  {
    exists p: nat :: p >= 1 && IsStop(Page(pages, t, owner, p))
  }

  /** Page `k` is the first page that ends the loop. */
  ghost predicate IsFirstStop(pages: Pages, t: string, owner: string, k: nat)
    requires IsReposTemplate(t)
  {
    k >= 1 && IsStop(Page(pages, t, owner, k)) && forall q :: 1 <= q < k ==> !IsStop(Page(pages, t, owner, q))
  }

  lemma {:induction false} FirstStopExists(pages: Pages, t: string, owner: string, p: nat)
    requires IsReposTemplate(t) && p >= 1 && IsStop(Page(pages, t, owner, p))
    ensures exists k :: IsFirstStop(pages, t, owner, k)
    decreases p
  {
    if exists q :: 1 <= q < p && IsStop(Page(pages, t, owner, q)) {
      var q :| 1 <= q < p && IsStop(Page(pages, t, owner, q));
      FirstStopExists(pages, t, owner, q);
    } else {
      assert IsFirstStop(pages, t, owner, p);
    }
  }

  /** The page on which the loop ends. */
  ghost function StopPage(pages: Pages, t: string, owner: string): (k: nat)
    requires IsReposTemplate(t) && PaginationEnds(pages, t, owner)
    ensures IsFirstStop(pages, t, owner, k)
  {
    var p: nat :| p >= 1 && IsStop(Page(pages, t, owner, p));
    FirstStopExists(pages, t, owner, p);
    var k :| IsFirstStop(pages, t, owner, k);
    k
  }

  /** `data` after pages 1 to k: their lists concatenated in page order. */
  ghost function Collected(pages: Pages, t: string, owner: string, k: nat): seq<RepoItem>
    requires IsReposTemplate(t)
  {
    if k == 0 then [] else Collected(pages, t, owner, k - 1) + Page(pages, t, owner, k).content
  }

  /** What fetching `owner`'s listing yields: None if the last page failed, else the projected items of all pages. */
  ghost function Listing(pages: Pages, t: string, owner: string): Option<RepoTable>
    requires IsReposTemplate(t) && PaginationEnds(pages, t, owner)
  {
    var k := StopPage(pages, t, owner);
    if Page(pages, t, owner, k).status != StatusOk then None
    else Some(Projection(Collected(pages, t, owner, k - 1)))
  }

  /** The requests for pages 1 to k, in order. */
  ghost function PageRequests(t: string, owner: string, k: nat, user: string, token: string): seq<Request>
    requires IsReposTemplate(t)
  {
    if k == 0 then [] else PageRequests(t, owner, k - 1, user, token) + [Get(PageUrl(t, owner, k), user, token)]
  }

  /**
   * A run of pages: if pages 1 to k - 1 are non-empty 200 lists and page k ends the
   * loop, then k is the last page requested, a failed page k makes the listing None,
   * and an empty page k makes it the projection of pages 1 to k - 1.
   */
  lemma ListingOfRun(pages: Pages, t: string, owner: string, k: nat)
    requires IsReposTemplate(t) && k >= 1
    requires forall q :: 1 <= q < k ==> !IsStop(Page(pages, t, owner, q))
    requires IsStop(Page(pages, t, owner, k))
    ensures PaginationEnds(pages, t, owner)
    ensures StopPage(pages, t, owner) == k
    ensures Listing(pages, t, owner)
         == if Page(pages, t, owner, k).status != StatusOk then None
            else Some(Projection(Collected(pages, t, owner, k - 1)))
  {
    assert IsFirstStop(pages, t, owner, k);
  }

  /** A page before the stop page is a non-empty 200 list, so the loop goes on. */
  lemma BeforeStop(pages: Pages, t: string, owner: string, k: nat)
    requires IsReposTemplate(t) && PaginationEnds(pages, t, owner)
    requires 1 <= k <= StopPage(pages, t, owner) && !IsStop(Page(pages, t, owner, k))
    ensures k < StopPage(pages, t, owner)
    ensures Collected(pages, t, owner, k) == Collected(pages, t, owner, k - 1) + Page(pages, t, owner, k).content
  {
  }

  /** A failed page up to the stop page is the stop page, and the listing is None. */
  lemma FailedPage(pages: Pages, t: string, owner: string, k: nat)
    requires IsReposTemplate(t) && PaginationEnds(pages, t, owner)
    requires 1 <= k <= StopPage(pages, t, owner) && Page(pages, t, owner, k).status != StatusOk
    ensures k == StopPage(pages, t, owner)
    ensures Listing(pages, t, owner) == None
  {
  }

  /** An empty 200 page up to the stop page is the stop page, and the listing projects the pages before it. */
  lemma EmptyPage(pages: Pages, t: string, owner: string, k: nat)
    requires IsReposTemplate(t) && PaginationEnds(pages, t, owner)
    requires 1 <= k <= StopPage(pages, t, owner)
    requires Page(pages, t, owner, k).status == StatusOk && Page(pages, t, owner, k).content == []
    ensures k == StopPage(pages, t, owner)
    ensures Listing(pages, t, owner) == Some(Projection(Collected(pages, t, owner, k - 1)))
  {
  }

  /** The items a fetched listing is projected from: pages 1 to StopPage - 1. */
  ghost function Fetched(pages: Pages, t: string, owner: string): seq<RepoItem>
    requires IsReposTemplate(t) && PaginationEnds(pages, t, owner)
  {
    Collected(pages, t, owner, StopPage(pages, t, owner) - 1)
  }

  /**
   * When every fetched item carries the three fields once, each column of the listing
   * has one entry per item, in page order, taken from that item.
   */
  lemma ListingColumns(pages: Pages, t: string, owner: string)
    requires IsReposTemplate(t) && PaginationEnds(pages, t, owner)
    requires Listing(pages, t, owner).Some?
    requires forall i :: 0 <= i < |Fetched(pages, t, owner)| ==> WellFormed(Fetched(pages, t, owner)[i])
    ensures var data, table := Fetched(pages, t, owner), Listing(pages, t, owner).value;
      && |table.name| == |data| && |table.private| == |data| && |table.createdAt| == |data|
      && forall i :: 0 <= i < |data| ==>
           && ValuesOf(data[i], "name") == [table.name[i]]
           && ValuesOf(data[i], "private") == [table.private[i]]
           && ValuesOf(data[i], "created_at") == [table.createdAt[i]]
  {
    var data := Fetched(pages, t, owner);
    assert forall i :: 0 <= i < |data| ==> WellFormed(data[i]);
    ColumnAligned(data, "name");
    ColumnAligned(data, "private");
    ColumnAligned(data, "created_at");
  }
}
