/**
 * `GitAPIAccess.get_most_active_authors` apart from its requests: the tally of
 * commits per (author name, author email), the descending stable sort by count,
 * the three-column table and its first hundred rows.
 */
module Contributors {
  import opened Text
  import opened Http

  /** The author of a commit, as read from `commit.author.name` and `commit.author.email`. */
  datatype Author = Author(name: string, email: string)

  /** One item of the tally: an author key and its commit count. */
  datatype Row = Row(author: Author, count: nat)

  /** The frame that is returned: the columns `author`, `email` and `commits_count`. */
  datatype AuthorsTable = AuthorsTable(author: seq<string>, email: seq<string>, commitsCount: seq<nat>)

  const BotMarker := "[bot]"
  const TopLimit := 100

  predicate IsBot(a: Author) {
    Contains(a.name, BotMarker)
  }

  /** The commits of one list that are tallied: those whose author name does not contain the bot marker. */
  function Humans(commits: seq<Author>): seq<Author>
    decreases |commits|
  {
    if commits == [] then []
    else
      var init, last := commits[..|commits| - 1], commits[|commits| - 1];
      Humans(init) + (if IsBot(last) then [] else [last])
  }

  lemma HumansSnoc(commits: seq<Author>, x: Author)
    ensures Humans(commits + [x]) == Humans(commits) + (if IsBot(x) then [] else [x])
  {
    assert (commits + [x])[..|commits|] == commits;
  }

  /** No bot is kept, and every other author keeps all of its commits. */
  lemma {:induction false} HumansFacts(commits: seq<Author>)
    ensures forall a :: a in Humans(commits) ==> !IsBot(a)
    ensures forall a :: !IsBot(a) ==> multiset(Humans(commits))[a] == multiset(commits)[a]
    decreases |commits|
  {
    if commits != [] {
      var init, last := commits[..|commits| - 1], commits[|commits| - 1];
      HumansFacts(init);
      assert commits == init + [last];
    }
  }

  /** What one repository's commit-list response adds: its human commits if it succeeded, else nothing. */
  function Counted(response: Response<seq<Author>>): seq<Author> {
    if response.status == StatusOk then Humans(response.content) else []
  }

  /** The commits tallied over the repositories' responses, in the order they are processed. */
  function Tallied(responses: seq<Response<seq<Author>>>): seq<Author>
    decreases |responses|
  {
    if responses == [] then []
    else Tallied(responses[..|responses| - 1]) + Counted(responses[|responses| - 1])
  }

  lemma {:induction false} TalliedAppend(a: seq<Response<seq<Author>>>, b: seq<Response<seq<Author>>>)
    ensures Tallied(a + b) == Tallied(a) + Tallied(b)
    decreases |b|
  {
    if b == [] {
      assert a + b == a;
    } else {
      var init, last := b[..|b| - 1], b[|b| - 1];
      assert (a + b)[..|a + b| - 1] == a + init;
      assert (a + b)[|a + b| - 1] == last;
      TalliedAppend(a, init);
      calc {
        Tallied(a + b);
        Tallied(a + init) + Counted(last);
        (Tallied(a) + Tallied(init)) + Counted(last);
        Tallied(a) + (Tallied(init) + Counted(last));
        Tallied(a) + Tallied(b);
      }
    }
  }

  /**
   * One repository's response contributes its human commits when it is 200 and
   * nothing otherwise, and the repositories after it are tallied all the same.
   */
  lemma OneRepository(before: seq<Response<seq<Author>>>, response: Response<seq<Author>>,
                      after: seq<Response<seq<Author>>>)
    ensures Tallied(before + [response] + after)
         == Tallied(before) + (if response.status == StatusOk then Humans(response.content) else []) + Tallied(after)
  {
    TalliedAppend(before + [response], after);
    TalliedAppend(before, [response]);
    assert [response][..0] == [];
  }

  /** No commit by a bot is ever tallied. */
  lemma {:induction false} TalliedHasNoBots(responses: seq<Response<seq<Author>>>)
    ensures forall a :: a in Tallied(responses) ==> !IsBot(a)
    decreases |responses|
  {
    if responses != [] {
      TalliedHasNoBots(responses[..|responses| - 1]);
      HumansFacts(responses[|responses| - 1].content);
    }
  }

  predicate Distinct(s: seq<Author>) {
    forall i, j :: 0 <= i < j < |s| ==> s[i] != s[j]
  }

  /** The authors of `s`, each once, in the order of their first commit: the dictionary's key order. */
  function FirstSeen(s: seq<Author>): seq<Author>
    decreases |s|
  {
    if s == [] then []
    else
      var init, last := s[..|s| - 1], s[|s| - 1];
      var f := FirstSeen(init);
      if last in f then f else f + [last]
  }

  /** Every author of `s` is a key, exactly once. */
  lemma {:induction false} FirstSeenFacts(s: seq<Author>)
    ensures forall a :: a in FirstSeen(s) <==> a in s
    ensures Distinct(FirstSeen(s))
    decreases |s|
  {
    if s != [] {
      var init, last := s[..|s| - 1], s[|s| - 1];
      FirstSeenFacts(init);
      assert s == init + [last];
    }
  }

  /** The position of the first commit by `a` in `s`. */
  function FirstIndex(s: seq<Author>, a: Author): (i: nat)
    requires a in s
    ensures i < |s| && s[i] == a
    ensures forall j :: 0 <= j < i ==> s[j] != a
    decreases |s|
  {
    if s[0] == a then 0
    else
      assert s == [s[0]] + s[1..];
      FirstIndex(s[1..], a) + 1
  }

  lemma FirstIndexSnoc(s: seq<Author>, x: Author, a: Author)
    requires a in s
    ensures FirstIndex(s + [x], a) == FirstIndex(s, a)
  {
    var i, k := FirstIndex(s, a), FirstIndex(s + [x], a);
    assert (s + [x])[i] == a;
    assert k < |s| ==> (s + [x])[k] == s[k];
  }

  /** Keys appear in the order of their first commits. */
  lemma {:induction false} FirstSeenOrder(s: seq<Author>)
    ensures forall i, j :: 0 <= i < j < |FirstSeen(s)| ==>
      FirstSeen(s)[i] in s && FirstSeen(s)[j] in s &&
      FirstIndex(s, FirstSeen(s)[i]) < FirstIndex(s, FirstSeen(s)[j])
    decreases |s|
  {
    FirstSeenFacts(s);
    if s != [] {
      var init, last := s[..|s| - 1], s[|s| - 1];
      assert s == init + [last];
      FirstSeenOrder(init);
      FirstSeenFacts(init);
      var f := FirstSeen(init);
      forall a | a in init ensures FirstIndex(s, a) == FirstIndex(init, a) {
        FirstIndexSnoc(init, last, a);
      }
      if last !in f {
        assert last !in init;
        assert FirstIndex(s, last) == |init|;
      }
    }
  }

  /**
   * The dictionary of counts that lines 47-50 build from the commits `seen`, one
   * commit at a time: a new author gets 1, a known one its count plus one.
   */
  ghost function Counts(seen: seq<Author>): map<Author, nat> {
    if seen == [] then map[]
    else
      var m, x := Counts(seen[..|seen| - 1]), seen[|seen| - 1];
      if x in m then m[x := m[x] + 1] else m[x := 1]
  }

  /** The keys of `Counts(seen)` are the authors in `seen`, each with its number of commits. */
  lemma {:induction false} CountsFacts(seen: seq<Author>)
    ensures forall a :: a in Counts(seen) <==> a in seen
    ensures forall a :: a in Counts(seen) ==> Counts(seen)[a] == multiset(seen)[a]
    decreases |seen|
  {
    if seen != [] {
      var init, x := seen[..|seen| - 1], seen[|seen| - 1];
      assert seen == init + [x];
      CountsFacts(init);
      assert multiset(seen) == multiset(init) + multiset{x};
    }
  }

  /**
   * The loop state (`order` for the dictionary's keys in insertion order, `counts`
   * for its values) holds the tally of the commits in `seen`.
   */
  ghost predicate Tallies(order: seq<Author>, counts: map<Author, nat>, seen: seq<Author>) {
    order == FirstSeen(seen) && counts == Counts(seen)
  }

  /** The key order after one more commit by `x`: unchanged if `x` is known, else `x` goes last. */
  lemma FirstSeenSnoc(seen: seq<Author>, x: Author)
    ensures FirstSeen(seen + [x]) == if x in seen then FirstSeen(seen) else FirstSeen(seen) + [x]
  {
    assert (seen + [x])[..|seen|] == seen;
    FirstSeenFacts(seen);
  }

  /** A first commit by `x`: its key goes last, with count 1. */
  lemma TalliesNewKey(order: seq<Author>, counts: map<Author, nat>, seen: seq<Author>, x: Author)
    requires Tallies(order, counts, seen) && x !in counts
    ensures Tallies(order + [x], counts[x := 1], seen + [x])
  {
    CountsFacts(seen);
    FirstSeenSnoc(seen, x);
    assert (seen + [x])[..|seen|] == seen;
  }

  /** A further commit by `x`: the key order stays, its count grows by one. */
  lemma TalliesKnownKey(order: seq<Author>, counts: map<Author, nat>, seen: seq<Author>, x: Author)
    requires Tallies(order, counts, seen) && x in counts
    ensures Tallies(order, counts[x := counts[x] + 1], seen + [x])
  {
    CountsFacts(seen);
    FirstSeenSnoc(seen, x);
    assert (seen + [x])[..|seen|] == seen;
  }

  /** One more commit of the loop: `current` grows by the commit exactly when it is a human's. */
  lemma SeenStep(seen: seq<Author>, commits: seq<Author>, j: nat, current: seq<Author>)
    requires j < |commits| && current == seen + Humans(commits[..j])
    ensures IsBot(commits[j]) ==> current == seen + Humans(commits[..j + 1])
    ensures !IsBot(commits[j]) ==> current + [commits[j]] == seen + Humans(commits[..j + 1])
  {
    assert commits[..j + 1] == commits[..j] + [commits[j]];
    HumansSnoc(commits[..j], commits[j]);
  }

  /** The dictionary update of lines 47-50 for a human commit by `x` keeps the tally exact. */
  lemma RecordStep(order: seq<Author>, counts: map<Author, nat>, seen: seq<Author>, x: Author,
                   order': seq<Author>, counts': map<Author, nat>)
    requires Tallies(order, counts, seen)
    requires x !in counts ==> order' == order + [x] && counts' == counts[x := 1]
    requires x in counts ==> order' == order && counts' == counts[x := counts[x] + 1]
    ensures Tallies(order', counts', seen + [x])
  {
    if x !in counts {
      TalliesNewKey(order, counts, seen, x);
    } else {
      TalliesKnownKey(order, counts, seen, x);
    }
  }

  /** One iteration of the loop of lines 41-50: the dictionary after commit j tallies the human commits up to it. */
  lemma TallyStep(order: seq<Author>, counts: map<Author, nat>, seen: seq<Author>, commits: seq<Author>, j: nat,
                  order': seq<Author>, counts': map<Author, nat>)
    requires j < |commits|
    requires Tallies(order, counts, seen + Humans(commits[..j]))
    requires IsBot(commits[j]) ==> order' == order && counts' == counts
    requires !IsBot(commits[j]) && commits[j] !in counts ==> order' == order + [commits[j]] && counts' == counts[commits[j] := 1]
    requires !IsBot(commits[j]) && commits[j] in counts ==>
      order' == order && counts' == counts[commits[j] := counts[commits[j]] + 1]
    ensures Tallies(order', counts', seen + Humans(commits[..j + 1]))
  {
    var current := seen + Humans(commits[..j]);
    SeenStep(seen, commits, j, current);
    if !IsBot(commits[j]) {
      RecordStep(order, counts, current, commits[j], order', counts');
    }
  }

  /** One repository of the loop of lines 34-50: a 200 response adds its human commits, any other leaves the dictionary as it is. */
  lemma RepositoryStep(order: seq<Author>, counts: map<Author, nat>, seen: seq<Author>, response: Response<seq<Author>>,
                       order': seq<Author>, counts': map<Author, nat>)
    requires Tallies(order, counts, seen)
    requires response.status == StatusOk ==> Tallies(order', counts', seen + Humans(response.content))
    requires response.status != StatusOk ==> order' == order && counts' == counts
    ensures Tallies(order', counts', seen + Counted(response))
  {
    if response.status != StatusOk {
      assert seen + Counted(response) == seen;
    }
  }

  /** The loop over one repository's commits that skips bots and increments the dictionary. */
  method AddCommits(order: seq<Author>, counts: map<Author, nat>, commits: seq<Author>, ghost seen: seq<Author>)
    returns (order': seq<Author>, counts': map<Author, nat>)
    requires Tallies(order, counts, seen)
    ensures Tallies(order', counts', seen + Humans(commits))
  {
    order', counts' := order, counts;
    var j := 0;
    assert commits[..0] == [];
    assert seen + [] == seen;
    while j < |commits|
      invariant 0 <= j <= |commits|
      invariant Tallies(order', counts', seen + Humans(commits[..j]))
    {
      var author := commits[j];
      ghost var before, beforeCounts := order', counts';
      if !IsBot(author) {
        if author !in counts' {
          counts' := counts'[author := 1];
          order' := order' + [author];
        } else {
          counts' := counts'[author := counts'[author] + 1];
        }
      }
      TallyStep(before, beforeCounts, seen, commits, j, order', counts');
      j := j + 1;
    }
    assert commits[..|commits|] == commits;
  }

  /** `contributors.items()`: each key with its count, in key order. */
  function Items(order: seq<Author>, counts: map<Author, nat>): seq<Row>
    requires forall a :: a in order ==> a in counts
  {
    seq(|order|, k requires 0 <= k < |order| => Row(order[k], counts[order[k]]))
  }

  /** The tally of `seen` as rows: each author once, in first-seen order, with the number of its commits. */
  ghost function TallyRows(seen: seq<Author>): seq<Row> {
    var keys := FirstSeen(seen);
    seq(|keys|, k requires 0 <= k < |keys| => Row(keys[k], multiset(seen)[keys[k]]))
  }

  lemma ItemsAreTally(order: seq<Author>, counts: map<Author, nat>, seen: seq<Author>)
    requires Tallies(order, counts, seen)
    ensures forall a :: a in order ==> a in counts
    ensures Items(order, counts) == TallyRows(seen)
  {
    FirstSeenFacts(seen);
    CountsFacts(seen);
  }

  /**
   * Every author with a commit in `seen` has exactly one row, whose count is the
   * number of its commits, and rows follow the order of first commits.
   */
  lemma TallyRowsFacts(seen: seq<Author>)
    ensures forall a :: a in seen <==> exists k :: 0 <= k < |TallyRows(seen)| && TallyRows(seen)[k].author == a
    ensures forall k :: 0 <= k < |TallyRows(seen)| ==> TallyRows(seen)[k].count == multiset(seen)[TallyRows(seen)[k].author]
    ensures forall i, j :: 0 <= i < j < |TallyRows(seen)| ==>
      TallyRows(seen)[i].author != TallyRows(seen)[j].author
      && FirstIndex(seen, TallyRows(seen)[i].author) < FirstIndex(seen, TallyRows(seen)[j].author)
  {
    var keys := FirstSeen(seen);
    FirstSeenOrder(seen);
    FirstSeenFacts(seen);
    forall a | a in seen ensures exists k :: 0 <= k < |TallyRows(seen)| && TallyRows(seen)[k].author == a {
      assert a in keys;
      var k :| 0 <= k < |keys| && keys[k] == a;
      assert TallyRows(seen)[k].author == a;
    }
  }

  /** Counts never increase from one row to the next. */
  predicate SortedByCount(rows: seq<Row>) {
    forall i, j :: 0 <= i < j < |rows| ==> rows[i].count >= rows[j].count
  }

  /** Puts `x` in front of the first row whose count does not exceed its own. */
  function Insert(x: Row, rows: seq<Row>): (r: seq<Row>)
    ensures multiset(r) == multiset(rows) + multiset{x}
    decreases |rows|
  {
    if rows == [] || rows[0].count <= x.count then [x] + rows
    else
      assert rows == [rows[0]] + rows[1..];
      [rows[0]] + Insert(x, rows[1..])
  }

  /** A row that counts at least as much as every row of a sorted list can go in front of it. */
  lemma SortedCons(h: Row, rest: seq<Row>)
    requires SortedByCount(rest)
    requires forall y :: y in rest ==> h.count >= y.count
    ensures SortedByCount([h] + rest)
  {
    var r := [h] + rest;
    forall i, j | 0 <= i < j < |r| ensures r[i].count >= r[j].count {
      assert r[j] == rest[j - 1];
      if i > 0 {
        assert r[i] == rest[i - 1];
      }
    }
  }

  lemma {:induction false} InsertSorted(x: Row, rows: seq<Row>)
    requires SortedByCount(rows)
    ensures SortedByCount(Insert(x, rows))
    decreases |rows|
  {
    if rows != [] && rows[0].count > x.count {
      var rest := Insert(x, rows[1..]);
      InsertSorted(x, rows[1..]);
      forall y | y in rest ensures rows[0].count >= y.count {
        assert y in multiset(rest);
        if y != x {
          assert y in rows[1..];
        }
      }
      SortedCons(rows[0], rest);
    }
  }

  /**
   * `sorted(contributors.items(), key=lambda item: item[1], reverse=True)`:
   * descending by count; rows with equal counts keep their order (see SortStable).
   */
  function SortByCount(rows: seq<Row>): (r: seq<Row>)
    ensures SortedByCount(r)
    ensures multiset(r) == multiset(rows)
    decreases |rows|
  {
    if rows == [] then []
    else
      assert rows == [rows[0]] + rows[1..];
      InsertSorted(rows[0], SortByCount(rows[1..]));
      Insert(rows[0], SortByCount(rows[1..]))
  }

  /** The rows with count `c`, in order. */
  function WithCount(rows: seq<Row>, c: nat): seq<Row>
    decreases |rows|
  {
    if rows == [] then []
    else (if rows[0].count == c then [rows[0]] else []) + WithCount(rows[1..], c)
  }

  lemma {:induction false} WithCountMembers(rows: seq<Row>, c: nat)
    ensures forall x :: x in WithCount(rows, c) ==> x in rows && x.count == c
    decreases |rows|
  {
    if rows != [] {
      WithCountMembers(rows[1..], c);
    }
  }

  lemma {:induction false} InsertWithCount(x: Row, rows: seq<Row>, c: nat)
    ensures WithCount(Insert(x, rows), c) == (if x.count == c then [x] else []) + WithCount(rows, c)
    decreases |rows|
  {
    if rows == [] || rows[0].count <= x.count {
      assert ([x] + rows)[1..] == rows;
    } else {
      InsertWithCount(x, rows[1..], c);
      assert ([rows[0]] + Insert(x, rows[1..]))[1..] == Insert(x, rows[1..]);
    }
  }

  /** The sort is stable: for every count, the rows with that count are in their original order. */
  lemma {:induction false} SortStable(rows: seq<Row>, c: nat)
    ensures WithCount(SortByCount(rows), c) == WithCount(rows, c)
    decreases |rows|
  {
    if rows != [] {
      SortStable(rows[1..], c);
      InsertWithCount(rows[0], SortByCount(rows[1..]), c);
    }
  }

  lemma WithCountTail(t: seq<Row>)
    requires t != []
    ensures WithCount(t, t[0].count) == [t[0]] + WithCount(t[1..], t[0].count)
    ensures forall e :: e != t[0].count ==> WithCount(t, e) == WithCount(t[1..], e)
  {
    forall e | e != t[0].count ensures WithCount(t, e) == WithCount(t[1..], e) {
      assert WithCount(t, e) == [] + WithCount(t[1..], e);
    }
  }

  /** The first count of a sorted sequence is at least the first count of one that agrees with it on every count. */
  lemma FirstCountBound(t: seq<Row>, u: seq<Row>)
    requires SortedByCount(u) && t != []
    requires forall c :: WithCount(t, c) == WithCount(u, c)
    ensures u != [] && u[0].count >= t[0].count
  {
    var c := t[0].count;
    assert WithCount(t, c) != [];
    WithCountMembers(u, c);
    var x := WithCount(u, c)[0];
    assert x in u;
    var k :| 0 <= k < |u| && u[k] == x;
  }

  /** Two sequences sorted by count that agree on the rows of every count are equal. */
  lemma {:induction false} SortedEqual(t: seq<Row>, u: seq<Row>)
    requires SortedByCount(t) && SortedByCount(u)
    requires forall c :: WithCount(t, c) == WithCount(u, c)
    ensures t == u
    decreases |t| + |u|
  {
    if t == [] {
      if u != [] {
        FirstCountBound(u, t);
        assert false;
      }
    } else {
      FirstCountBound(t, u);
      FirstCountBound(u, t);
      var c := t[0].count;
      WithCountTail(t);
      WithCountTail(u);
      assert WithCount(t, c)[0] == t[0] && WithCount(u, c)[0] == u[0];
      forall e | true ensures WithCount(t[1..], e) == WithCount(u[1..], e) {
        if e == c {
          assert WithCount(t, e)[1..] == WithCount(t[1..], e);
        }
      }
      SortedEqual(t[1..], u[1..]);
      assert t == [t[0]] + t[1..] && u == [u[0]] + u[1..];
    }
  }

  /**
   * Python's sort guarantees a result sorted by count in which rows of equal count
   * keep their order; SortByCount is the only such sequence.
   */
  lemma StableSortIsUnique(rows: seq<Row>, t: seq<Row>)
    requires SortedByCount(t)
    requires forall c :: WithCount(t, c) == WithCount(rows, c)
    ensures t == SortByCount(rows)
  {
    forall c ensures WithCount(t, c) == WithCount(SortByCount(rows), c) {
      SortStable(rows, c);
    }
    SortedEqual(t, SortByCount(rows));
  }

  /** The first `n` rows (all of them when there are fewer). */
  function Top(rows: seq<Row>, n: nat): seq<Row> {
    if |rows| <= n then rows else rows[..n]
  }

  /** The table holds `rows`, one row per item, with name, email and count in the three columns. */
  predicate Tabulates(t: AuthorsTable, rows: seq<Row>) {
    && |t.author| == |rows| && |t.email| == |rows| && |t.commitsCount| == |rows|
    && forall k :: 0 <= k < |rows| ==>
         t.author[k] == rows[k].author.name && t.email[k] == rows[k].author.email && t.commitsCount[k] == rows[k].count
  }

  /** The loop that appends each item's name, email and count to the three column lists. */
  method BuildTable(rows: seq<Row>) returns (t: AuthorsTable)
    ensures Tabulates(t, rows)
  {
    var authors: seq<string> := [];
    var emails: seq<string> := [];
    var commitsCounts: seq<nat> := [];
    var i := 0;
    while i < |rows|
      invariant 0 <= i <= |rows|
      invariant Tabulates(AuthorsTable(authors, emails, commitsCounts), rows[..i])
    {
      var Row(author, commitsCount) := rows[i];
      authors := authors + [author.name];
      emails := emails + [author.email];
      commitsCounts := commitsCounts + [commitsCount];
      i := i + 1;
    }
    t := AuthorsTable(authors, emails, commitsCounts);
  }

  /** `DataFrame.head(n)`: the first `n` rows of every column. */
  function Head(t: AuthorsTable, n: nat): AuthorsTable {
    AuthorsTable(
      if |t.author| <= n then t.author else t.author[..n],
      if |t.email| <= n then t.email else t.email[..n],
      if |t.commitsCount| <= n then t.commitsCount else t.commitsCount[..n])
  }

  lemma HeadTabulates(t: AuthorsTable, rows: seq<Row>, n: nat)
    requires Tabulates(t, rows)
    ensures Tabulates(Head(t, n), Top(rows, n))
  {
  }

  /** The rows the report lists for the tallied commits `seen`. */
  ghost function TopAuthors(seen: seq<Author>): seq<Row> {
    Top(SortByCount(TallyRows(seen)), TopLimit)
  }

  /**
   * One row per tallied author up to a hundred, counts non-increasing, and every
   * row is an author of `seen` with the number of its commits.
   */
  lemma TopAuthorsRows(seen: seq<Author>)
    ensures |TopAuthors(seen)| == if |FirstSeen(seen)| <= TopLimit then |FirstSeen(seen)| else TopLimit
    ensures SortedByCount(TopAuthors(seen))
    ensures forall k :: 0 <= k < |TopAuthors(seen)| ==>
      var row := TopAuthors(seen)[k];
      row.author in seen && row.count == multiset(seen)[row.author] && row.count >= 1
  {
    var rows := TallyRows(seen);
    var sorted := SortByCount(rows);
    assert |sorted| == |multiset(sorted)| == |multiset(rows)| == |rows|;
    TallyRowsFacts(seen);
    forall k | 0 <= k < |TopAuthors(seen)|
      ensures TopAuthors(seen)[k].author in seen
      ensures TopAuthors(seen)[k].count == multiset(seen)[TopAuthors(seen)[k].author] >= 1
    {
      var row := TopAuthors(seen)[k];
      assert row == sorted[k];
      assert row in multiset(TallyRows(seen));
      var j :| 0 <= j < |TallyRows(seen)| && TallyRows(seen)[j] == row;
      assert row.author in FirstSeen(seen);
    }
  }

  lemma {:induction false} WithCountPrefix(rows: seq<Row>, n: nat, c: nat)
    requires n <= |rows|
    ensures WithCount(rows[..n], c) <= WithCount(rows, c)
    decreases n
  {
    if n > 0 {
      assert rows[..n][1..] == rows[1..][..n - 1];
      WithCountPrefix(rows[1..], n - 1, c);
    }
  }

  /**
   * Ties keep first-seen order: for every count, the listed rows with that count
   * are the first of the tally's rows with that count, in the tally's order.
   */
  lemma TopAuthorsTies(seen: seq<Author>, c: nat)
    ensures WithCount(TopAuthors(seen), c) <= WithCount(TallyRows(seen), c)
  {
    var sorted := SortByCount(TallyRows(seen));
    SortStable(TallyRows(seen), c);
    if |sorted| > TopLimit {
      WithCountPrefix(sorted, TopLimit, c);
    }
  }

  /** Truncation drops only rows whose count is at most every listed count. */
  lemma TopAuthorsCut(seen: seq<Author>)
    ensures forall row, k :: row in TallyRows(seen) && row !in TopAuthors(seen) && 0 <= k < |TopAuthors(seen)| ==>
      row.count <= TopAuthors(seen)[k].count
  {
    var sorted := SortByCount(TallyRows(seen));
    forall row, k | row in TallyRows(seen) && row !in TopAuthors(seen) && 0 <= k < |TopAuthors(seen)|
      ensures row.count <= TopAuthors(seen)[k].count
    {
      assert row in multiset(sorted);
      var j :| 0 <= j < |sorted| && sorted[j] == row;
      assert TopAuthors(seen)[k] == sorted[k];
    }
  }
}
