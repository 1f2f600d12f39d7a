/** History fetched page by page, each page from the continuation of the one before. */
module CommitPages {
  import opened Options
  import opened Strings
  import opened CommitGraph
  import opened CommitTheorems
  import opened CommitTraversal

  datatype Page = Page(visited: seq<string>, next: Option<string>)

  /** Pages fetched one after the other; the last one may have a continuation too. */
  ghost predicate Chain(store: Store, head: string, pages: seq<Page>)
    decreases |pages|
  {
    pages != [] ==>
      && Ended(store, head, pages[0].visited, {}, pages[0].next) && pages[0].visited != []
      && (|pages| > 1 ==> pages[0].next.Some? && Chain(store, pages[0].next.value, pages[1..]))
  }

  lemma ChainTail(store: Store, head: string, pages: seq<Page>)
    requires Chain(store, head, pages) && |pages| > 1
    ensures pages[0].next.Some? && Chain(store, pages[0].next.value, pages[1..])
    ensures Ended(store, head, pages[0].visited, {}, pages[0].next) && pages[0].visited != []
  {
  }

  ghost predicate OnSomePage(pages: seq<Page>, c: string)
  {
    exists i :: 0 <= i < |pages| && c in pages[i].visited
  }

  lemma OnPages(pages: seq<Page>, c: string)
    requires pages != []
    ensures OnSomePage(pages, c) <==> c in pages[0].visited || OnSomePage(pages[1..], c)
  {
  }

  /** A page visits its head first, and its continuation is another commit reachable from there. */
  lemma PageHead(store: Store, head: string, page: Page)
    requires WfStore(store) && Ended(store, head, page.visited, {}, page.next) && page.visited != []
    ensures page.visited[0] == head && head in store
    ensures page.next.Some? ==> page.next.value != head && Reachable(store, {}, head, page.next.value)
  {
    var list := Waiting(store, page.next);
    var seen :| State(store, head, list, seen, page.visited, {}) && Expanded(store, seen, page.visited, {});
    PageComplete(store, head, page.visited, {}, page.next, head);
  }

  // ------------------------------------------------------------- completeness

  /** Pages hold nothing but the history of their head. */
  lemma {:induction false} PagesSound(store: Store, head: string, pages: seq<Page>, c: string)
    requires WfStore(store) && Chain(store, head, pages) && OnSomePage(pages, c)
    ensures Reachable(store, {}, head, c)
    decreases |pages|
  {
    OnPages(pages, c);
    PageComplete(store, head, pages[0].visited, {}, pages[0].next, c);
    if c !in pages[0].visited {
      ChainTail(store, head, pages);
      PagesSound(store, pages[0].next.value, pages[1..], c);
      ReachableTrans(store, {}, head, pages[0].next.value, c);
    }
  }

  /** The commit on which the pages go on. */
  function Continuation(pages: seq<Page>): Option<string>
  {
    if pages == [] then None else pages[|pages| - 1].next
  }

  lemma ContinuationTail(pages: seq<Page>)
    requires |pages| > 1
    ensures Continuation(pages[1..]) == Continuation(pages)
  {
  }

  /** On one of the pages, or still to come. */
  ghost predicate Covered(store: Store, pages: seq<Page>, c: string)
  {
    OnSomePage(pages, c) || (Continuation(pages).Some? && Reachable(store, {}, Continuation(pages).value, c))
  }

  lemma CoveredLater(store: Store, pages: seq<Page>, c: string)
    requires |pages| > 1 && Covered(store, pages[1..], c)
    ensures Covered(store, pages, c)
  {
    ContinuationTail(pages);
    OnPages(pages, c);
  }

  lemma FirstPageCovers(store: Store, head: string, pages: seq<Page>, c: string)
    requires WfStore(store) && Chain(store, head, pages) && pages != [] && Reachable(store, {}, head, c)
    ensures OnSomePage(pages, c) || (pages[0].next.Some? && Reachable(store, {}, pages[0].next.value, c))
  {
    PageComplete(store, head, pages[0].visited, {}, pages[0].next, c);
    OnPages(pages, c);
  }

  /** Whatever is not on the pages yet is reachable from their continuation. */
  lemma {:induction false} PagesCover(store: Store, head: string, pages: seq<Page>, c: string)
    requires WfStore(store) && Chain(store, head, pages) && pages != [] && Reachable(store, {}, head, c)
    ensures Covered(store, pages, c)
    decreases |pages|
  {
    FirstPageCovers(store, head, pages, c);
    if !OnSomePage(pages, c) && |pages| > 1 {
      ChainTail(store, head, pages);
      PagesCover(store, pages[0].next.value, pages[1..], c);
      CoveredLater(store, pages, c);
    }
  }

  /** Every page gets at least one step further along every path: the end of a path is
      on one of the first pages, as many as the path is long, also on cyclic graphs. */
  lemma {:induction false} PathOnPages(store: Store, head: string, pages: seq<Page>, p: seq<string>)
    requires WfStore(store) && Chain(store, head, pages) && Path(store, {}, p) && p[0] == head && |p| <= |pages|
    ensures OnSomePage(pages, p[|p| - 1])
    decreases |pages|
  {
    var page, c := pages[0], p[|p| - 1];
    OnPages(pages, c);
    PageHead(store, head, page);
    if c !in page.visited {
      var k := NextOnPath(store, head, page, p);
      SuffixPath(store, {}, p, k);
      ChainTail(store, head, pages);
      PathOnPages(store, page.next.value, pages[1..], p[k..]);
    }
  }

  lemma NextOnPath(store: Store, head: string, page: Page, p: seq<string>) returns (k: nat)
    requires WfStore(store) && Ended(store, head, page.visited, {}, page.next) && page.visited != []
    requires Path(store, {}, p) && p[0] == head && p[|p| - 1] !in page.visited
    ensures 0 < k < |p| && page.next == Some(p[k])
  {
    var list := Waiting(store, page.next);
    var seen :| State(store, head, list, seen, page.visited, {}) && Expanded(store, seen, page.visited, {});
    PageHead(store, head, page);
    WaitingIds(store, page.next);
    k := FirstUnvisited(store, head, list, seen, page.visited, {}, p);
  }

  /** A path that is longer than the store comes back to a commit; cutting the loop out
      leaves a path between the same ends. */
  lemma {:induction false} ShortPath(store: Store, stopped: set<string>, p: seq<string>) returns (q: seq<string>)
    requires Path(store, stopped, p)
    ensures Path(store, stopped, q) && q[0] == p[0] && q[|q| - 1] == p[|p| - 1] && |q| <= |store.Keys|
    decreases |p|
  {
    if |p| <= |store.Keys| {
      q := p;
    } else {
      if Distinct(p) { DistinctBound(p, store.Keys); }
      var i, j :| 0 <= i < j < |p| && p[i] == p[j];
      CutLoop(store, stopped, p, i, j);
      q := ShortPath(store, stopped, p[..i] + p[j..]);
    }
  }

  lemma CutLoop(store: Store, stopped: set<string>, p: seq<string>, i: nat, j: nat)
    requires Path(store, stopped, p) && i < j < |p| && p[i] == p[j]
    ensures var q := p[..i] + p[j..]; Path(store, stopped, q) && q[0] == p[0] && q[|q| - 1] == p[|p| - 1]
  {
    var q := p[..i] + p[j..];
    forall m | 0 <= m < |q| - 1 ensures Link(store, stopped, q[m], q[m + 1]) {
      if m < i {
        assert q[m] == p[m] && q[m + 1] == p[m + 1];
      } else {
        assert q[m] == p[m + (j - i)] && q[m + 1] == p[m + 1 + (j - i)];
      }
    }
  }

  /** The pages are all of history and nothing else as soon as there is no continuation or
      there are as many pages as commits, whatever the graph. */
  lemma PagesComplete(store: Store, head: string, pages: seq<Page>, c: string)
    requires WfStore(store) && Chain(store, head, pages) && pages != []
    requires Continuation(pages).None? || |pages| >= |store.Keys|
    ensures OnSomePage(pages, c) <==> Reachable(store, {}, head, c)
  {
    if OnSomePage(pages, c) { PagesSound(store, head, pages, c); }
    if Reachable(store, {}, head, c) {
      PagesCover(store, head, pages, c);
      var p :| Path(store, {}, p) && p[0] == head && p[|p| - 1] == c;
      var q := ShortPath(store, {}, p);
      if |pages| >= |store.Keys| { PathOnPages(store, head, pages, q); }
    }
  }

  // -------------------------------------------------------------- disjointness

  lemma LaterPages(store: Store, head: string, pages: seq<Page>, c: string)
    requires WfStore(store) && Chronological(store) && Chain(store, head, pages) && |pages| > 1 && c in pages[0].visited
    ensures !OnSomePage(pages[1..], c)
  {
    ChainTail(store, head, pages);
    PageDisjoint(store, head, pages[0].visited, {}, {}, pages[0].next.value, c);
    if OnSomePage(pages[1..], c) { PagesSound(store, pages[0].next.value, pages[1..], c); }
  }

  /** The pages from the `i`-th on are a chain too. */
  lemma {:induction false} ChainFrom(store: Store, head: string, pages: seq<Page>, i: nat) returns (from: string)
    requires Chain(store, head, pages) && i < |pages|
    ensures Chain(store, from, pages[i..])
    decreases i
  {
    if i == 0 {
      from := head;
      assert pages[0..] == pages;
    } else {
      ChainTail(store, head, pages);
      from := ChainFrom(store, pages[0].next.value, pages[1..], i - 1);
      assert pages[1..][i - 1..] == pages[i..];
    }
  }

  lemma NotOnPage(pages: seq<Page>, c: string, j: nat)
    requires 0 < j < |pages| && !OnSomePage(pages[1..], c)
    ensures c !in pages[j].visited
  {
  }

  /** With strictly older parents no commit is on two pages. */
  lemma PagesDisjoint(store: Store, head: string, pages: seq<Page>, i: nat, j: nat, c: string)
    requires WfStore(store) && Chronological(store) && Chain(store, head, pages)
    requires i < j < |pages| && c in pages[i].visited
    ensures c !in pages[j].visited
  {
    var from := ChainFrom(store, head, pages, i);
    LaterPages(store, from, pages[i..], c);
    NotOnPage(pages[i..], c, j - i);
  }

  // --------------------------------------------------------------- termination

  /** No two different commits are each other's ancestors. */
  ghost predicate Acyclic(store: Store)
  {
    forall a, b :: a != b && Reachable(store, {}, a, b) ==> !Reachable(store, {}, b, a)
  }

  lemma OlderThan(store: Store, a: string, b: string)
    requires Chronological(store) && a != b && Reachable(store, {}, a, b)
    ensures a in store && b in store && store[b].ctime < store[a].ctime
  {
    var p :| Path(store, {}, p) && p[0] == a && p[|p| - 1] == b;
    PathAges(store, {}, p);
  }

  lemma ChronologicalAcyclic(store: Store)
    requires Chronological(store)
    ensures Acyclic(store)
  {
    forall a, b | a != b && Reachable(store, {}, a, b) ensures !Reachable(store, {}, b, a) {
      OlderThan(store, a, b);
      if Reachable(store, {}, b, a) { OlderThan(store, b, a); }
    }
  }

  ghost function History(store: Store, head: string): set<string>
  {
    set c | c in store && Reachable(store, {}, head, c)
  }

  /** Without cycles the next page has strictly less history before it. */
  lemma HistoryShrinks(store: Store, head: string, next: string)
    requires Acyclic(store) && head in store && next != head && Reachable(store, {}, head, next)
    ensures History(store, next) < History(store, head)
  {
    ReachableSelf(store, {}, head);
    forall c | c in History(store, next) ensures c in History(store, head) { ReachableTrans(store, {}, head, next, c); }
    assert head in History(store, head) && head !in History(store, next);
  }

  lemma HistoryOfPage(store: Store, head: string, page: Page)
    requires WfStore(store) && Acyclic(store) && Ended(store, head, page.visited, {}, page.next) && page.visited != []
    ensures |History(store, head)| > 0
    ensures page.next.Some? ==> |History(store, page.next.value)| < |History(store, head)|
  {
    PageHead(store, head, page);
    ReachableSelf(store, {}, head);
    assert head in History(store, head);
    if page.next.Some? {
      HistoryShrinks(store, head, page.next.value);
      ProperSubsetSize(History(store, page.next.value), History(store, head));
    }
  }

  /** Without cycles no chain has more pages than there are commits in its history. */
  lemma {:induction false} ChainBounded(store: Store, head: string, pages: seq<Page>)
    requires WfStore(store) && Acyclic(store) && Chain(store, head, pages)
    ensures |pages| <= |History(store, head)| <= |store.Keys|
    decreases |pages|
  {
    SubsetSize(History(store, head), store.Keys);
    if |pages| == 1 {
      HistoryOfPage(store, head, pages[0]);
    } else if |pages| > 1 {
      ChainTail(store, head, pages);
      HistoryOfPage(store, head, pages[0]);
      ChainBounded(store, pages[0].next.value, pages[1..]);
    }
  }

  lemma ProperSubsetSize(a: set<string>, b: set<string>)
    requires a < b
    ensures |a| < |b|
  {
    var x :| x in b && x !in a;
    SubsetSize(a, b - {x});
  }

  lemma {:induction false} SubsetSize(a: set<string>, b: set<string>)
    requires a <= b
    ensures |a| <= |b|
  {
    if a != {} {
      var x :| x in a;
      SubsetSize(a - {x}, b - {x});
    }
  }

  // ----------------------------------------------------------- fetching it all

  lemma NotEmpty(store: Store, head: string, page: Page)
    requires Ended(store, head, page.visited, {}, page.next) && (page.next.Some? ==> page.visited != [])
    ensures page.visited != []
  {
  }

  lemma {:induction false} ChainSnoc(store: Store, head: string, pages: seq<Page>, from: string, page: Page)
    requires Chain(store, head, pages) && pages != [] && pages[|pages| - 1].next == Some(from)
    requires Ended(store, from, page.visited, {}, page.next) && page.visited != []
    ensures Chain(store, head, pages + [page])
    decreases |pages|
  {
    assert (pages + [page])[1..] == pages[1..] + [page];
    if |pages| > 1 {
      ChainTail(store, head, pages);
      ChainSnoc(store, pages[0].next.value, pages[1..], from, page);
    } else {
      assert Chain(store, from, [page]);
      assert pages[1..] + [page] == [page];
    }
  }

  /** The callback succeeded on every commit of every page. */
  ghost predicate PagesAnswered(store: Store, visitor: Visitor, pages: seq<Page>)
  {
    forall i :: 0 <= i < |pages| ==> AllAnswered(store, visitor, pages[i].visited)
  }

  /** The pages fetched so far, and when they could be. */
  ghost predicate Fetched(store: Store, head: string, visitor: Visitor, skipErrors: bool, ret: bool, pages: seq<Page>)
  {
    && (ret ==> Chain(store, head, pages) && (skipErrors || PagesAnswered(store, visitor, pages)))
    && (head in store && (skipErrors || (NeverFails(visitor) && NoneMissing(store))) ==> ret)
  }

  lemma FetchedSnoc(store: Store, head: string, visitor: Visitor, skipErrors: bool, pages: seq<Page>,
                    from: string, ret: bool, page: Page)
    requires Fetched(store, head, visitor, skipErrors, true, pages) && pages != []
    requires pages[|pages| - 1].next == Some(from)
    requires ret ==> Ended(store, from, page.visited, {}, page.next) && page.visited != []
    requires ret && !skipErrors ==> AllAnswered(store, visitor, page.visited)
    requires skipErrors || (NeverFails(visitor) && NoneMissing(store)) ==> ret
    ensures Fetched(store, head, visitor, skipErrors, ret, pages + [page])
  {
    if ret { ChainSnoc(store, head, pages, from, page); }
  }

  method FetchPage(store: Store, head: string, visitor: Visitor, limit: int, skipErrors: bool)
    returns (ret: bool, page: Page)
    requires WfStore(store) && NeverStops(visitor)
    ensures head in store && (skipErrors || (NeverFails(visitor) && NoneMissing(store))) ==> ret
    ensures ret ==> Ended(store, head, page.visited, {}, page.next) && page.visited != []
    ensures ret && page.next.Some? ==> |page.visited| >= limit > 0
    ensures ret && !skipErrors ==> AllAnswered(store, visitor, page.visited)
  {
    var visited, next;
    ghost var stopped;
    ret, visited, next, stopped := TraverseWithLimit(store, head, visitor, limit, skipErrors);
    page := Page(visited, next);
    if ret {
      NotEmpty(store, head, page);
      FollowedBound(visited, stopped);
    }
  }

  lemma {:induction false} FollowedBound(done: seq<string>, stopped: set<string>)
    ensures Followed(done, stopped) <= |done|
  {
    if done != [] { FollowedBound(done[..|done| - 1], stopped); }
  }

  /** Fetch pages until there is no continuation. Without cycles that ends, after at most
      as many pages as there are commits, and the pages are all of history. */
  method FetchAll(store: Store, head: string, visitor: Visitor, limit: int, skipErrors: bool)
    returns (ret: bool, pages: seq<Page>)
    requires WfStore(store) && Acyclic(store) && NeverStops(visitor)
    ensures head in store && (skipErrors || (NeverFails(visitor) && NoneMissing(store))) ==> ret
    ensures ret ==> Chain(store, head, pages) && |pages| <= |store.Keys|
    ensures ret ==> forall c :: OnSomePage(pages, c) <==> Reachable(store, {}, head, c)
    ensures ret && !skipErrors ==> PagesAnswered(store, visitor, pages)
  {
    var page;
    ret, page := FetchPage(store, head, visitor, limit, skipErrors);
    pages := [page];
    while ret && page.next.Some?
      invariant pages != [] && pages[|pages| - 1] == page
      invariant Fetched(store, head, visitor, skipErrors, ret, pages)
      decreases |store.Keys| - |pages|
    {
      ChainBounded(store, head, pages);
      var from := page.next.value;
      LastNext(store, head, pages);
      ret, page := FetchPage(store, from, visitor, limit, skipErrors);
      FetchedSnoc(store, head, visitor, skipErrors, pages, from, ret, page);
      pages := pages + [page];
    }
    if ret {
      forall c ensures OnSomePage(pages, c) <==> Reachable(store, {}, head, c) { PagesComplete(store, head, pages, c); }
      ChainBounded(store, head, pages);
    }
  }

  lemma {:induction false} LastNext(store: Store, head: string, pages: seq<Page>)
    requires Chain(store, head, pages) && pages != [] && pages[|pages| - 1].next.Some?
    ensures pages[|pages| - 1].next.value in store
    decreases |pages|
  {
    if |pages| > 1 {
      ChainTail(store, head, pages);
      LastNext(store, pages[0].next.value, pages[1..]);
    }
  }

  // ------------------------------------------------------------------- a cycle

  /** Two commits, each the only parent of the other. */
  ghost predicate IsCycle(store: Store, a: string, b: string)
  {
    && WfStore(store) && a != b && store.Keys == {a, b}
    && Parents(store[a]) == {b} && Parents(store[b]) == {a}
  }

  lemma CyclePending(store: Store, a: string, b: string)
    requires IsCycle(store, a, b)
    ensures MayEnd(store, a, 1, [a], {}) && Reachable(store, {}, a, b)
  {
    assert [a][0] == a && FoundBy(store, [a], {}, 1, b);
    assert Pending(store, a, [a], {}) == {b};
    assert [a][..0] == [];
    var p := [a, b];
    assert Link(store, {}, p[0], p[1]);
    assert Path(store, {}, p);
  }

  /** A page of at least one commit that ends as soon as it may is the head alone. */
  lemma CycleOne(store: Store, a: string, b: string, page: Page)
    requires IsCycle(store, a, b) && Ended(store, a, page.visited, {}, page.next) && page.visited != []
    requires NoEndBefore(store, a, 1, page.visited, {}, |page.visited|)
    ensures page == Page([a], Some(b))
  {
    CyclePending(store, a, b);
    PageHead(store, a, page);
    PageComplete(store, a, page.visited, {}, page.next, b);
    assert page.visited[..1] == [a];
    assert page.visited == [a];
    if page.next.Some? { NextStored(store, a, page); }
  }

  lemma NextStored(store: Store, head: string, page: Page)
    requires Ended(store, head, page.visited, {}, page.next) && page.next.Some?
    ensures page.next.value in store
  {
  }

  /** From either commit the traversal returns a page with that commit, and the other one
      as its continuation. */
  method CyclePage(store: Store, a: string, ghost b: string, visitor: Visitor) returns (page: Page)
    requires IsCycle(store, a, b) && NeverStops(visitor)
    ensures page == Page([a], Some(b)) && Ended(store, a, page.visited, {}, page.next)
  {
    var ret, visited, next;
    ghost var stopped;
    ret, visited, next, stopped := TraverseWithLimit(store, a, visitor, 1, true);
    page := Page(visited, next);
    NoStops(store, visitor, visited, stopped);
    NotEmpty(store, a, page);
    CycleOne(store, a, b, page);
  }

  /** The commits in turn. */
  function Turn(a: string, b: string, i: nat): string
  {
    if i % 2 == 0 then a else b
  }

  function TurnPage(a: string, b: string, i: nat): Page
  {
    Page([Turn(a, b, i)], Some(Turn(a, b, i + 1)))
  }

  /** Every page has one of the commits, and goes on with the other. */
  ghost predicate InTurn(a: string, b: string, pages: seq<Page>)
  {
    forall i :: 0 <= i < |pages| ==> pages[i] == TurnPage(a, b, i)
  }

  lemma {:induction false} CycleSnoc(store: Store, a: string, b: string, pages: seq<Page>, page: Page)
    requires Chain(store, a, pages) && InTurn(a, b, pages) && pages != [] && page == TurnPage(a, b, |pages|)
    requires Ended(store, Turn(a, b, |pages|), page.visited, {}, page.next)
    ensures Chain(store, a, pages + [page]) && InTurn(a, b, pages + [page])
  {
    assert pages[|pages| - 1] == TurnPage(a, b, |pages| - 1);
    ChainSnoc(store, a, pages, Turn(a, b, |pages|), page);
  }

  lemma CycleTurn(store: Store, a: string, b: string, i: nat)
    requires IsCycle(store, a, b)
    ensures IsCycle(store, Turn(a, b, i), Turn(a, b, i + 1))
  {
  }

  lemma ChainOne(store: Store, head: string, page: Page)
    requires Ended(store, head, page.visited, {}, page.next) && page.visited != []
    ensures Chain(store, head, [page])
  {
  }

  /** On a cycle the pages go on for ever: any number of them is fetched, each with a
      continuation, which is the head of the page before. */
  method CycleEndless(store: Store, a: string, ghost b: string, n: nat, visitor: Visitor) returns (pages: seq<Page>)
    requires IsCycle(store, a, b) && NeverStops(visitor) && n > 0
    ensures |pages| == n && Chain(store, a, pages) && InTurn(a, b, pages)
  {
    var page := CyclePage(store, a, b, visitor);
    pages := [page];
    ChainOne(store, a, page);
    for k := 1 to n
      invariant |pages| == k && Chain(store, a, pages) && InTurn(a, b, pages) && page == TurnPage(a, b, k - 1)
    {
      var from := page.next.value;
      CycleTurn(store, a, b, k);
      page := CyclePage(store, from, Turn(a, b, k + 1), visitor);
      CycleSnoc(store, a, b, pages, page);
      pages := pages + [page];
    }
  }
}
