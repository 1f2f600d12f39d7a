/** A traversal visits exactly the reachable commits, once each, children first;
    pages together visit all of history. */
module CommitTheorems {
  import opened Options
  import opened Strings
  import opened CommitGraph

  /** A chain of parent links through stored commits; none but the last is in `stopped`. */
  ghost predicate Path(store: Store, stopped: set<string>, p: seq<string>)
  {
    && p != [] && (forall i :: 0 <= i < |p| ==> p[i] in store)
    && (forall i :: 0 <= i < |p| - 1 ==> Link(store, stopped, p[i], p[i + 1]))
  }

  ghost predicate Link(store: Store, stopped: set<string>, child: string, parent: string)
  {
    child in store && child !in stopped && parent in Parents(store[child])
  }

  ghost predicate Reachable(store: Store, stopped: set<string>, from: string, to: string)
  {
    exists p :: Path(store, stopped, p) && p[0] == from && p[|p| - 1] == to
  }

  function Waiting(store: Store, next: Option<string>): seq<Commit>
    requires next.Some? ==> next.value in store
  {
    if next.Some? then [store[next.value]] else []
  }

  /** The state in which a traversal ends with at most one commit still waiting. */
  ghost predicate Ended(store: Store, head: string, visited: seq<string>, stopped: set<string>, next: Option<string>)
  {
    && (next.Some? ==> next.value in store)
    && exists seen ::
         State(store, head, Waiting(store, next), seen, visited, stopped) && Expanded(store, seen, visited, stopped)
  }

  /** Commits found while visiting `done`, or the head, and not visited themselves. */
  ghost function Pending(store: Store, head: string, done: seq<string>, stopped: set<string>): set<string>
  {
    set x | x in store && x !in done && (x == head || FoundBy(store, done, stopped, |done|, x))
  }

  /** How many commits of `done` the callback did not stop at. */
  ghost function Followed(done: seq<string>, stopped: set<string>): nat
  {
    if done == [] then 0
    else Followed(done[..|done| - 1], stopped) + if done[|done| - 1] in stopped then 0 else 1
  }

  /** A page of at least `limit` commits may end here: no unmerged branch is pending. */
  ghost predicate MayEnd(store: Store, head: string, limit: int, done: seq<string>, stopped: set<string>)
  {
    && limit > 0 && done != [] && done[|done| - 1] !in stopped
    && Followed(done, stopped) >= limit && |Pending(store, head, done, stopped)| <= 1
  }

  /** A page of `n` or more commits did not end too late: it could not have ended before. */
  ghost predicate NoEndBefore(store: Store, head: string, limit: int, visited: seq<string>, stopped: set<string>,
                              n: nat)
    requires n <= |visited| + 1
  {
    forall i :: 0 < i < n ==> !MayEnd(store, head, limit, visited[..i], stopped)
  }

  // --------------------------------------------------------- what is visited

  lemma Snoc(store: Store, stopped: set<string>, p: seq<string>, x: string)
    requires Path(store, stopped, p) && x in store && Link(store, stopped, p[|p| - 1], x)
    ensures Path(store, stopped, p + [x])
  {
  }

  lemma ReachableSnoc(store: Store, stopped: set<string>, from: string, via: string, to: string)
    requires Reachable(store, stopped, from, via) && to in store && Link(store, stopped, via, to)
    ensures Reachable(store, stopped, from, to)
  {
    var p :| Path(store, stopped, p) && p[0] == from && p[|p| - 1] == via;
    Snoc(store, stopped, p, to);
    assert (p + [to])[0] == from && (p + [to])[|p|] == to;
  }

  lemma ReachableSelf(store: Store, stopped: set<string>, x: string)
    requires x in store
    ensures Reachable(store, stopped, x, x)
  {
    assert Path(store, stopped, [x]);
  }

  lemma {:induction false} VisitedReachable(store: Store, head: string, list: seq<Commit>, seen: set<string>,
                                            visited: seq<string>, stopped: set<string>, i: nat)
    requires WalkInv(store, head, list, seen, visited, stopped) && i < |visited|
    ensures Reachable(store, stopped, head, visited[i])
  {
    if i == 0 {
      ReachableSelf(store, stopped, head);
    } else {
      var j :| 0 <= j < i && visited[j] !in stopped && visited[j] in store && visited[i] in Parents(store[visited[j]]);
      VisitedReachable(store, head, list, seen, visited, stopped, j);
      ReachableSnoc(store, stopped, head, visited[j], visited[i]);
    }
  }

  lemma WaitingReachable(store: Store, head: string, list: seq<Commit>, seen: set<string>, visited: seq<string>,
                         stopped: set<string>, x: string)
    requires WalkInv(store, head, list, seen, visited, stopped) && x in Ids(list)
    ensures Reachable(store, stopped, head, x)
  {
    assert x in store by { var i :| 0 <= i < |list| && Ids(list)[i] == x; assert list[i].id in seen; }
    if x == head {
      ReachableSelf(store, stopped, head);
    } else {
      var n := |visited|;
      var j :| 0 <= j < n && visited[j] !in stopped && visited[j] in store && x in Parents(store[visited[j]]);
      VisitedReachable(store, head, list, seen, visited, stopped, j);
      ReachableSnoc(store, stopped, head, visited[j], x);
    }
  }

  /** Along a path that starts at a visited commit, the first unvisited one is waiting. */
  lemma {:induction false} FirstUnvisited(store: Store, head: string, list: seq<Commit>, seen: set<string>,
                                          visited: seq<string>,
                                          stopped: set<string>, p: seq<string>) returns (k: nat)
    requires WalkInv(store, head, list, seen, visited, stopped) && Expanded(store, seen, visited, stopped)
    requires Path(store, stopped, p) && p[0] in seen && p[|p| - 1] !in visited
    ensures k < |p| && p[k] in Ids(list)
    decreases |p|
  {
    if p[0] !in visited {
      k := 0;
    } else {
      assert Link(store, stopped, p[0], p[1]);
      var q := p[1..];
      assert Path(store, stopped, q) by {
        forall i | 0 <= i < |q| - 1 ensures Link(store, stopped, q[i], q[i + 1]) {
          assert q[i] == p[i + 1] && q[i + 1] == p[i + 2];
        }
      }
      assert p[1] in seen;
      var k' := FirstUnvisited(store, head, list, seen, visited, stopped, q);
      k := k' + 1;
    }
  }

  lemma SuffixPath(store: Store, stopped: set<string>, p: seq<string>, k: nat)
    requires Path(store, stopped, p) && k < |p|
    ensures Path(store, stopped, p[k..])
  {
  }

  lemma ReachesWaiting(store: Store, head: string, list: seq<Commit>, seen: set<string>, visited: seq<string>,
                       stopped: set<string>, c: string) returns (x: string)
    requires WalkInv(store, head, list, seen, visited, stopped) && Expanded(store, seen, visited, stopped)
    requires Reachable(store, stopped, head, c) && c !in visited
    ensures x in Ids(list) && Reachable(store, stopped, x, c)
  {
    var p :| Path(store, stopped, p) && p[0] == head && p[|p| - 1] == c;
    var k := FirstUnvisited(store, head, list, seen, visited, stopped, p);
    SuffixPath(store, stopped, p, k);
    x := p[k];
    assert p[k..][0] == x && p[k..][|p[k..]| - 1] == c;
  }

  lemma VisitedIsReachable(store: Store, head: string, list: seq<Commit>, seen: set<string>, visited: seq<string>,
                           stopped: set<string>, c: string)
    requires WalkInv(store, head, list, seen, visited, stopped) && c in visited
    ensures Reachable(store, stopped, head, c)
  {
    var i :| 0 <= i < |visited| && visited[i] == c;
    VisitedReachable(store, head, list, seen, visited, stopped, i);
  }

  lemma WaitingIds(store: Store, next: Option<string>)
    requires WfStore(store) && (next.Some? ==> next.value in store)
    ensures Ids(Waiting(store, next)) == if next.Some? then [next.value] else []
  {
  }

  /** A page is complete: what is reachable from its head has been visited or is
      reachable from the one commit the next page starts at. */
  lemma PageComplete(store: Store, head: string, visited: seq<string>, stopped: set<string>, next: Option<string>,
                     c: string)
    requires WfStore(store) && Ended(store, head, visited, stopped, next)
    ensures Reachable(store, stopped, head, c) ==>
              c in visited || (next.Some? && Reachable(store, stopped, next.value, c))
    ensures c in visited ==> Reachable(store, stopped, head, c)
    ensures next.Some? ==> next.value !in visited && Reachable(store, stopped, head, next.value)
    ensures Distinct(visited)
  {
    var list := Waiting(store, next);
    var seen :| State(store, head, list, seen, visited, stopped) && Expanded(store, seen, visited, stopped);
    WaitingIds(store, next);
    if next.Some? {
      assert next.value in Ids(list);
      WaitingReachable(store, head, list, seen, visited, stopped, next.value);
    }
    if c in visited {
      VisitedIsReachable(store, head, list, seen, visited, stopped, c);
    } else if Reachable(store, stopped, head, c) {
      var x := ReachesWaiting(store, head, list, seen, visited, stopped, c);
    }
  }

  /** A full traversal that reports success visited exactly the commits reachable
      without going through one the callback stopped at, each once. */
  lemma TraversalExact(store: Store, head: string, visited: seq<string>, stopped: set<string>, c: string)
    requires WfStore(store) && Ended(store, head, visited, stopped, None)
    ensures c in visited <==> Reachable(store, stopped, head, c)
    ensures Distinct(visited)
  {
    PageComplete(store, head, visited, stopped, None, c);
  }

  // ------------------------------------------------------------------ order

  /** With strictly older parents every commit is visited after its children. */
  lemma ChildrenFirst(store: Store, head: string, visited: seq<string>, stopped: set<string>, next: Option<string>,
                      i: nat, j: nat)
    requires Chronological(store) && Ended(store, head, visited, stopped, next)
    requires i < |visited| && j < |visited| && visited[i] in store && visited[j] in store
    requires visited[j] in Parents(store[visited[i]])
    ensures i < j
  {
    var seen :|
      State(store, head, Waiting(store, next), seen, visited, stopped) && Expanded(store, seen, visited, stopped);
    assert TimeInv(store, Waiting(store, next), visited);
    assert store[visited[j]].ctime < store[visited[i]].ctime;
  }

  lemma {:induction false} PathAges(store: Store, stopped: set<string>, p: seq<string>)
    requires Chronological(store) && Path(store, stopped, p)
    ensures store[p[|p| - 1]].ctime <= store[p[0]].ctime
    ensures |p| > 1 ==> store[p[|p| - 1]].ctime < store[p[0]].ctime
    decreases |p|
  {
    if |p| > 1 {
      SuffixPath(store, stopped, p, 1);
      PathAges(store, stopped, p[1..]);
      assert Link(store, stopped, p[0], p[1]);
      assert p[1..][|p[1..]| - 1] == p[|p| - 1];
    }
  }

  lemma JoinPaths(store: Store, stopped: set<string>, p: seq<string>, q: seq<string>) returns (r: seq<string>)
    requires Path(store, stopped, p) && Path(store, stopped, q) && p[|p| - 1] == q[0]
    ensures Path(store, stopped, r) && r[0] == p[0] && r[|r| - 1] == q[|q| - 1] && |r| == |p| + |q| - 1
  {
    r := p + q[1..];
    forall i | 0 <= i < |r| - 1 ensures Link(store, stopped, r[i], r[i + 1]) {
      if i < |p| - 1 {
        assert r[i] == p[i] && r[i + 1] == p[i + 1];
      } else {
        var m := i - (|p| - 1);
        assert r[i] == q[m] && r[i + 1] == q[m + 1];
      }
    }
  }

  lemma ReachableTrans(store: Store, stopped: set<string>, a: string, b: string, c: string)
    requires Reachable(store, stopped, a, b) && Reachable(store, stopped, b, c)
    ensures Reachable(store, stopped, a, c)
  {
    var p :| Path(store, stopped, p) && p[0] == a && p[|p| - 1] == b;
    var q :| Path(store, stopped, q) && q[0] == b && q[|q| - 1] == c;
    var r := JoinPaths(store, stopped, p, q);
  }

  /** With strictly older parents nothing a page visited is reachable from its
      continuation, so the next pages do not visit it again. */
  lemma PageDisjoint(store: Store, head: string, visited: seq<string>, stopped: set<string>, cut: set<string>,
                     next: string, c: string)
    requires WfStore(store) && Chronological(store) && Ended(store, head, visited, stopped, Some(next)) && c in visited
    ensures !Reachable(store, cut, next, c)
  {
    PageComplete(store, head, visited, stopped, Some(next), c);
    var list := Waiting(store, Some(next));
    var seen :| State(store, head, list, seen, visited, stopped) && Expanded(store, seen, visited, stopped);
    assert TimeInv(store, list, visited);
    var i :| 0 <= i < |visited| && visited[i] == c;
    assert list[0] in list && store[c].ctime >= store[next].ctime;
    if Reachable(store, cut, next, c) {
      var p :| Path(store, cut, p) && p[0] == next && p[|p| - 1] == c;
      PathAges(store, cut, p);
    }
  }
}
