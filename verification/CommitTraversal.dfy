/** The traversals as they run: a list sorted by time, a hash of seen ids, a count. */
module CommitTraversal {
  import opened Options
  import opened Strings
  import opened CommitGraph
  import opened CommitTheorems

  /** insert_parent_commit */
  method InsertParent(store: Store, listIn: seq<Commit>, seenIn: set<string>, parent: string, allowTruncate: bool)
    returns (ok: bool, list: seq<Commit>, seen: set<string>)
    ensures ok <==> parent in seenIn + store.Keys || allowTruncate
    ensures seen == seenIn + ({parent} * store.Keys)
    ensures list == if parent in seen - seenIn then InsertSorted(listIn, store[parent]) else listIn
  {
    list, seen := listIn, seenIn;
    if parent in seen {
      return true, list, seen;
    }
    if parent !in store {
      if allowTruncate {
        return true, list, seen;
      }
      return false, list, seen;
    }
    list := InsertSorted(list, store[parent]);
    seen := seen + {parent};
    ok := true;
  }

  /** Work left: unseen commits count double, as seeing one puts it on the list. */
  ghost function Todo(store: Store, list: seq<Commit>, seen: set<string>): nat
  {
    2 * |store.Keys - seen| + |list|
  }

  lemma InsertTodo(store: Store, list: seq<Commit>, seen: set<string>, q: string)
    requires q in store && q !in seen
    ensures Todo(store, InsertSorted(list, store[q]), seen + {q}) < Todo(store, list, seen)
  {
    assert store.Keys - seen == (store.Keys - (seen + {q})) + {q};
    assert |InsertSorted(list, store[q])| == |multiset(InsertSorted(list, store[q]))| == |list| + 1;
  }

  lemma InsertState(store: Store, head: string, list: seq<Commit>, seen: set<string>, visited: seq<string>,
                    stopped: set<string>, q: string)
    requires WfStore(store) && State(store, head, list, seen, visited, stopped)
    requires visited != [] && q in store && q !in seen
    requires visited[|visited| - 1] !in stopped && q in Parents(store[visited[|visited| - 1]])
    ensures State(store, head, InsertSorted(list, store[q]), seen + {q}, visited, stopped)
  {
    InsertInv(store, head, list, seen, visited, stopped, q);
    forall c | c in list ensures c.id in store && store[c.id] == c {
      var i :| 0 <= i < |list| && list[i] == c;
    }
    if Near(store) { InsertNear(store, list, q); }
    if Chronological(store) { InsertTime(store, list, visited, q); }
  }

  /** Follow one parent link of the commit just visited. */
  method FollowParent(store: Store, ghost head: string, listIn: seq<Commit>, seenIn: set<string>,
                      ghost visited: seq<string>, ghost stopped: set<string>, parent: Option<string>,
                      allowTruncate: bool)
    returns (ok: bool, list: seq<Commit>, seen: set<string>)
    requires WfStore(store) && State(store, head, listIn, seenIn, visited, stopped)
    requires visited != [] && visited[|visited| - 1] !in stopped
    requires parent.Some? ==> parent.value in Parents(store[visited[|visited| - 1]])
    ensures State(store, head, list, seen, visited, stopped) && seenIn <= seen
    ensures parent.Some? && parent.value in store ==> parent.value in seen
    ensures Todo(store, list, seen) <= Todo(store, listIn, seenIn)
    ensures ok <==> allowTruncate || parent.None? || parent.value in store
  {
    ok, list, seen := true, listIn, seenIn;
    if parent.Some? {
      ok, list, seen := InsertParent(store, list, seen, parent.value, allowTruncate);
      if parent.value in store && parent.value !in seenIn {
        InsertState(store, head, listIn, seenIn, visited, stopped, parent.value);
        InsertTodo(store, listIn, seenIn, parent.value);
      }
    }
  }

  lemma PopState(store: Store, head: string, list: seq<Commit>, seen: set<string>, visited: seq<string>,
                 stopped: set<string>, stop: bool)
    requires State(store, head, list, seen, visited, stopped) && list != []
    ensures State(store, head, list[1..], seen, visited + [list[0].id],
                  if stop then stopped + {list[0].id} else stopped)
    ensures Todo(store, list[1..], seen) < Todo(store, list, seen)
  {
    PopInv(store, head, list, seen, visited, stopped, stop);
    if Chronological(store) { PopTime(store, list, visited); }
  }

  lemma ExpandedStep(store: Store, seen: set<string>, seen': set<string>, visited: seq<string>, stopped: set<string>,
                     c: string)
    requires Expanded(store, seen, visited, stopped) && seen <= seen' && c !in stopped && c in store
    requires forall q :: q in Parents(store[c]) && q in store ==> q in seen'
    ensures Expanded(store, seen', visited + [c], stopped)
  {
  }

  lemma ExpandedStop(store: Store, seen: set<string>, visited: seq<string>, stopped: set<string>, c: string)
    requires Expanded(store, seen, visited, stopped)
    ensures Expanded(store, seen, visited + [c], stopped + {c})
  {
  }

  /** Parents of every visited commit that was followed exist. */
  ghost predicate AllPresent(store: Store, visited: seq<string>, stopped: set<string>)
  {
    forall v :: v in visited && v !in stopped && v in store ==> Parents(store[v]) <= store.Keys
  }

  /** Exactly the visited commits at which the callback said stop. */
  ghost predicate StopsOf(store: Store, visitor: Visitor, visited: seq<string>, stopped: set<string>)
  {
    forall x :: x in stopped <==>
      exists i :: 0 <= i < |visited| && visited[i] == x && x in store && visitor(visited[..i], store[x]).stop
  }

  ghost predicate NeverStops(visitor: Visitor)
  {
    forall past, c :: !visitor(past, c).stop
  }

  ghost predicate NeverFails(visitor: Visitor)
  {
    forall past, c :: visitor(past, c).ok
  }

  /** The callback succeeded on every visited commit. */
  ghost predicate AllAnswered(store: Store, visitor: Visitor, visited: seq<string>)
  {
    forall i :: 0 <= i < |visited| ==> visited[i] in store && visitor(visited[..i], store[visited[i]]).ok
  }

  lemma AnsweredStep(store: Store, visitor: Visitor, visited: seq<string>, c: string)
    requires AllAnswered(store, visitor, visited) && c in store && visitor(visited, store[c]).ok
    ensures AllAnswered(store, visitor, visited + [c])
  {
    var v' := visited + [c];
    forall i | 0 <= i < |v'| ensures v'[i] in store && visitor(v'[..i], store[v'[i]]).ok {
      assert v'[..i] == visited[..i];
      if i == |visited| { assert v'[..i] == visited; }
    }
  }

  /** The last visited commit is one the callback failed on, or one that it did not stop at
      and that has a missing parent where that is an error. */
  ghost predicate FailsAt(store: Store, visitor: Visitor, visited: seq<string>, allowTruncate: bool)
  {
    && visited != []
    && var n := |visited| - 1;
       && visited[n] in store
       && var c := store[visited[n]];
          || !visitor(visited[..n], c).ok
          || (!visitor(visited[..n], c).stop && !allowTruncate && !(Parents(c) <= store.Keys))
  }

  lemma FailsIff(store: Store, visitor: Visitor, visited: seq<string>, c: Commit, allowTruncate: bool)
    requires c.id in store && store[c.id] == c
    ensures (visited + [c.id])[..|visited|] == visited
    ensures FailsAt(store, visitor, visited + [c.id], allowTruncate) <==>
            !visitor(visited, c).ok || (!visitor(visited, c).stop && !allowTruncate && !(Parents(c) <= store.Keys))
  {
  }

  /** Every parent of a stored commit is stored. */
  ghost predicate NoneMissing(store: Store)
  {
    forall k :: k in store ==> Parents(store[k]) <= store.Keys
  }

  lemma NoStops(store: Store, visitor: Visitor, visited: seq<string>, stopped: set<string>)
    requires StopsOf(store, visitor, visited, stopped) && NeverStops(visitor)
    ensures stopped == {}
  {
  }

  lemma StopsStep(store: Store, visitor: Visitor, visited: seq<string>, stopped: set<string>, c: string)
    requires StopsOf(store, visitor, visited, stopped) && c in store
    ensures StopsOf(store, visitor, visited + [c], if visitor(visited, store[c]).stop then stopped + {c} else stopped)
  {
    var v' := visited + [c];
    var st' := if visitor(visited, store[c]).stop then stopped + {c} else stopped;
    assert forall i :: 0 <= i <= |visited| ==> v'[..i] == visited[..i];
    assert visited[..|visited|] == visited;
    forall x ensures x in st' <==>
      exists i :: 0 <= i < |v'| && v'[i] == x && x in store && visitor(v'[..i], store[x]).stop
    {
      if x in stopped {
        var i :| 0 <= i < |visited| && visited[i] == x && x in store && visitor(visited[..i], store[x]).stop;
        assert v'[i] == x && v'[..i] == visited[..i];
      } else if x in st' {
        assert v'[|visited|] == x && v'[..|visited|] == visited;
      }
      if i :| 0 <= i < |v'| && v'[i] == x && x in store && visitor(v'[..i], store[x]).stop {
        assert v'[..i] == visited[..i];
      }
    }
  }

  lemma TwoParents(store: Store, c: Commit, seen: set<string>)
    ensures (c.parent.Some? && c.parent.value in store ==> c.parent.value in seen) &&
            (c.second.Some? && c.second.value in store ==> c.second.value in seen) <==>
            forall q :: q in Parents(c) && q in store ==> q in seen
    ensures (c.parent.Some? ==> c.parent.value in store) && (c.second.Some? ==> c.second.value in store) <==>
            Parents(c) <= store.Keys
  {
  }

  /** Follow both parent links of the commit just visited. */
  method FollowParents(store: Store, ghost head: string, listIn: seq<Commit>, seenIn: set<string>,
                       ghost visited: seq<string>,
                       ghost stopped: set<string>, commit: Commit, skipErrors: bool, allowTruncate: bool)
    returns (fail: bool, list: seq<Commit>, seen: set<string>)
    requires WfStore(store) && State(store, head, listIn, seenIn, visited, stopped)
    requires visited != [] && visited[|visited| - 1] == commit.id && commit.id !in stopped
    requires commit.id in store && store[commit.id] == commit
    ensures fail ==> !skipErrors && !allowTruncate && !(Parents(commit) <= store.Keys)
    ensures !fail ==>
      && State(store, head, list, seen, visited, stopped) && seenIn <= seen
      && (forall q :: q in Parents(commit) && q in store ==> q in seen)
      && Todo(store, list, seen) <= Todo(store, listIn, seenIn)
      && (!skipErrors && !allowTruncate ==> Parents(commit) <= store.Keys)
  {
    var ok;
    ok, list, seen := FollowParent(store, head, listIn, seenIn, visited, stopped, commit.parent, allowTruncate);
    fail := !ok && !skipErrors;
    if !fail {
      ok, list, seen := FollowParent(store, head, list, seen, visited, stopped, commit.second, allowTruncate);
      fail := !ok && !skipErrors;
    }
    TwoParents(store, commit, seen);
  }

  /** What both traversal loops maintain. */
  ghost predicate Walking(store: Store, head: string, visitor: Visitor, skipErrors: bool, allowTruncate: bool,
                          list: seq<Commit>, seen: set<string>, visited: seq<string>, stopped: set<string>)
  {
    && State(store, head, list, seen, visited, stopped) && Expanded(store, seen, visited, stopped)
    && StopsOf(store, visitor, visited, stopped) && Checked(store, visitor, skipErrors, allowTruncate, visited, stopped)
    && NewestFirst(store, head, visited, stopped)
  }

  /** Every commit is visited when nothing that is pending then is newer. */
  ghost predicate NewestFirst(store: Store, head: string, visited: seq<string>, stopped: set<string>)
  {
    Near(store) ==>
      forall i, x :: 0 <= i < |visited| && visited[i] in store && x in Pending(store, head, visited[..i], stopped) ==>
        store[x].ctime <= store[visited[i]].ctime
  }

  lemma NewestStep(store: Store, head: string, list: seq<Commit>, seen: set<string>, visited: seq<string>,
                   stopped: set<string>, stop: bool)
    requires State(store, head, list, seen, visited, stopped) && Expanded(store, seen, visited, stopped)
    requires NewestFirst(store, head, visited, stopped) && list != [] && list[0].id !in visited
    ensures NewestFirst(store, head, visited + [list[0].id], if stop then stopped + {list[0].id} else stopped)
  {
    if Near(store) {
      var c := list[0].id;
      var v', st' := visited + [c], if stop then stopped + {c} else stopped;
      forall i, x | 0 <= i < |v'| && v'[i] in store && x in Pending(store, head, v'[..i], st')
        ensures store[x].ctime <= store[v'[i]].ctime
      {
        assert v'[..i] == visited[..i];
        PendingStable(store, head, visited[..i], stopped, c);
        if i == |visited| {
          assert visited[..i] == visited;
          PendingIff(store, head, list, seen, visited, stopped, x);
          var j :| 0 <= j < |list| && Ids(list)[j] == x;
        }
      }
    }
  }

  /** When errors count: no callback failed, and no parent is missing unless that is allowed. */
  ghost predicate Checked(store: Store, visitor: Visitor, skipErrors: bool, allowTruncate: bool,
                          visited: seq<string>, stopped: set<string>)
  {
    !skipErrors ==>
      AllAnswered(store, visitor, visited) && (!allowTruncate ==> AllPresent(store, visited, stopped))
  }

  lemma CheckedStep(store: Store, visitor: Visitor, skipErrors: bool, allowTruncate: bool,
                    visited: seq<string>, stopped: set<string>, c: Commit)
    requires Checked(store, visitor, skipErrors, allowTruncate, visited, stopped)
    requires c.id in store && store[c.id] == c && c.id !in stopped
    requires !skipErrors ==> visitor(visited, c).ok
    requires !skipErrors && !allowTruncate && !visitor(visited, c).stop ==> Parents(c) <= store.Keys
    ensures Checked(store, visitor, skipErrors, allowTruncate, visited + [c.id],
                    if visitor(visited, c).stop then stopped + {c.id} else stopped)
  {
    if !skipErrors { AnsweredStep(store, visitor, visited, c.id); }
  }

  lemma StartWalking(store: Store, head: string, visitor: Visitor, skipErrors: bool, allowTruncate: bool)
    requires WfStore(store) && head in store
    ensures Walking(store, head, visitor, skipErrors, allowTruncate, [store[head]], {head}, [], {})
  {
  }

  lemma StepWalking(store: Store, head: string, visitor: Visitor, skipErrors: bool, allowTruncate: bool,
                    list: seq<Commit>, seen: set<string>, visited: seq<string>, stopped: set<string>,
                    c: Commit, seenBefore: set<string>)
    requires StopsOf(store, visitor, visited, stopped) && Expanded(store, seenBefore, visited, stopped)
    requires Checked(store, visitor, skipErrors, allowTruncate, visited, stopped)
    requires c.id in store && store[c.id] == c && c.id !in stopped && seenBefore <= seen
    requires !skipErrors ==> visitor(visited, c).ok
    requires NewestFirst(store, head, visited + [c.id], if visitor(visited, c).stop then stopped + {c.id} else stopped)
    requires var stop := visitor(visited, c).stop;
             && State(store, head, list, seen, visited + [c.id], if stop then stopped + {c.id} else stopped)
             && (!stop ==> forall q :: q in Parents(c) && q in store ==> q in seen)
             && (!stop && !skipErrors && !allowTruncate ==> Parents(c) <= store.Keys)
    ensures Walking(store, head, visitor, skipErrors, allowTruncate, list, seen, visited + [c.id],
                    if visitor(visited, c).stop then stopped + {c.id} else stopped)
  {
    StopsStep(store, visitor, visited, stopped, c.id);
    CheckedStep(store, visitor, skipErrors, allowTruncate, visited, stopped, c);
    if visitor(visited, c).stop {
      assert Expanded(store, seen, visited, stopped);
      ExpandedStop(store, seen, visited, stopped, c.id);
    } else {
      ExpandedStep(store, seenBefore, seen, visited, stopped, c.id);
    }
  }

  /** One round of either traversal: visit the newest waiting commit and, unless the
      callback says stop, put its unseen parents on the list. */
  method VisitNext(store: Store, ghost head: string, listIn: seq<Commit>, seenIn: set<string>, visitedIn: seq<string>,
                   ghost stoppedIn: set<string>, visitor: Visitor, skipErrors: bool, allowTruncate: bool)
    returns (fail: bool, stop: bool, list: seq<Commit>, seen: set<string>, visited: seq<string>,
             ghost stopped: set<string>)
    requires WfStore(store) && listIn != []
    requires Walking(store, head, visitor, skipErrors, allowTruncate, listIn, seenIn, visitedIn, stoppedIn)
    ensures visited == visitedIn + [listIn[0].id] && stop == visitor(visitedIn, listIn[0]).stop
    ensures !fail ==> stopped == if stop then stoppedIn + {listIn[0].id} else stoppedIn
    ensures fail <==> !skipErrors && FailsAt(store, visitor, visited, allowTruncate)
    ensures fail ==> AllAnswered(store, visitor, visited[..|visited| - 1])
    ensures !fail ==> Walking(store, head, visitor, skipErrors, allowTruncate, list, seen, visited, stopped)
    ensures !fail ==> Todo(store, list, seen) < Todo(store, listIn, seenIn)
  {
    var commit := listIn[0];
    var answer := visitor(visitedIn, commit);
    stop, visited, stopped := answer.stop, visitedIn + [commit.id], stoppedIn;
    PopPlaced(store, head, listIn, seenIn, visitedIn);
    FailsIff(store, visitor, visitedIn, commit, allowTruncate);
    list, seen := listIn[1..], seenIn;
    if !answer.ok && !skipErrors {
      fail := true;
      return;
    }
    fail := false;
    PopState(store, head, listIn, seenIn, visitedIn, stoppedIn, answer.stop);
    NewestStep(store, head, listIn, seenIn, visitedIn, stoppedIn, answer.stop);
    if answer.stop {
      stopped := stopped + {commit.id};
    } else {
      fail, list, seen := FollowParents(store, head, list, seen, visited, stopped, commit, skipErrors, allowTruncate);
    }
    if !fail {
      StepWalking(store, head, visitor, skipErrors, allowTruncate, list, seen, visitedIn, stoppedIn,
                  commit, seenIn);
    }
  }

  /** With at most one commit waiting, the traversal has ended with that continuation. */
  lemma WalkingEnds(store: Store, head: string, visitor: Visitor, skipErrors: bool, allowTruncate: bool,
                    list: seq<Commit>, seen: set<string>, visited: seq<string>, stopped: set<string>)
    requires Walking(store, head, visitor, skipErrors, allowTruncate, list, seen, visited, stopped) && |list| <= 1
    ensures Ended(store, head, visited, stopped, if list == [] then None else Some(list[0].id))
  {
    var next := if list == [] then None else Some(list[0].id);
    assert list == Waiting(store, next);
  }

  /** traverse_commit_tree_common: what was visited, and where the callback said stop. */
  method Traverse(store: Store, head: string, visitor: Visitor, skipErrors: bool, allowTruncate: bool)
    returns (ret: bool, visited: seq<string>, ghost stopped: set<string>)
    requires WfStore(store)
    ensures head !in store ==> !ret && visited == []
    ensures head in store && skipErrors ==> ret
    ensures head in store && NeverFails(visitor) && (allowTruncate || NoneMissing(store)) ==> ret
    ensures ret ==> Ended(store, head, visited, stopped, None) && StopsOf(store, visitor, visited, stopped)
    ensures ret ==> Distinct(visited) && forall c :: c in visited <==> Reachable(store, stopped, head, c)
    ensures ret && !skipErrors && !allowTruncate ==> AllPresent(store, visited, stopped)
    ensures ret && !skipErrors ==> AllAnswered(store, visitor, visited)
    ensures ret ==> NewestFirst(store, head, visited, stopped)
    ensures head in store && !ret ==>
              && !skipErrors && FailsAt(store, visitor, visited, allowTruncate)
              && AllAnswered(store, visitor, visited[..|visited| - 1])
    ensures ret && NeverStops(visitor) ==> stopped == {}
  {
    visited, stopped := [], {};
    if head !in store {
      return false, visited, stopped;
    }
    var list: seq<Commit> := [store[head]];
    var hash := {head};
    StartWalking(store, head, visitor, skipErrors, allowTruncate);
    while list != []
      invariant Walking(store, head, visitor, skipErrors, allowTruncate, list, hash, visited, stopped)
      decreases Todo(store, list, hash)
    {
      var fail, stop;
      fail, stop, list, hash, visited, stopped :=
        VisitNext(store, head, list, hash, visited, stopped, visitor, skipErrors, allowTruncate);
      if fail {
        return false, visited, stopped;
      }
    }
    ret := true;
    WalkingEnds(store, head, visitor, skipErrors, allowTruncate, list, hash, visited, stopped);
    if NeverStops(visitor) { NoStops(store, visitor, visited, stopped); }
    forall c ensures c in visited <==> Reachable(store, stopped, head, c) {
      TraversalExact(store, head, visited, stopped, c);
    }
    TraversalExact(store, head, visited, stopped, head);
  }

  // ------------------------------------------------------------ where a page ends

  /** The work list is what is pending. */
  lemma PendingIsList(store: Store, head: string, list: seq<Commit>, seen: set<string>, visited: seq<string>,
                      stopped: set<string>)
    requires WalkInv(store, head, list, seen, visited, stopped) && Expanded(store, seen, visited, stopped)
    ensures |Pending(store, head, visited, stopped)| == |list|
  {
    var pending := Pending(store, head, visited, stopped);
    forall x ensures x in Ids(list) <==> x in pending {
      PendingIff(store, head, list, seen, visited, stopped, x);
    }
    DistinctSize(Ids(list), pending);
  }

  lemma PendingIff(store: Store, head: string, list: seq<Commit>, seen: set<string>, visited: seq<string>,
                   stopped: set<string>, x: string)
    requires WalkInv(store, head, list, seen, visited, stopped) && Expanded(store, seen, visited, stopped)
    ensures x in Ids(list) <==> x in Pending(store, head, visited, stopped)
  {
    if x in Ids(list) {
      var i :| 0 <= i < |list| && Ids(list)[i] == x;
      assert list[i].id in seen;
    }
    if x in Pending(store, head, visited, stopped) && x != head {
      var j :| 0 <= j < |visited| && visited[j] !in stopped && visited[j] in store && x in Parents(store[visited[j]]);
      assert x in seen;
    }
  }

  lemma {:induction false} FollowedStable(done: seq<string>, stopped: set<string>, c: string)
    requires c !in done
    ensures Followed(done, stopped + {c}) == Followed(done, stopped)
  {
    if done != [] { FollowedStable(done[..|done| - 1], stopped, c); }
  }

  lemma PendingStable(store: Store, head: string, done: seq<string>, stopped: set<string>, c: string)
    requires c !in done
    ensures Pending(store, head, done, stopped + {c}) == Pending(store, head, done, stopped)
  {
    forall x ensures FoundBy(store, done, stopped + {c}, |done|, x) <==> FoundBy(store, done, stopped, |done|, x) {
      assert forall j :: 0 <= j < |done| ==> done[j] != c;
    }
  }

  /** Visiting one more commit changes nothing about the ends before it. */
  lemma NoEndStep(store: Store, head: string, limit: int, visited: seq<string>, stopped: set<string>, c: string,
                  stops: bool)
    requires c !in visited && NoEndBefore(store, head, limit, visited, stopped, |visited| + 1)
    ensures NoEndBefore(store, head, limit, visited + [c], if stops then stopped + {c} else stopped, |visited| + 1)
  {
    forall i | 0 < i < |visited| + 1
      ensures !MayEnd(store, head, limit, (visited + [c])[..i], if stops then stopped + {c} else stopped)
    {
      assert (visited + [c])[..i] == visited[..i];
      FollowedStable(visited[..i], stopped, c);
      PendingStable(store, head, visited[..i], stopped, c);
    }
  }

  lemma FollowedStep(visited: seq<string>, stopped: set<string>, c: string, stops: bool)
    requires c !in visited && c !in stopped
    ensures Followed(visited + [c], if stops then stopped + {c} else stopped) ==
            Followed(visited, stopped) + if stops then 0 else 1
  {
    assert (visited + [c])[..|visited|] == visited;
    FollowedStable(visited, stopped, c);
  }

  /** After one more visit: whether the page may end now, and that it could not before. */
  lemma PageStep(store: Store, head: string, limit: int, list: seq<Commit>, seen: set<string>,
                 visited: seq<string>, stopped: set<string>, stop: bool)
    requires WalkInv(store, head, list, seen, visited, stopped) && list != []
    requires NoEndBefore(store, head, limit, visited, stopped, |visited| + 1)
    ensures var visited', stopped' := visited + [list[0].id], if stop then stopped + {list[0].id} else stopped;
            && NoEndBefore(store, head, limit, visited', stopped', |visited'|)
            && Followed(visited', stopped') == Followed(visited, stopped) + (if stop then 0 else 1)
            && (list[0].id in stopped' <==> stop)
  {
    PopPlaced(store, head, list, seen, visited);
    NoEndStep(store, head, limit, visited, stopped, list[0].id, stop);
    FollowedStep(visited, stopped, list[0].id, stop);
  }

  lemma EndIff(store: Store, head: string, limit: int, list: seq<Commit>, seen: set<string>,
               visited: seq<string>, stopped: set<string>, before: seq<string>)
    requires State(store, head, list, seen, visited, stopped) && Expanded(store, seen, visited, stopped)
    requires |visited| == |before| + 1 && NoEndBefore(store, head, limit, visited, stopped, |visited|)
    ensures MayEnd(store, head, limit, visited, stopped) <==>
      limit > 0 && visited[|before|] !in stopped && Followed(visited, stopped) >= limit && |list| <= 1
    ensures !MayEnd(store, head, limit, visited, stopped) ==>
              NoEndBefore(store, head, limit, visited, stopped, |visited| + 1)
  {
    PendingIsList(store, head, list, seen, visited, stopped);
    assert visited[..|visited|] == visited;
  }

  /** What one more visit makes of a page; `full` when it may end there. */
  ghost predicate PageState(store: Store, head: string, limit: int, visited: seq<string>, stopped: set<string>,
                            count: nat, full: bool)
  {
    && (limit > 0 ==> count == Followed(visited, stopped))
    && NoEndBefore(store, head, limit, visited, stopped, |visited|)
    && (full <==> MayEnd(store, head, limit, visited, stopped))
    && (!full ==> NoEndBefore(store, head, limit, visited, stopped, |visited| + 1))
  }

  lemma PageAfter(store: Store, head: string, limit: int, list: seq<Commit>, seen: set<string>, visited: seq<string>,
                  stopped: set<string>, count: nat, stop: bool, list': seq<Commit>, seen': set<string>)
    requires WalkInv(store, head, list, seen, visited, stopped) && list != []
    requires NoEndBefore(store, head, limit, visited, stopped, |visited| + 1)
    requires limit > 0 ==> count == Followed(visited, stopped)
    requires var visited', stopped' := visited + [list[0].id], if stop then stopped + {list[0].id} else stopped;
             State(store, head, list', seen', visited', stopped') && Expanded(store, seen', visited', stopped')
    ensures var visited', stopped' := visited + [list[0].id], if stop then stopped + {list[0].id} else stopped;
            var count' := if stop || limit <= 0 then count else count + 1;
            PageState(store, head, limit, visited', stopped', count',
                      !stop && limit > 0 && count' >= limit && |list'| <= 1)
  {
    PageStep(store, head, limit, list, seen, visited, stopped, stop);
    EndIff(store, head, limit, list', seen', visited + [list[0].id],
           if stop then stopped + {list[0].id} else stopped, visited);
  }

  /** One round of a page: visit the next commit, count it unless the callback stopped
      there, and see whether the page is full. */
  method PageNext(store: Store, ghost head: string, listIn: seq<Commit>, seenIn: set<string>, visitedIn: seq<string>,
                  ghost stoppedIn: set<string>, visitor: Visitor, skipErrors: bool, limit: int, countIn: nat)
    returns (fail: bool, full: bool, list: seq<Commit>, seen: set<string>, visited: seq<string>,
             ghost stopped: set<string>, count: nat)
    requires WfStore(store) && listIn != []
    requires Walking(store, head, visitor, skipErrors, false, listIn, seenIn, visitedIn, stoppedIn)
    requires limit > 0 ==> countIn == Followed(visitedIn, stoppedIn)
    requires NoEndBefore(store, head, limit, visitedIn, stoppedIn, |visitedIn| + 1)
    ensures fail <==> !skipErrors && FailsAt(store, visitor, visited, false)
    ensures fail ==> AllAnswered(store, visitor, visited[..|visited| - 1])
    ensures !fail ==>
      && Walking(store, head, visitor, skipErrors, false, list, seen, visited, stopped)
      && Todo(store, list, seen) < Todo(store, listIn, seenIn)
      && PageState(store, head, limit, visited, stopped, count, full) && (full ==> |list| <= 1)
  {
    var stop;
    count, full := countIn, false;
    fail, stop, list, seen, visited, stopped :=
      VisitNext(store, head, listIn, seenIn, visitedIn, stoppedIn, visitor, skipErrors, false);
    if fail {
      return;
    }
    PageAfter(store, head, limit, listIn, seenIn, visitedIn, stoppedIn, countIn, stop, list, seen);
    if stop {
      return;
    }
    if limit > 0 {
      count := count + 1;
      full := count >= limit && |list| <= 1;
    }
  }

  /** traverse_commit_tree_with_limit: a page and the commit the next page starts at. The
      page ends as soon as it has `limit` commits with at most one commit pending. */
  method TraverseWithLimit(store: Store, head: string, visitor: Visitor, limit: int, skipErrors: bool)
    returns (ret: bool, visited: seq<string>, next: Option<string>, ghost stopped: set<string>)
    requires WfStore(store)
    ensures head !in store ==> !ret && visited == []
    ensures head in store && skipErrors ==> ret
    ensures head in store && NeverFails(visitor) && NoneMissing(store) ==> ret
    ensures ret ==> Ended(store, head, visited, stopped, next) && StopsOf(store, visitor, visited, stopped)
    ensures ret && NeverStops(visitor) ==> Ended(store, head, visited, {}, next)
    ensures ret && next.Some? ==> MayEnd(store, head, limit, visited, stopped)
    ensures ret ==> NoEndBefore(store, head, limit, visited, stopped, |visited|)
    ensures ret && !skipErrors ==> AllPresent(store, visited, stopped) && AllAnswered(store, visitor, visited)
    ensures ret ==> NewestFirst(store, head, visited, stopped)
    ensures head in store && !ret ==>
              && !skipErrors && FailsAt(store, visitor, visited, false)
              && AllAnswered(store, visitor, visited[..|visited| - 1])
  {
    visited, next, stopped := [], None, {};
    if head !in store {
      return false, visited, next, stopped;
    }
    var list: seq<Commit> := [store[head]];
    var hash := {head};
    StartWalking(store, head, visitor, skipErrors, false);
    var count := 0;
    var full := false;
    while list != [] && !full
      invariant Walking(store, head, visitor, skipErrors, false, list, hash, visited, stopped)
      invariant limit > 0 ==> count == Followed(visited, stopped)
      invariant !full ==> NoEndBefore(store, head, limit, visited, stopped, |visited| + 1)
      invariant NoEndBefore(store, head, limit, visited, stopped, |visited|)
      invariant full ==> MayEnd(store, head, limit, visited, stopped) && |list| <= 1
      decreases Todo(store, list, hash)
    {
      var fail;
      fail, full, list, hash, visited, stopped, count :=
        PageNext(store, head, list, hash, visited, stopped, visitor, skipErrors, limit, count);
      if fail {
        return false, visited, next, stopped;
      }
    }
    ret := true;
    WalkingEnds(store, head, visitor, skipErrors, false, list, hash, visited, stopped);
    if NeverStops(visitor) { NoStops(store, visitor, visited, stopped); }
    if list != [] {
      next := Some(list[0].id);
    }
  }
}
