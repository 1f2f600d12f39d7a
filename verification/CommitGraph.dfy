/** Traversal of the commit graph, newest commit first, whole or page by page. */
module CommitGraph {
  import opened Options
  import opened Strings

  datatype Commit = Commit(id: string, ctime: nat, parent: Option<string>, second: Option<string>)

  type Store = map<string, Commit>

  ghost predicate WfStore(store: Store)
  {
    forall k :: k in store ==> store[k].id == k
  }

  /** The answer of the visiting callback; it may depend on everything visited so far. */
  datatype Answer = Answer(ok: bool, stop: bool)

  type Visitor = (seq<string>, Commit) -> Answer

  // -------------------------------------------------------------- the work list

  const TWO32 := 0x1_0000_0000

  /** Conversion of a 64-bit difference to a C int. */
  function ToInt(x: int): int
  {
    var m := x % TWO32;
    if m >= TWO32 / 2 then m - TWO32 else m
  }

  function CompareByTime(a: Commit, b: Commit): int
  {
    ToInt(b.ctime - a.ctime)
  }

  /** g_list_insert_sorted_with_data: before the first element that does not come earlier. */
  function InsertSorted(list: seq<Commit>, c: Commit): (r: seq<Commit>)
    ensures multiset(r) == multiset(list) + multiset{c}
  {
    if list == [] then [c]
    else if CompareByTime(c, list[0]) > 0 then
      assert list == [list[0]] + list[1..];
      [list[0]] + InsertSorted(list[1..], c)
    else [c] + list
  }

  function Ids(list: seq<Commit>): (ids: seq<string>)
    ensures |ids| == |list| && forall i :: 0 <= i < |list| ==> ids[i] == list[i].id
  {
    if list == [] then [] else [list[0].id] + Ids(list[1..])
  }

  function Parents(c: Commit): set<string>
  {
    (if c.parent.Some? then {c.parent.value} else {}) + (if c.second.Some? then {c.second.value} else {})
  }

  // ---------------------------------------------------------------- invariant

  /** `x` was put on the work list while visiting one of the first `n` commits. */
  ghost predicate FoundBy(store: Store, visited: seq<string>, stopped: set<string>, n: nat, x: string)
    requires n <= |visited|
  {
    exists j :: 0 <= j < n && visited[j] !in stopped && visited[j] in store && x in Parents(store[visited[j]])
  }

  /** `list` is waiting, `visited` is done, `seen` is both, and nothing is in twice. */
  ghost predicate Placed(store: Store, head: string, list: seq<Commit>, seen: set<string>, visited: seq<string>)
  {
    && head in seen && seen <= store.Keys
    && (forall i :: 0 <= i < |list| ==> list[i].id in seen && list[i] == store[list[i].id])
    && (forall i :: 0 <= i < |visited| ==> visited[i] in seen)
    && (forall x :: x in seen ==> x in visited || x in Ids(list))
    && Distinct(visited) && Distinct(Ids(list)) && (forall x :: x in visited ==> x !in Ids(list))
  }

  /** The head comes first and everything else was found while visiting. */
  ghost predicate Found(store: Store, head: string, list: seq<Commit>, visited: seq<string>, stopped: set<string>)
  {
    && (forall i :: 0 < i < |visited| ==> FoundBy(store, visited, stopped, i, visited[i]))
    && (forall x :: x in Ids(list) && x != head ==> FoundBy(store, visited, stopped, |visited|, x))
    && (visited != [] ==> visited[0] == head)
    && (visited == [] ==> forall x :: x in Ids(list) ==> x == head)
    && (forall x :: x in stopped ==> x in visited)
  }

  /** Where a traversal stands. */
  ghost predicate WalkInv(store: Store, head: string, list: seq<Commit>, seen: set<string>,
                          visited: seq<string>, stopped: set<string>)
  {
    Placed(store, head, list, seen, visited) && Found(store, head, list, visited, stopped)
  }

  /** Parents of the visited commits, those stopped at excepted, have been seen. */
  ghost predicate Expanded(store: Store, seen: set<string>, visited: seq<string>, stopped: set<string>)
  {
    forall v, q :: v in visited && v !in stopped && v in store && q in Parents(store[v]) && q in store ==> q in seen
  }

  ghost predicate Sorted(list: seq<Commit>)
  {
    forall i, j :: 0 <= i < j < |list| ==> list[i].ctime >= list[j].ctime
  }

  /** Visited commits never get newer, and nothing waiting is newer than any of them. */
  ghost predicate TimeInv(store: Store, list: seq<Commit>, visited: seq<string>)
  {
    && Sorted(list)
    && (forall i :: 0 <= i < |visited| ==> visited[i] in store)
    && (forall i, j :: 0 <= i < j < |visited| ==> store[visited[i]].ctime >= store[visited[j]].ctime)
    && (forall i, c :: 0 <= i < |visited| && c in list ==> store[visited[i]].ctime >= c.ctime)
  }

  /** All times lie within 2^31 of one another. */
  ghost predicate Near(store: Store)
  {
    forall k, l :: k in store && l in store ==> -(TWO32 / 2) < store[k].ctime - store[l].ctime < TWO32 / 2
  }

  /** Parents are strictly older, and times are near. */
  ghost predicate Chronological(store: Store)
  {
    && (forall k, q :: k in store && q in Parents(store[k]) && q in store ==> store[q].ctime < store[k].ctime)
    && Near(store)
  }

  lemma CompareExact(a: Commit, b: Commit)
    requires -(TWO32 / 2) < b.ctime - a.ctime < TWO32 / 2
    ensures CompareByTime(a, b) == b.ctime - a.ctime
  {
  }

  lemma {:induction false} InsertSortedSorted(list: seq<Commit>, c: Commit)
    requires Sorted(list) && forall d :: d in list ==> -(TWO32 / 2) < d.ctime - c.ctime < TWO32 / 2
    ensures Sorted(InsertSorted(list, c))
  {
    if list != [] {
      CompareExact(c, list[0]);
      if CompareByTime(c, list[0]) > 0 {
        InsertSortedSorted(list[1..], c);
        var r := InsertSorted(list[1..], c);
        forall d | d in r ensures list[0].ctime >= d.ctime {
          assert d in multiset(r);
          if d != c { assert d in list[1..]; }
        }
      }
    }
  }

  lemma PlaceCons(list: seq<Commit>, c: Commit, i: nat)
    requires list != [] && i < |list|
    ensures [list[0]] + (list[1..][..i] + [c] + list[1..][i..]) == list[..i + 1] + [c] + list[i + 1..]
  {
  }

  /** A commit goes behind the strictly newer ones and before one of the same time. */
  lemma {:induction false} InsertPlace(list: seq<Commit>, c: Commit) returns (i: nat)
    requires forall d :: d in list ==> -(TWO32 / 2) < d.ctime - c.ctime < TWO32 / 2
    ensures i <= |list| && InsertSorted(list, c) == list[..i] + [c] + list[i..]
    ensures (forall j :: 0 <= j < i ==> list[j].ctime > c.ctime) && (i < |list| ==> list[i].ctime <= c.ctime)
  {
    i := 0;
    if list != [] {
      CompareExact(c, list[0]);
      if CompareByTime(c, list[0]) > 0 {
        i := InsertPlace(list[1..], c);
        PlaceCons(list, c, i);
        i := i + 1;
      }
    }
  }

  lemma InsertMembers(list: seq<Commit>, c: Commit)
    ensures forall d :: d in InsertSorted(list, c) <==> d in list || d == c
  {
    forall d ensures d in InsertSorted(list, c) <==> d in list || d == c {
      assert d in InsertSorted(list, c) <==> d in multiset(InsertSorted(list, c));
    }
  }

  lemma InIds(list: seq<Commit>, x: string)
    ensures x in Ids(list) <==> exists c :: c in list && c.id == x
  {
  }

  lemma {:induction false} InsertDistinct(list: seq<Commit>, c: Commit)
    requires Distinct(Ids(list)) && c.id !in Ids(list)
    ensures Distinct(Ids(InsertSorted(list, c)))
  {
    if list != [] && CompareByTime(c, list[0]) > 0 {
      var r := InsertSorted(list[1..], c);
      DistinctTail(list);
      TailIds(list);
      InsertDistinct(list[1..], c);
      InsertIds(list[1..], c, list[0].id);
      DistinctCons(list[0], r);
    } else {
      DistinctCons(c, list);
    }
  }

  lemma InsertIds(list: seq<Commit>, c: Commit, x: string)
    ensures x in Ids(InsertSorted(list, c)) <==> x in Ids(list) || x == c.id
  {
    InsertMembers(list, c);
    InIds(list, x);
    InIds(InsertSorted(list, c), x);
  }

  lemma DistinctCons(c: Commit, list: seq<Commit>)
    requires Distinct(Ids(list)) && c.id !in Ids(list)
    ensures Distinct(Ids([c] + list))
  {
  }

  // ------------------------------------------------------------- one round

  lemma TailIds(list: seq<Commit>)
    requires list != []
    ensures Ids(list) == [list[0].id] + Ids(list[1..])
  {
  }

  lemma FoundByStays(store: Store, visited: seq<string>, stopped: set<string>, n: nat, x: string, c: string, stop: bool)
    requires n <= |visited| && FoundBy(store, visited, stopped, n, x) && c !in visited
    ensures FoundBy(store, visited + [c], if stop then stopped + {c} else stopped, n, x)
  {
    var j :| 0 <= j < n && visited[j] !in stopped && visited[j] in store && x in Parents(store[visited[j]]);
    assert (visited + [c])[j] == visited[j] && visited[j] in visited;
  }

  lemma DistinctTail(list: seq<Commit>)
    requires list != [] && Distinct(Ids(list))
    ensures list[0].id !in Ids(list[1..]) && Distinct(Ids(list[1..]))
  {
  }

  lemma PopPlaced(store: Store, head: string, list: seq<Commit>, seen: set<string>, visited: seq<string>)
    requires Placed(store, head, list, seen, visited) && list != []
    ensures Placed(store, head, list[1..], seen, visited + [list[0].id])
    ensures list[0].id !in visited
  {
    var c := list[0].id;
    TailIds(list);
    DistinctTail(list);
    assert c in Ids(list);
    assert forall x :: x in Ids(list) <==> x == c || x in Ids(list[1..]);
    assert forall i :: 0 <= i < |list[1..]| ==> list[1..][i] == list[i + 1];
  }

  lemma PopFound(store: Store, head: string, list: seq<Commit>, visited: seq<string>, stopped: set<string>, stop: bool)
    requires Found(store, head, list, visited, stopped) && list != [] && list[0].id !in visited
    ensures Found(store, head, list[1..], visited + [list[0].id], if stop then stopped + {list[0].id} else stopped)
  {
    var c := list[0].id;
    var v' := visited + [c];
    var st' := if stop then stopped + {c} else stopped;
    TailIds(list);
    assert Ids(list)[0] == c && c in Ids(list);
    forall i | 0 < i < |v'| ensures FoundBy(store, v', st', i, v'[i]) {
      FoundByStays(store, visited, stopped, i, v'[i], c, stop);
    }
    forall x | x in Ids(list[1..]) && x != head ensures FoundBy(store, v', st', |v'|, x) {
      FoundByStays(store, visited, stopped, |visited|, x, c, stop);
      FoundByMore(store, v', st', |visited|, |v'|, x);
    }
  }

  /** Taking the first waiting commit, whether or not its parents will be followed. */
  lemma PopInv(store: Store, head: string, list: seq<Commit>, seen: set<string>, visited: seq<string>,
               stopped: set<string>, stop: bool)
    requires WalkInv(store, head, list, seen, visited, stopped) && list != []
    ensures WalkInv(store, head, list[1..], seen, visited + [list[0].id],
                    if stop then stopped + {list[0].id} else stopped)
  {
    PopPlaced(store, head, list, seen, visited);
    PopFound(store, head, list, visited, stopped, stop);
  }

  lemma FoundByMore(store: Store, visited: seq<string>, stopped: set<string>, n: nat, m: nat, x: string)
    requires n <= m <= |visited| && FoundBy(store, visited, stopped, n, x)
    ensures FoundBy(store, visited, stopped, m, x)
  {
  }

  /** Putting an unseen parent of the commit just visited on the list. */
  lemma InsertInv(store: Store, head: string, list: seq<Commit>, seen: set<string>, visited: seq<string>,
                  stopped: set<string>, q: string)
    requires WfStore(store) && WalkInv(store, head, list, seen, visited, stopped)
    requires visited != [] && q in store && q !in seen
    requires visited[|visited| - 1] !in stopped && q in Parents(store[visited[|visited| - 1]])
    ensures WalkInv(store, head, InsertSorted(list, store[q]), seen + {q}, visited, stopped)
  {
    var list' := InsertSorted(list, store[q]);
    InsertMembers(list, store[q]);
    forall x ensures x in Ids(list') <==> x in Ids(list) || x == q { InsertIds(list, store[q], x); }
    assert q !in Ids(list) && q !in visited by { InIds(list, q); }
    InsertDistinct(list, store[q]);
    forall i | 0 <= i < |list'| ensures list'[i].id in seen + {q} && list'[i] == store[list'[i].id] {
      assert list'[i] in list';
      if list'[i] != store[q] { assert list'[i] in list; }
    }
    assert FoundBy(store, visited, stopped, |visited|, q) by {
      assert visited[|visited| - 1] in seen;
    }
  }

  lemma PopTime(store: Store, list: seq<Commit>, visited: seq<string>)
    requires TimeInv(store, list, visited) && list != [] && list[0].id in store && store[list[0].id] == list[0]
    ensures TimeInv(store, list[1..], visited + [list[0].id])
  {
    var v' := visited + [list[0].id];
    forall i, c | 0 <= i < |v'| && c in list[1..] ensures store[v'[i]].ctime >= c.ctime {
      var j :| 0 <= j < |list[1..]| && list[1..][j] == c;
      assert c == list[j + 1];
    }
    forall i, j | 0 <= i < j < |v'| ensures store[v'[i]].ctime >= store[v'[j]].ctime {
      if j == |visited| { assert list[0] in list; }
    }
  }

  lemma InsertNear(store: Store, list: seq<Commit>, q: string)
    requires Near(store) && Sorted(list) && q in store && forall c :: c in list ==> c.id in store && store[c.id] == c
    ensures Sorted(InsertSorted(list, store[q]))
  {
    forall d | d in list ensures -(TWO32 / 2) < d.ctime - store[q].ctime < TWO32 / 2 {
      assert store[d.id] == d;
    }
    InsertSortedSorted(list, store[q]);
  }

  lemma InsertTime(store: Store, list: seq<Commit>, visited: seq<string>, q: string)
    requires TimeInv(store, list, visited) && Chronological(store) && q in store && visited != []
    requires q in Parents(store[visited[|visited| - 1]])
    requires forall c :: c in list ==> c.id in store && store[c.id] == c
    ensures TimeInv(store, InsertSorted(list, store[q]), visited)
  {
    InsertMembers(list, store[q]);
    forall d | d in list ensures -(TWO32 / 2) < d.ctime - store[q].ctime < TWO32 / 2 {
      assert store[d.id] == d;
    }
    InsertSortedSorted(list, store[q]);
    var last := visited[|visited| - 1];
    assert store[q].ctime < store[last].ctime;
    forall i | 0 <= i < |visited| ensures store[visited[i]].ctime >= store[last].ctime {
    }
  }

  /** The whole invariant of a traversal. */
  ghost predicate State(store: Store, head: string, list: seq<Commit>, seen: set<string>, visited: seq<string>,
                        stopped: set<string>)
  {
    && WalkInv(store, head, list, seen, visited, stopped)
    && (Chronological(store) ==> TimeInv(store, list, visited))
    && (Near(store) ==> Sorted(list))
  }
}
