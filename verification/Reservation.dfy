/** Reserving storage for a new library: a directory, a safety marker and a route,
    made step by step by any number of concurrent reservations that may fail at
    every step, with a database whose commit acknowledgement may be lost.
 */
module Reservation {
  import opened Options
  import opened Strings
  import opened RouteCache

  type Repo = string
  type Pid = nat

  const AUTO_PREFIX := "auto-local:"
  const NATIVE_PREFIX := "native-"

  datatype Marker = Marker(key: string, state: string)

  /** The tables and the directories below the storage root. `native` holds the ids
      with a row in Repo, RepoTrash or GarbageRepos, `virtual` those in VirtualRepo. */
  datatype Tables = Tables(routes: map<Repo, string>, markers: map<Repo, Marker>,
                           native: set<Repo>, virtual: set<Repo>, dirs: set<string>)

  // -------------------------------------------------------------- the lookup

  /** The one query of cf_v2_store_dir. */
  function Query(t: Tables, repo: Repo): Route
  {
    if repo in t.routes then Route(Some(t.routes[repo]), None, None, true, false)
    else if repo in t.markers then
      Route(None, Some(t.markers[repo].key), Some(t.markers[repo].state), false, repo in t.native || repo in t.virtual)
    else Route(None, None, None, false, repo in t.native || repo in t.virtual)
  }

  datatype Place = Native | AutoLocal(key: string) | Refused

  predicate KeyChar(key: string, i: nat)
    requires i < |key|
  {
    'a' <= key[i] <= 'z' || '0' <= key[i] <= '9' || (key[i] == '-' && 0 < i < |key| - 1)
  }

  predicate KeyValid(key: string)
  {
    0 < |key| <= 80 && forall i :: 0 <= i < |key| ==> KeyChar(key, i)
  }

  /** key_valid */
  method CheckKey(key: string) returns (ok: bool)
    ensures ok == KeyValid(key)
  {
    if |key| == 0 || |key| > 80 {
      return false;
    }
    for i := 0 to |key|
      invariant forall j :: 0 <= j < i ==> KeyChar(key, j)
    {
      if !('a' <= key[i] <= 'z') && !('0' <= key[i] <= '9') && !(key[i] == '-' && i > 0 && i + 1 < |key|) {
        assert !KeyChar(key, i);
        return false;
      }
    }
    ok := true;
  }

  predicate HexDigit(c: char)
  {
    '0' <= c <= '9' || 'a' <= c <= 'f' || 'A' <= c <= 'F'
  }

  predicate IsUuid(id: string)
  {
    |id| == 36 &&
    forall i :: 0 <= i < 36 ==> if i in {8, 13, 18, 23} then id[i] == '-' else HexDigit(id[i])
  }

  /** A library id is a usable directory key exactly when it has no upper-case letter. */
  lemma UuidKey(id: string)
    requires IsUuid(id)
    ensures KeyValid(id) <==> forall i :: 0 <= i < |id| ==> !('A' <= id[i] <= 'F')
  {
    forall i | 0 <= i < |id| ensures KeyChar(id, i) <==> !('A' <= id[i] <= 'F') {
    }
  }

  /** Where the objects of a library live, decided from the facts of a lookup. */
  function Decide(repo: Repo, route: Route, dirs: set<string>): Place
  {
    if !route.rowPresent then
      if route.nativePresent &&
         (route.legacyKey.None? ||
          (route.legacyKey.value == NATIVE_PREFIX + repo &&
           (route.legacyState == Some("active") || route.legacyState == Some("retired"))))
      then Native else Refused
    else if route.storageId.Some? && StartsWith(route.storageId.value, AUTO_PREFIX) then
      var key := route.storageId.value[|AUTO_PREFIX|..];
      if KeyValid(key) && key in dirs then AutoLocal(key) else Refused
    else Refused
  }

  /** The rows of the id send its objects to the directory `key`: the route names it, and it
      is a valid key of a directory that is there. */
  predicate RoutedTo(t: Tables, repo: Repo, key: string)
  {
    repo in t.routes && t.routes[repo] == AUTO_PREFIX + key && KeyValid(key) && key in t.dirs
  }

  /** The rows of the id leave its objects in the native tree: it has no route, it is a
      library, and a marker, if there is one, says that it is native. */
  predicate KeptNative(t: Tables, repo: Repo)
  {
    && repo !in t.routes && (repo in t.native || repo in t.virtual)
    && (repo in t.markers ==>
          && t.markers[repo].key == NATIVE_PREFIX + repo
          && (t.markers[repo].state == "active" || t.markers[repo].state == "retired"))
  }

  /** What a lookup in the database answers, in terms of the rows of the id. */
  lemma LookupExact(t: Tables, repo: Repo)
    ensures var place := Decide(repo, Query(t, repo), t.dirs);
            && (forall key :: place == AutoLocal(key) <==> RoutedTo(t, repo, key))
            && (place == Native <==> KeptNative(t, repo))
  {
    if repo in t.routes {
      var id := t.routes[repo];
      forall key ensures id == AUTO_PREFIX + key <==> StartsWith(id, AUTO_PREFIX) && id[|AUTO_PREFIX|..] == key {
      }
    }
  }

  /** cf_v2_store_dir: decides from the cached facts of the latest fresh put, or else from
      the database, and remembers only facts that resolved. `answered` says whether the
      database answers the query. */
  method StoreDir(cache: Cache, t: Tables, answered: bool, repo: Repo, now: int)
    returns (place: Place, ghost facts: Route, ghost hit: bool)
    requires cache.Valid()
    modifies cache
    ensures cache.Valid()
    ensures !IsUuid(repo) ==> place == Refused && cache.log == old(cache.log)
    ensures IsUuid(repo) ==>
      && place == (if hit || answered then Decide(repo, facts, t.dirs) else Refused)
      && (!hit ==> facts == Query(t, repo))
      && (!hit && answered ==> (place == Native <==> KeptNative(t, repo)))
      && (!hit && answered ==> forall key :: place == AutoLocal(key) <==> RoutedTo(t, repo, key))
      && (hit ==> exists k :: LatestPut(old(cache.log), repo, k) && old(cache.log)[k].route == facts &&
                              now < old(cache.log)[k].now + (if facts.rowPresent then 10 * SECOND else SECOND))
      && cache.log == old(cache.log) + [Get(repo, now, hit)] +
                      if hit || place == Refused then [] else [Put(repo, facts, now)]
  {
    place, hit := Refused, false;
    facts := Query(t, repo);
    if !IsUuid(repo) {
      return;
    }
    var cached := cache.Lookup(repo, now);
    hit := cached.Some?;
    if cached.None? && !answered {
      return;
    }
    var route := if cached.Some? then cached.value else Query(t, repo);
    facts := route;
    if !route.rowPresent {
      if route.nativePresent &&
         (route.legacyKey.None? ||
          (route.legacyKey.value == NATIVE_PREFIX + repo &&
           (route.legacyState == Some("active") || route.legacyState == Some("retired")))) {
        place := Native;
      }
    } else if route.storageId.Some? && StartsWith(route.storageId.value, AUTO_PREFIX) {
      var key := route.storageId.value[|AUTO_PREFIX|..];
      var ok := CheckKey(key);
      if ok && key in t.dirs {
        place := AutoLocal(key);
      }
    }
    LookupExact(t, repo);
    if place != Refused && cached.None? {
      ghost var victim := cache.Store(repo, route, now);
    }
  }

  // ------------------------------------------------------------ reservations

  datatype Phase = Begun | DirMade | Checked | Inserted | Undoing | Succeeded | Failed

  datatype Reserver = Reserver(repo: Repo, phase: Phase)

  /** `reserved` are the ids whose reservation reached the database. */
  datatype State = State(t: Tables, procs: map<Pid, Reserver>, reserved: set<Repo>)

  datatype CommitResult = Persisted | PersistedUnacknowledged | NotPersisted

  datatype Event =
    | Spawn(pid: Pid, repo: Repo)
    | MakeDir(pid: Pid)
    | Refuse(pid: Pid)
    | Check(pid: Pid)
    | Insert(pid: Pid)
    | InsertFails(pid: Pid)
    | Commit(pid: Pid, result: CommitResult)
    | RemoveDir(pid: Pid, removed: bool)
    | LoseRoute(repo: Repo)
    | Retire(repo: Repo)
    | Lifecycle(native: set<Repo>, virtual: set<Repo>)
    | ForeignDir(name: string)

  /** A transaction of another reservation that has inserted rows for `repo` blocks the insert. */
  predicate InsertPending(s: State, repo: Repo, pid: Pid)
  {
    exists q :: q in s.procs && q != pid && s.procs[q].phase == Inserted && s.procs[q].repo == repo
  }

  /** repo_key is a primary key of the marker table. */
  predicate KeyTaken(t: Tables, key: string)
  {
    exists r :: r in t.markers && t.markers[r].key == key
  }

  predicate ActorIn(s: State, pid: Pid, phase: Phase)
  {
    pid in s.procs && s.procs[pid].phase == phase
  }

  predicate Enabled(s: State, ev: Event)
  {
    match ev
    case Spawn(pid, repo) => pid !in s.procs && IsUuid(repo)
    // g_mkdir fails when the directory exists
    case MakeDir(pid) => ActorIn(s, pid, Begun) && s.procs[pid].repo !in s.t.dirs
    case Refuse(pid) => ActorIn(s, pid, Begun)
    // the explicit check for rows of the id takes no lock
    case Check(pid) =>
      ActorIn(s, pid, DirMade) && s.procs[pid].repo !in s.t.routes && s.procs[pid].repo !in s.t.native
    // unique keys on both tables
    case Insert(pid) =>
      ActorIn(s, pid, Checked) &&
      var repo := s.procs[pid].repo;
      repo !in s.t.routes && repo !in s.t.markers && !KeyTaken(s.t, repo) && !InsertPending(s, repo, pid)
    case InsertFails(pid) => ActorIn(s, pid, DirMade) || ActorIn(s, pid, Checked)
    case Commit(pid, result) => ActorIn(s, pid, Inserted)
    case RemoveDir(pid, removed) => ActorIn(s, pid, Undoing)
    case LoseRoute(repo) => true
    case Retire(repo) => true
    case Lifecycle(native, virtual) => true
    case ForeignDir(name) => true
  }

  function SetPhase(s: State, pid: Pid, phase: Phase): State
    requires pid in s.procs
  {
    s.(procs := s.procs[pid := s.procs[pid].(phase := phase)])
  }

  function Reserve(t: Tables, repo: Repo): Tables
  {
    t.(markers := t.markers[repo := Marker(repo, "active")], routes := t.routes[repo := AUTO_PREFIX + repo])
  }

  function Apply(s: State, ev: Event): State
    requires Enabled(s, ev)
  {
    match ev
    case Spawn(pid, repo) => s.(procs := s.procs[pid := Reserver(repo, Begun)])
    case MakeDir(pid) => SetPhase(s, pid, DirMade).(t := s.t.(dirs := s.t.dirs + {s.procs[pid].repo}))
    case Refuse(pid) => SetPhase(s, pid, Failed)
    case Check(pid) => SetPhase(s, pid, Checked)
    case Insert(pid) => SetPhase(s, pid, Inserted)
    case InsertFails(pid) => SetPhase(s, pid, Undoing)
    case Commit(pid, result) =>
      var repo := s.procs[pid].repo;
      (match result
       case Persisted => SetPhase(s, pid, Succeeded).(t := Reserve(s.t, repo), reserved := s.reserved + {repo})
       // an uncertain commit never removes the directory
       case PersistedUnacknowledged =>
         SetPhase(s, pid, Failed).(t := Reserve(s.t, repo), reserved := s.reserved + {repo})
       case NotPersisted => SetPhase(s, pid, Failed))
    case RemoveDir(pid, removed) =>
      SetPhase(s, pid, Failed).(t := if removed then s.t.(dirs := s.t.dirs - {s.procs[pid].repo}) else s.t)
    case LoseRoute(repo) => s.(t := s.t.(routes := s.t.routes - {repo}))
    case Retire(repo) =>
      if repo !in s.t.markers then s
      else s.(t := s.t.(markers := s.t.markers[repo := s.t.markers[repo].(state := "retired")]))
    case Lifecycle(native, virtual) => s.(t := s.t.(native := native, virtual := virtual))
    case ForeignDir(name) => s.(t := s.t.(dirs := s.t.dirs + {name}))
  }

  // --------------------------------------------------------------- invariant

  predicate Owns(p: Reserver)
  {
    p.phase == DirMade || p.phase == Checked || p.phase == Inserted || p.phase == Undoing
  }

  /** A reservation that reached the database keeps its directory and its marker. */
  ghost predicate ReservedInv(s: State)
  {
    forall r :: r in s.reserved ==>
      && r in s.t.dirs && r in s.t.markers && s.t.markers[r].key == r && IsUuid(r)
      && (r in s.t.routes ==> s.t.routes[r] == AUTO_PREFIX + r)
  }

  /** A directory in the making is no finished reservation's, and has one owner. */
  ghost predicate OwnerInv(s: State)
  {
    forall p :: p in s.procs ==> OwnerOk(s, s.procs[p])
  }

  ghost predicate OwnerOk(s: State, p: Reserver)
  {
    IsUuid(p.repo) && (Owns(p) ==> p.repo in s.t.dirs && p.repo !in s.reserved)
  }

  ghost predicate OneOwnerInv(s: State)
  {
    forall p, q :: p in s.procs && q in s.procs && p != q && Owns(s.procs[p]) && Owns(s.procs[q]) ==>
      s.procs[p].repo != s.procs[q].repo
  }

  /** The rows a transaction has inserted are for an id without a route or a marker. */
  ghost predicate InsertedInv(s: State)
  {
    forall p :: p in s.procs && s.procs[p].phase == Inserted ==>
      s.procs[p].repo !in s.t.routes && s.procs[p].repo !in s.t.markers
  }

  /** Success means reserved, and at most one reservation of an id succeeds. */
  ghost predicate SuccessInv(s: State)
  {
    forall p :: p in s.procs && s.procs[p].phase == Succeeded ==> s.procs[p].repo in s.reserved
  }

  ghost predicate OneSuccessInv(s: State)
  {
    forall p, q :: ActorIn(s, p, Succeeded) && ActorIn(s, q, Succeeded) && p != q ==> s.procs[p].repo != s.procs[q].repo
  }

  ghost predicate Inv(s: State)
  {
    ReservedInv(s) && OwnerInv(s) && OneOwnerInv(s) && InsertedInv(s) && SuccessInv(s) && OneSuccessInv(s)
  }

  lemma ReservedStep(s: State, ev: Event)
    requires Inv(s) && Enabled(s, ev)
    ensures ReservedInv(Apply(s, ev))
  {
  }

  /** A step changes one process at most, and leaves the directories of the others. */
  lemma OwnerKept(s: State, ev: Event, p: Pid)
    requires ReservedInv(s) && OwnerInv(s) && OneOwnerInv(s) && Enabled(s, ev) && p in Apply(s, ev).procs
    ensures OwnerOk(Apply(s, ev), Apply(s, ev).procs[p])
  {
    if p in s.procs { assert OwnerOk(s, s.procs[p]); }
  }

  lemma OwnerStep(s: State, ev: Event)
    requires ReservedInv(s) && OwnerInv(s) && OneOwnerInv(s) && Enabled(s, ev)
    ensures OwnerInv(Apply(s, ev))
  {
    forall p | p in Apply(s, ev).procs ensures OwnerOk(Apply(s, ev), Apply(s, ev).procs[p]) { OwnerKept(s, ev, p); }
  }

  /** A process that owns a directory after a step owned it before, unless it just made it. */
  lemma OwnedBefore(s: State, ev: Event, p: Pid)
    requires Enabled(s, ev) && p in Apply(s, ev).procs && Owns(Apply(s, ev).procs[p])
    ensures p in s.procs && s.procs[p].repo == Apply(s, ev).procs[p].repo
    ensures Owns(s.procs[p]) || (ev == MakeDir(p) && s.procs[p].repo !in s.t.dirs)
  {
  }

  lemma OneOwnerStep(s: State, ev: Event)
    requires OwnerInv(s) && OneOwnerInv(s) && Enabled(s, ev)
    ensures OneOwnerInv(Apply(s, ev))
  {
    var t := Apply(s, ev);
    forall p, q | p in t.procs && q in t.procs && p != q && Owns(t.procs[p]) && Owns(t.procs[q])
      ensures t.procs[p].repo != t.procs[q].repo
    {
      OwnedBefore(s, ev, p);
      OwnedBefore(s, ev, q);
      assert OwnerOk(s, s.procs[p]) && OwnerOk(s, s.procs[q]);
    }
  }

  lemma InsertedStep(s: State, ev: Event)
    requires OneOwnerInv(s) && InsertedInv(s) && Enabled(s, ev)
    ensures InsertedInv(Apply(s, ev))
  {
  }

  lemma SuccessStep(s: State, ev: Event)
    requires SuccessInv(s) && Enabled(s, ev)
    ensures SuccessInv(Apply(s, ev))
  {
  }

  lemma OneSuccessStep(s: State, ev: Event)
    requires OwnerInv(s) && SuccessInv(s) && OneSuccessInv(s) && Enabled(s, ev)
    ensures OneSuccessInv(Apply(s, ev))
  {
    var t := Apply(s, ev);
    forall p, q | ActorIn(t, p, Succeeded) && ActorIn(t, q, Succeeded) && p != q
      ensures t.procs[p].repo != t.procs[q].repo
    {
      assert ActorIn(s, p, Succeeded) || ActorIn(s, q, Succeeded);
    }
  }

  /** Every step, failing or not, keeps the invariant. */
  lemma InvStep(s: State, ev: Event)
    requires Inv(s) && Enabled(s, ev)
    ensures Inv(Apply(s, ev))
  {
    ReservedStep(s, ev);
    OwnerStep(s, ev);
    OneOwnerStep(s, ev);
    InsertedStep(s, ev);
    SuccessStep(s, ev);
    OneSuccessStep(s, ev);
  }

  /** A run from any starting tables, with no reservation under way. */
  ghost predicate Run(states: seq<State>, events: seq<Event>)
  {
    && |states| == |events| + 1 && states[0].procs == map[] && states[0].reserved == {}
    && forall i :: 0 <= i < |events| ==> StepAt(states, events, i)
  }

  ghost predicate StepAt(states: seq<State>, events: seq<Event>, i: nat)
    requires |states| == |events| + 1 && i < |events|
  {
    Enabled(states[i], events[i]) && states[i + 1] == Apply(states[i], events[i])
  }

  lemma {:induction false} RunInv(states: seq<State>, events: seq<Event>, n: nat)
    requires Run(states, events) && n < |states|
    ensures Inv(states[n])
  {
    if n > 0 {
      RunInv(states, events, n - 1);
      assert StepAt(states, events, n - 1);
      InvStep(states[n - 1], events[n - 1]);
    }
  }

  // ---------------------------------------------------------------- theorems

  /** In every run: a reserved library has its directory. While its route row is there and
      its id is a usable key (see UuidKey) it resolves to that directory, and otherwise it
      is refused. It never resolves to the native tree, whatever native rows appear,
      and whether retired or not. */
  lemma ReservedNeverNative(states: seq<State>, events: seq<Event>, n: nat, repo: Repo)
    requires Run(states, events) && n < |states| && repo in states[n].reserved
    ensures repo in states[n].t.dirs
    ensures var place := Decide(repo, Query(states[n].t, repo), states[n].t.dirs);
            place == if repo in states[n].t.routes && KeyValid(repo) then AutoLocal(repo) else Refused
  {
    RunInv(states, events, n);
    var t := states[n].t;
    var id := AUTO_PREFIX + repo;
    assert id[..|AUTO_PREFIX|] == AUTO_PREFIX && id[|AUTO_PREFIX|..] == repo;
    assert |NATIVE_PREFIX + repo| != |repo|;
  }

  /** At most one reservation of an id ever succeeds. */
  lemma OneSuccess(states: seq<State>, events: seq<Event>, n: nat, p: Pid, q: Pid)
    requires Run(states, events) && n < |states| && p in states[n].procs && q in states[n].procs
    requires states[n].procs[p].phase == Succeeded && states[n].procs[q].phase == Succeeded
    requires states[n].procs[p].repo == states[n].procs[q].repo
    ensures p == q
  {
    RunInv(states, events, n);
  }

  lemma {:induction false} StaysReserved(states: seq<State>, events: seq<Event>, m: nat, n: nat, repo: Repo)
    requires Run(states, events) && m <= n < |states| && repo in states[m].reserved
    ensures repo in states[n].reserved
    decreases n - m
  {
    if m < n {
      assert StepAt(states, events, m);
      StaysReserved(states, events, m + 1, n, repo);
    }
  }

  /** No step replaces a route or a marker key that exists. */
  lemma NoTakeover(states: seq<State>, events: seq<Event>, m: nat, repo: Repo)
    requires Run(states, events) && m < |events|
    ensures repo in states[m].t.routes ==>
            repo !in states[m + 1].t.routes || states[m + 1].t.routes[repo] == states[m].t.routes[repo]
    ensures repo in states[m].t.markers ==>
            repo in states[m + 1].t.markers && states[m + 1].t.markers[repo].key == states[m].t.markers[repo].key
  {
    RunInv(states, events, m);
    assert StepAt(states, events, m);
  }

  predicate AfterCheck(phase: Phase)
  {
    phase == Checked || phase == Inserted || phase == Succeeded
  }

  lemma CheckStep(s: State, ev: Event, pid: Pid)
    requires Enabled(s, ev) && pid in Apply(s, ev).procs && AfterCheck(Apply(s, ev).procs[pid].phase)
    ensures pid in s.procs && s.procs[pid].repo == Apply(s, ev).procs[pid].repo
    ensures ev == Check(pid) || AfterCheck(s.procs[pid].phase)
  {
  }

  /** Whatever a reservation inserts, it checked before that no route and no library had the
      id; both may have come in between (LateLibrary). */
  lemma {:induction false} CheckedBefore(states: seq<State>, events: seq<Event>, n: nat, pid: Pid) returns (k: nat)
    requires Run(states, events) && n < |states| && pid in states[n].procs && AfterCheck(states[n].procs[pid].phase)
    ensures k < n && events[k] == Check(pid)
    ensures pid in states[k].procs && states[k].procs[pid].repo == states[n].procs[pid].repo
    ensures states[n].procs[pid].repo !in states[k].t.routes && states[n].procs[pid].repo !in states[k].t.native
  {
    assert StepAt(states, events, n - 1);
    CheckStep(states[n - 1], events[n - 1], pid);
    if events[n - 1] == Check(pid) {
      k := n - 1;
    } else {
      k := CheckedBefore(states, events, n - 1, pid);
    }
  }

  // ------------------------------------------------------------- stale lookups

  lemma MarkedStep(s: State, ev: Event, repo: Repo)
    requires InsertedInv(s) && Enabled(s, ev) && repo in s.t.markers && repo !in s.reserved
    ensures repo in Apply(s, ev).t.markers && repo !in Apply(s, ev).reserved
  {
  }

  /** An id with a marker that no reservation wrote is never reserved. */
  lemma {:induction false} MarkedStays(states: seq<State>, events: seq<Event>, k: nat, n: nat, repo: Repo)
    requires Run(states, events) && k <= n < |states| && repo in states[k].t.markers && repo !in states[k].reserved
    ensures repo !in states[n].reserved
    decreases n - k
  {
    if k < n {
      RunInv(states, events, k);
      assert StepAt(states, events, k);
      MarkedStep(states[k], events[k], repo);
      MarkedStays(states, events, k + 1, n, repo);
    }
  }

  /** Facts that a lookup read earlier, and may have cached, send a reserved library to the
      native tree if and only if they were read before the reservation reached the database
      while the id had a library or virtual row and no route. */
  lemma StaleNative(states: seq<State>, events: seq<Event>, k: nat, n: nat, repo: Repo, dirs: set<string>)
    requires Run(states, events) && k <= n < |states| && repo in states[n].reserved
    ensures Decide(repo, Query(states[k].t, repo), dirs) == Native <==>
      && repo !in states[k].reserved && repo !in states[k].t.routes
      && (repo in states[k].t.native || repo in states[k].t.virtual)
  {
    if repo in states[k].reserved {
      RunInv(states, events, k);
      assert |NATIVE_PREFIX + repo| != |repo|;
    } else if repo in states[k].t.markers {
      MarkedStays(states, events, k, n, repo);
    }
  }

  function Early(native: set<Repo>, virtual: set<Repo>, dirs: set<string>, procs: map<Pid, Reserver>): State
  {
    State(Tables(map[], map[], native, virtual, dirs), procs, {})
  }

  function Race(repo: Repo, phase: Phase, native: set<Repo>): State
  {
    Early(native, {repo}, {repo}, map[0 := Reserver(repo, phase)])
  }

  lemma RaceStart(repo: Repo)
    requires IsUuid(repo)
    ensures Apply(Early({}, {}, {}, map[]), Lifecycle({}, {repo})) == Early({}, {repo}, {}, map[])
    ensures Apply(Early({}, {repo}, {}, map[]), Spawn(0, repo)) ==
            Early({}, {repo}, {}, map[0 := Reserver(repo, Begun)])
  {
  }

  lemma RaceDir(repo: Repo)
    ensures Enabled(Early({}, {repo}, {}, map[0 := Reserver(repo, Begun)]), MakeDir(0))
    ensures Apply(Early({}, {repo}, {}, map[0 := Reserver(repo, Begun)]), MakeDir(0)) == Race(repo, DirMade, {})
  {
  }

  lemma RaceChecked(repo: Repo)
    ensures Enabled(Race(repo, DirMade, {}), Check(0))
    ensures Apply(Race(repo, DirMade, {}), Check(0)) == Race(repo, Checked, {})
    ensures Apply(Race(repo, Checked, {}), Lifecycle({repo}, {repo})) == Race(repo, Checked, {repo})
    ensures Enabled(Race(repo, Checked, {repo}), Insert(0))
    ensures Apply(Race(repo, Checked, {repo}), Insert(0)) == Race(repo, Inserted, {repo})
  {
  }

  lemma Extend(states: seq<State>, events: seq<Event>, ev: Event)
    requires Run(states, events) && Enabled(states[|events|], ev)
    ensures Run(states + [Apply(states[|events|], ev)], events + [ev])
  {
    var states', events' := states + [Apply(states[|events|], ev)], events + [ev];
    forall i | 0 <= i < |events'| ensures StepAt(states', events', i) {
      if i < |events| { assert StepAt(states, events, i); }
    }
  }

  lemma RaceToCheck(repo: Repo) returns (states: seq<State>, events: seq<Event>)
    requires IsUuid(repo)
    ensures Run(states, events) && |events| == 3 && states[3] == Race(repo, DirMade, {})
    ensures states[1] == Early({}, {repo}, {}, map[])
  {
    RaceStart(repo);
    RaceDir(repo);
    states, events := [Early({}, {}, {}, map[])], [];
    Extend(states, events, Lifecycle({}, {repo}));
    states, events := states + [Early({}, {repo}, {}, map[])], events + [Lifecycle({}, {repo})];
    Extend(states, events, Spawn(0, repo));
    states, events := states + [Early({}, {repo}, {}, map[0 := Reserver(repo, Begun)])], events + [Spawn(0, repo)];
    Extend(states, events, MakeDir(0));
    states, events := states + [Race(repo, DirMade, {})], events + [MakeDir(0)];
  }

  /** The check takes no lock and does not look at virtual libraries: a library row may be
      there when a reservation commits, and a lookup may have read native facts before. */
  lemma LateLibrary(repo: Repo) returns (states: seq<State>, events: seq<Event>)
    requires IsUuid(repo)
    ensures Run(states, events) && |events| == 7 && events[6] == Commit(0, Persisted)
    ensures repo in states[6].t.native && repo in states[7].reserved
    ensures Decide(repo, Query(states[1].t, repo), {}) == Native
  {
    states, events := RaceToCheck(repo);
    RaceChecked(repo);
    Extend(states, events, Check(0));
    states, events := states + [Race(repo, Checked, {})], events + [Check(0)];
    Extend(states, events, Lifecycle({repo}, {repo}));
    states, events := states + [Race(repo, Checked, {repo})], events + [Lifecycle({repo}, {repo})];
    Extend(states, events, Insert(0));
    states, events := states + [Race(repo, Inserted, {repo})], events + [Insert(0)];
    var commit := Commit(0, Persisted);
    Extend(states, events, commit);
    states, events := states + [Apply(states[6], commit)], events + [commit];
  }

  /** Any route row a reservation wrote has its directory, then and ever after, also
      when the acknowledgement of its commit was lost. */
  lemma RouteHasDirectory(states: seq<State>, events: seq<Event>, m: nat, n: nat, pid: Pid, result: CommitResult)
    requires Run(states, events) && m < |events| && m < n < |states|
    requires events[m] == Commit(pid, result) && !result.NotPersisted?
    ensures pid in states[m].procs && states[m].procs[pid].repo in states[n].t.dirs
    ensures states[m + 1].t.routes ==
            states[m].t.routes[states[m].procs[pid].repo := AUTO_PREFIX + states[m].procs[pid].repo]
  {
    assert StepAt(states, events, m);
    StaysReserved(states, events, m + 1, n, states[m].procs[pid].repo);
    RunInv(states, events, n);
  }
}
