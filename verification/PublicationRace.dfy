/** A run that shows why authorization under the rows in force needs fresh revisions: a
    rule is deleted while the Hub decides and put back before the publication lands.
 */
module PublicationRace {
  import opened Options
  import opened AclProof
  import opened EditFence
  import opened Publication
  import opened PublicationTheorems

  ghost function Last(r: Run): State
    requires |r.states| == |r.events| + 1
  {
    r.states[|r.events|]
  }

  /** `r'` goes on where `r` ends. */
  ghost predicate Continues(r: Run, r': Run)
  {
    |r.states| == |r.events| + 1 && r.states <= r'.states && r.events <= r'.events
  }

  lemma Extend(env: Env, r: Run, ev: Event) returns (r': Run)
    requires IsRun(env, r) && Enabled(env, Last(r), ev)
    ensures IsRun(env, r') && Continues(r, r') && r'.events == r.events + [ev]
    ensures Last(r') == Apply(env, Last(r), ev)
  {
    r' := Run(r.states + [Apply(env, Last(r), ev)], r.events + [ev]);
    forall i: nat | i < |r'.events| ensures StepAt(env, r', i) {
      if i < |r.events| { assert StepAt(env, r, i); }
    }
  }

  // ------------------------------------------------------------- an ACL edit

  /** A state in which process `pid` alone holds the locks `held` and is at `proc`. */
  ghost predicate At(s: State, db: Db, held: set<Lock>, procs: map<Pid, Proc>, pid: Pid, proc: Proc)
  {
    s == State(db, set l | l in held :: (l, pid), procs[pid := proc])
  }

  lemma AclLocksStep(env: Env, r: Run, pid: Pid, repo: Repo, rows: seq<AclRow>, db: Db, procs: map<Pid, Proc>)
    returns (r': Run)
    requires IsRun(env, r) && (repo, MASTER) in db.heads
    requires At(Last(r), db, {}, procs, pid, Acl(AclWriter(repo, rows, Begun)))
    ensures IsRun(env, r') && Continues(r, r') && |r'.events| == |r.events| + 2
    ensures At(Last(r'), db, {BranchLock(repo, MASTER), AclLock(repo)}, procs, pid, Acl(AclWriter(repo, rows, OwnHeld)))
  {
    var r1 := Extend(env, r, Act(pid, LockHead));
    assert At(Last(r1), db, {BranchLock(repo, MASTER)}, procs, pid, Acl(AclWriter(repo, rows, HeadHeld)));
    r' := Extend(env, r1, Act(pid, LockOwn));
  }

  /** With no lock held, an ACL writer replaces the rows of a repository in four steps. */
  lemma WriteAcl(env: Env, r: Run, pid: Pid, repo: Repo, rows: seq<AclRow>) returns (r': Run)
    requires IsRun(env, r) && Last(r).locks == {} && pid !in Last(r).procs
    requires WfRows(rows) && (repo, MASTER) in Last(r).db.heads
    ensures IsRun(env, r') && Continues(r, r') && |r'.events| == |r.events| + 4
    ensures var s := Last(r);
            Last(r') == State(s.db.(acl := s.db.acl[repo := rows]), {},
                              s.procs[pid := Acl(AclWriter(repo, rows, Landed))])
  {
    var s := Last(r);
    var r1 := Extend(env, r, Spawn(pid, Acl(AclWriter(repo, rows, Begun))));
    assert At(Last(r1), s.db, {}, s.procs, pid, Acl(AclWriter(repo, rows, Begun)));
    var r2 := AclLocksStep(env, r1, pid, repo, rows, s.db, s.procs);
    r' := Extend(env, r2, Act(pid, Land));
  }

  // ----------------------------------------------------------- a publication

  /** No virtual library, no checkout, and a Hub that allows everything where no rule is. */
  function RaceEnv(): Env
  {
    Env(map[], (rows, repo, old1, new1) => rows == [], s => s, map[], repo => Off)
  }

  function RaceRequest(repo: Repo): Request
  {
    Request(repo, MASTER, "old", "new", false, None, repo)
  }

  function RacePub(repo: Repo, phase: Phase, rows: seq<AclRow>, hubRows: Option<seq<AclRow>>,
                   current: seq<AclRow>): Publisher
  {
    Publisher(RaceRequest(repo), phase, Scope(repo, rows, None, []), hubRows, [], Scope(repo, current, None, []), {})
  }

  /** The steps before the Hub: the publisher reads the rows of its repository. */
  lemma PubReads(r: Run, repo: Repo) returns (r': Run)
    requires IsRun(RaceEnv(), r) && Last(r).locks == {} && 0 !in Last(r).procs
    requires |repo| == ID_LENGTH && |RowsOf(Last(r).db, repo)| <= MAX_ROWS
    ensures IsRun(RaceEnv(), r') && Continues(r, r') && |r'.events| == |r.events| + 3
    ensures Last(r') ==
            Last(r).(procs := Last(r).procs[0 := Pub(RacePub(repo, Proved, RowsOf(Last(r).db, repo), None, []))])
  {
    var env, s := RaceEnv(), Last(r);
    var rows := RowsOf(s.db, repo);
    var r1 := Extend(env, r, Spawn(0, Pub(RacePub(repo, Begun, [], None, []))));
    var r2 := Extend(env, r1, Act(0, ReadOwn));
    assert Last(r2) == s.(procs := s.procs[0 := Pub(RacePub(repo, OwnRead, rows, None, []))]);
    r' := Extend(env, r2, Act(0, ReadOrigin));
  }

  /** The Hub decides on the rows in force now; then the changes are prepared. */
  lemma PubAsks(r: Run, repo: Repo, rows: seq<AclRow>) returns (r': Run)
    requires IsRun(RaceEnv(), r) && Last(r).locks == {} && rows != [] && RowsOf(Last(r).db, repo) == []
    requires 0 in Last(r).procs && Last(r).procs[0] == Pub(RacePub(repo, Proved, rows, None, []))
    ensures IsRun(RaceEnv(), r') && Continues(r, r') && |r'.events| == |r.events| + 2
    ensures Last(r') == Last(r).(procs := Last(r).procs[0 := Pub(RacePub(repo, Prepared, rows, Some([]), []))])
  {
    var env, s := RaceEnv(), Last(r);
    var r1 := Extend(env, r, Act(0, AskHub));
    assert Last(r1) == s.(procs := s.procs[0 := Pub(RacePub(repo, Cleared, rows, Some([]), []))]);
    r' := Extend(env, r1, Act(0, Prepare([])));
  }

  /** The transaction up to the lock on the branch. */
  lemma PubLocksHead(r: Run, repo: Repo, rows: seq<AclRow>, db: Db, procs: map<Pid, Proc>) returns (r': Run)
    requires IsRun(RaceEnv(), r) && HeadOf(db, repo, MASTER) == Some("old")
    requires At(Last(r), db, {}, procs, 0, Pub(RacePub(repo, Prepared, rows, Some([]), [])))
    ensures IsRun(RaceEnv(), r') && Continues(r, r') && |r'.events| == |r.events| + 2
    ensures At(Last(r'), db, {BranchLock(repo, MASTER)}, procs, 0, Pub(RacePub(repo, HeadHeld, rows, Some([]), [])))
  {
    var env := RaceEnv();
    var r1 := Extend(env, r, Act(0, LockGc));
    assert At(Last(r1), db, {}, procs, 0, Pub(RacePub(repo, GcHeld, rows, Some([]), [])));
    r' := Extend(env, r1, Act(0, LockHead));
  }

  /** The second proof: the rows of the repository ... */
  lemma PubLocksOwn(r: Run, repo: Repo, rows: seq<AclRow>, db: Db, procs: map<Pid, Proc>) returns (r': Run)
    requires IsRun(RaceEnv(), r) && RowsOf(db, repo) == rows && |rows| <= MAX_ROWS
    requires At(Last(r), db, {BranchLock(repo, MASTER)}, procs, 0, Pub(RacePub(repo, HeadHeld, rows, Some([]), [])))
    ensures IsRun(RaceEnv(), r') && Continues(r, r') && |r'.events| == |r.events| + 1
    ensures At(Last(r'), db, {BranchLock(repo, MASTER), AclLock(repo)}, procs, 0,
              Pub(RacePub(repo, OwnHeld, rows, Some([]), rows)))
  {
    r' := Extend(RaceEnv(), r, Act(0, LockOwn));
  }

  /** ... and those of its origin, which it does not have: the same digest as before. */
  lemma PubLocksScope(r: Run, repo: Repo, rows: seq<AclRow>, db: Db, procs: map<Pid, Proc>) returns (r': Run)
    requires IsRun(RaceEnv(), r)
    requires At(Last(r), db, {BranchLock(repo, MASTER), AclLock(repo)}, procs, 0,
               Pub(RacePub(repo, OwnHeld, rows, Some([]), rows)))
    ensures IsRun(RaceEnv(), r') && Continues(r, r') && |r'.events| == |r.events| + 1
    ensures At(Last(r'), db, {BranchLock(repo, MASTER), AclLock(repo)}, procs, 0,
              Pub(RacePub(repo, ScopeHeld, rows, Some([]), rows)))
  {
    r' := Extend(RaceEnv(), r, Act(0, LockScope));
  }

  /** The fence is off; the publication lands. */
  lemma PubLands(r: Run, repo: Repo, rows: seq<AclRow>, db: Db, procs: map<Pid, Proc>) returns (r': Run)
    requires IsRun(RaceEnv(), r) && GuardsOf(db, repo) == {}
    requires At(Last(r), db, {BranchLock(repo, MASTER), AclLock(repo)}, procs, 0,
               Pub(RacePub(repo, ScopeHeld, rows, Some([]), rows)))
    ensures IsRun(RaceEnv(), r') && |r'.events| == |r.events| + 2 && r'.states[|r'.events| - 1].db == db
    ensures Lands(r', |r'.events| - 1, 0, RacePub(repo, GuardHeld, rows, Some([]), rows))
  {
    var env := RaceEnv();
    var r1 := Extend(env, r, Act(0, LockGuards));
    assert At(Last(r1), db, {BranchLock(repo, MASTER), AclLock(repo)}, procs, 0,
             Pub(RacePub(repo, GuardHeld, rows, Some([]), rows)));
    r' := Extend(env, r1, Act(0, Land));
    assert r'.states[|r1.events|] == Last(r1);
  }

  // ------------------------------------------------------------------ the run

  function RaceDb(repo: Repo, rows: seq<AclRow>): Db
  {
    Db(map[(repo, MASTER) := "old"], map[repo := rows], map[], map[])
  }

  /** The rule is read, deleted, decided without, and put back. */
  lemma RuleAway(repo: Repo, rows: seq<AclRow>) returns (r: Run, procs: map<Pid, Proc>)
    requires |repo| == ID_LENGTH && WfRows(rows) && 0 < |rows| <= MAX_ROWS
    ensures IsRun(RaceEnv(), r) &&
            At(Last(r), RaceDb(repo, rows), {}, procs, 0, Pub(RacePub(repo, Prepared, rows, Some([]), [])))
  {
    var env := RaceEnv();
    var r0 := Run([State(RaceDb(repo, rows), {}, map[])], []);
    var r1 := PubReads(r0, repo);
    var r2 := WriteAcl(env, r1, 1, repo, []);
    assert Last(r2).db == RaceDb(repo, []);
    var r3 := PubAsks(r2, repo, rows);
    r := WriteAcl(env, r3, 2, repo, rows);
    assert Last(r).db == RaceDb(repo, rows);
    procs := Last(r).procs;
    assert procs == procs[0 := Pub(RacePub(repo, Prepared, rows, Some([]), []))];
  }

  /** For every repository and rules there is a run in which a publication lands on the very
      rows of its proof, and the Hub, which would refuse it under these rows, allowed it
      under others: the rules were gone while it decided. */
  lemma RestoredRule(repo: Repo, rows: seq<AclRow>) returns (env: Env, r: Run, i: nat, p: Publisher)
    requires |repo| == ID_LENGTH && WfRows(rows) && 0 < |rows| <= MAX_ROWS
    ensures IsRun(env, r) && Lands(r, i, 0, p) && CollisionFree(env.digest) && env.origin == map[]
    ensures p.req.repo == repo && RowsAt(r, i, repo) == rows == p.seen.rows && p.hubRows == Some([])
    ensures !env.hub(RowsAt(r, i, repo), repo, p.req.oldId, p.req.newId)
  {
    env := RaceEnv();
    var procs;
    r, procs := RuleAway(repo, rows);
    var db := RaceDb(repo, rows);
    r := PubLocksHead(r, repo, rows, db, procs);
    r := PubLocksOwn(r, repo, rows, db, procs);
    r := PubLocksScope(r, repo, rows, db, procs);
    r := PubLands(r, repo, rows, db, procs);
    i, p := |r.events| - 1, RacePub(repo, GuardHeld, rows, Some([]), rows);
  }
}
