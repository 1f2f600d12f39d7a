/** What holds over every run of the publication protocol. */
module PublicationTheorems {
  import opened Options
  import opened FsTree
  import opened AclProof
  import opened Lockstep
  import opened DiffSpec
  import opened DiffExact
  import opened Renames
  import opened EditFence
  import opened Publication

  datatype Run = Run(states: seq<State>, events: seq<Event>)

  /** A run starts with no process and no lock and takes enabled steps. */
  ghost predicate IsRun(env: Env, r: Run)
  {
    && |r.states| == |r.events| + 1
    && r.states[0].procs == map[] && r.states[0].locks == {} && DbOk(r.states[0].db)
    && (forall i: nat :: i < |r.events| ==> StepAt(env, r, i))
  }

  ghost predicate StepAt(env: Env, r: Run, i: nat)
    requires |r.states| == |r.events| + 1 && i < |r.events|
  {
    Enabled(env, r.states[i], r.events[i]) && r.states[i + 1] == Apply(env, r.states[i], r.events[i])
  }

  /** Safety over whole runs: every reachable state satisfies the invariant. */
  lemma {:induction false} RunInv(env: Env, r: Run, n: nat)
    requires IsRun(env, r) && n < |r.states|
    ensures Inv(env, r.states[n])
  {
    if n > 0 {
      RunInv(env, r, n - 1);
      assert StepAt(env, r, n - 1);
      InvStep(env, r.states[n - 1], r.events[n - 1]);
    }
  }

  /** At step `i` process `pid` lands its publication `p`. */
  ghost predicate Lands(r: Run, i: nat, pid: Pid, p: Publisher)
  {
    && i < |r.events| && i < |r.states| && r.events[i] == Act(pid, Land)
    && pid in r.states[i].procs && r.states[i].procs[pid] == Pub(p)
  }

  function HeadAt(r: Run, i: nat, repo: Repo, name: string): Option<Commit>
    requires i < |r.states|
  {
    HeadOf(r.states[i].db, repo, name)
  }

  function RowsAt(r: Run, i: nat, repo: Repo): seq<AclRow>
    requires i < |r.states|
  {
    RowsOf(r.states[i].db, repo)
  }

  /** Everything a landing publisher has established. */
  lemma LandFacts(env: Env, r: Run, i: nat, pid: Pid, p: Publisher)
    requires IsRun(env, r) && Lands(r, i, pid, p)
    ensures DbOk(r.states[i].db) && PubInv(env, r.states[i], pid, p) && p.phase == GuardHeld
    ensures r.states[i + 1].db == LandEffect(r.states[i].db, Pub(p))
  {
    RunInv(env, r, i);
    assert StepAt(env, r, i);
    assert ProcInv(env, r.states[i], pid, r.states[i].procs[pid]);
  }

  // ----------------------------------------------------------- compare and set

  /** A publication replaces exactly the head it compared, and nothing else. */
  lemma LandReplacesHead(env: Env, r: Run, i: nat, pid: Pid, p: Publisher)
    requires IsRun(env, r) && Lands(r, i, pid, p)
    ensures HeadAt(r, i, p.req.repo, p.req.name) == Some(p.req.oldId)
    ensures HeadAt(r, i + 1, p.req.repo, p.req.name) == Some(p.req.newId)
    ensures r.states[i + 1].db ==
            r.states[i].db.(heads := r.states[i].db.heads[(p.req.repo, p.req.name) := p.req.newId])
    ensures p.req.checkGc ==> GcOf(r.states[i].db, p.req.gcRepo) == p.req.lastGc
  {
    LandFacts(env, r, i, pid, p);
  }

  /** Between a step where the head is not `c` and a later one where it is, it becomes `c`. */
  lemma {:induction false} BecomesHead(r: Run, i: nat, j: nat, repo: Repo, name: string, c: Commit) returns (k: nat)
    requires i < j < |r.states| && HeadAt(r, i, repo, name) != Some(c) && HeadAt(r, j, repo, name) == Some(c)
    ensures i <= k < j && HeadAt(r, k, repo, name) != Some(c) && HeadAt(r, k + 1, repo, name) == Some(c)
    decreases j - i
  {
    if HeadAt(r, j - 1, repo, name) != Some(c) {
      k := j - 1;
    } else {
      k := BecomesHead(r, i, j - 1, repo, name, c);
    }
  }

  /** Two publications from one old head to a new commit cannot both land unless
      the head returns to the old one in between. */
  lemma NoDoublePublish(env: Env, r: Run, i: nat, j: nat, pid: Pid, p: Publisher, pid': Pid, p': Publisher)
    returns (k: nat)
    requires IsRun(env, r) && i < j && Lands(r, i, pid, p) && Lands(r, j, pid', p')
    requires p'.req.repo == p.req.repo && p'.req.name == p.req.name && p'.req.oldId == p.req.oldId
    requires p.req.newId != p.req.oldId
    ensures i < k < j
    ensures HeadAt(r, k, p.req.repo, p.req.name) != Some(p.req.oldId)
    ensures HeadAt(r, k + 1, p.req.repo, p.req.name) == Some(p.req.oldId)
  {
    LandReplacesHead(env, r, i, pid, p);
    LandReplacesHead(env, r, j, pid', p');
    k := BecomesHead(r, i + 1, j, p.req.repo, p.req.name, p.req.oldId);
  }

  /** Whenever a head moves, either a publication that compared the old value moved
      it, or a plain branch write in a scope without a single ACL row. */
  lemma HeadMoves(env: Env, r: Run, i: nat, repo: Repo, name: string)
    requires IsRun(env, r) && i < |r.events| && HeadAt(r, i, repo, name) != HeadAt(r, i + 1, repo, name)
    ensures
      var s, ev := r.states[i], r.events[i];
      && ev.Act? && ev.action == Land && ev.pid in s.procs
      && match s.procs[ev.pid]
         case Pub(p) => p.req.repo == repo && p.req.name == name &&
                        HeadAt(r, i, repo, name) == Some(p.req.oldId) &&
                        HeadAt(r, i + 1, repo, name) == Some(p.req.newId)
         case Wr(w) => w.repo == repo && w.name == name &&
                       RowsAt(r, i, repo) == [] && OriginRows(env, s.db, repo) == [] &&
                       HeadAt(r, i + 1, repo, name) == if w.op == DelBranch then None else Some(w.commit)
         case Acl(a) => false
  {
    RunInv(env, r, i);
    var s, ev := r.states[i], r.events[i];
    assert StepAt(env, r, i);
    assert ev.Act? && ev.action == Land;
    assert ProcInv(env, s, ev.pid, s.procs[ev.pid]);
    MovedBy(env, s, ev.pid, repo, name);
  }

  lemma MovedBy(env: Env, s: State, pid: Pid, repo: Repo, name: string)
    requires pid in s.procs && ProcInv(env, s, pid, s.procs[pid]) && ActEnabled(env, s, pid, Land, s.procs[pid])
    requires HeadOf(LandEffect(s.db, s.procs[pid]), repo, name) != HeadOf(s.db, repo, name)
    ensures match s.procs[pid]
            case Pub(p) => p.req.repo == repo && p.req.name == name && HeadOf(s.db, repo, name) == Some(p.req.oldId) &&
                           HeadOf(LandEffect(s.db, s.procs[pid]), repo, name) == Some(p.req.newId)
            case Wr(w) =>
              && w.repo == repo && w.name == name && RowsOf(s.db, repo) == [] && OriginRows(env, s.db, repo) == []
              && HeadOf(LandEffect(s.db, s.procs[pid]), repo, name) ==
                 if w.op == DelBranch then None else Some(w.commit)
            case Acl(a) => false
  {
    match s.procs[pid]
    case Pub(p) => MovedByPublisher(env, s, pid, p, repo, name);
    case Wr(w) => MovedByWriter(env, s, pid, w, repo, name);
    case Acl(a) =>
  }

  lemma MovedByPublisher(env: Env, s: State, pid: Pid, p: Publisher, repo: Repo, name: string)
    requires pid in s.procs && s.procs[pid] == Pub(p) && ProcInv(env, s, pid, Pub(p))
    requires ActEnabled(env, s, pid, Land, Pub(p))
    requires HeadOf(LandEffect(s.db, Pub(p)), repo, name) != HeadOf(s.db, repo, name)
    ensures p.req.repo == repo && p.req.name == name && HeadOf(s.db, repo, name) == Some(p.req.oldId)
    ensures HeadOf(LandEffect(s.db, Pub(p)), repo, name) == Some(p.req.newId)
  {
  }

  lemma MovedByWriter(env: Env, s: State, pid: Pid, w: Writer, repo: Repo, name: string)
    requires pid in s.procs && s.procs[pid] == Wr(w) && ProcInv(env, s, pid, Wr(w))
    requires ActEnabled(env, s, pid, Land, Wr(w))
    requires HeadOf(LandEffect(s.db, Wr(w)), repo, name) != HeadOf(s.db, repo, name)
    ensures w.repo == repo && w.name == name && RowsOf(s.db, repo) == [] && OriginRows(env, s.db, repo) == []
    ensures HeadOf(LandEffect(s.db, Wr(w)), repo, name) == if w.op == DelBranch then None else Some(w.commit)
  {
  }

  /** At step `i` process `pid` lands a transaction that is no publication. */
  ghost predicate Writes(r: Run, i: nat, pid: Pid, proc: Proc)
  {
    && i < |r.events| && i < |r.states| && r.events[i] == Act(pid, Land)
    && pid in r.states[i].procs && r.states[i].procs[pid] == proc && !proc.Pub?
  }

  /** A plain branch write lands only where there is no ACL row. Adding leaves the commit as
      the head, deleting none, and updating the commit if there was a head; no other head
      and no other table changes. */
  lemma WriterLands(env: Env, r: Run, i: nat, pid: Pid, w: Writer)
    requires IsRun(env, r) && Writes(r, i, pid, Wr(w))
    ensures RowsAt(r, i, w.repo) == [] && OriginRows(env, r.states[i].db, w.repo) == []
    ensures HeadAt(r, i + 1, w.repo, w.name) ==
            match w.op
            case AddBranch => Some(w.commit)
            case DelBranch => None
            case UpdateBranch => if HeadAt(r, i, w.repo, w.name).Some? then Some(w.commit) else None
    ensures forall repo, name :: (repo, name) != (w.repo, w.name) ==>
              HeadAt(r, i + 1, repo, name) == HeadAt(r, i, repo, name)
    ensures r.states[i + 1].db == r.states[i].db.(heads := r.states[i + 1].db.heads)
  {
    RunInv(env, r, i);
    assert StepAt(env, r, i);
    assert ProcInv(env, r.states[i], pid, r.states[i].procs[pid]);
  }

  /** An ACL write leaves its rows, and changes nothing else. */
  lemma AclLands(env: Env, r: Run, i: nat, pid: Pid, a: AclWriter)
    requires IsRun(env, r) && Writes(r, i, pid, Acl(a))
    ensures RowsAt(r, i + 1, a.repo) == a.rows
    ensures forall repo :: repo != a.repo ==> RowsAt(r, i + 1, repo) == RowsAt(r, i, repo)
    ensures r.states[i + 1].db == r.states[i].db.(acl := r.states[i + 1].db.acl)
  {
    assert StepAt(env, r, i);
  }

  /** A lock belongs to a transaction that has neither landed nor failed. */
  ghost predicate LocksLive(s: State)
  {
    forall x :: x in s.locks ==> x.1 in s.procs && From(PhaseOf(s.procs[x.1]), Begun)
  }

  lemma LiveStep(env: Env, s: State, ev: Event)
    requires LocksLive(s) && Enabled(env, s, ev)
    ensures LocksLive(Apply(env, s, ev))
  {
    if ev.Act? && ev.action != Land && ev.action != Rollback { StepLives(env, s, ev.pid, ev.action); }
  }

  lemma StepLives(env: Env, s: State, pid: Pid, act: Action)
    requires pid in s.procs && act != Land && act != Rollback && ActEnabled(env, s, pid, act, s.procs[pid])
    ensures From(PhaseOf(ActApply(env, s, pid, act).procs[pid]), Begun)
  {
  }

  /** In every state of every run, whoever landed or failed holds no lock. */
  lemma {:induction false} NoLockLeft(env: Env, r: Run, n: nat)
    requires IsRun(env, r) && n < |r.states|
    ensures LocksLive(r.states[n])
  {
    if n > 0 {
      NoLockLeft(env, r, n - 1);
      assert StepAt(env, r, n - 1);
      LiveStep(env, r.states[n - 1], r.events[n - 1]);
    }
  }

  // ---------------------------------------------------------- the master row

  /** A branch or ACL writer of the repository. */
  predicate WriterOf(proc: Proc, repo: Repo)
  {
    (proc.Wr? && proc.writer.repo == repo) || (proc.Acl? && proc.acl.repo == repo)
  }

  /** A process stays what it is, and keeps its locks until it lands or fails. */
  lemma KeepsLock(env: Env, s: State, ev: Event, pid: Pid, repo: Repo, l: Lock)
    requires Enabled(env, s, ev) && pid in s.procs && WriterOf(s.procs[pid], repo) && Holds(s, pid, l)
    ensures pid in Apply(env, s, ev).procs && WriterOf(Apply(env, s, ev).procs[pid], repo)
    ensures From(PhaseOf(Apply(env, s, ev).procs[pid]), Begun) ==> Holds(Apply(env, s, ev), pid, l)
    ensures From(PhaseOf(Apply(env, s, ev).procs[pid]), Begun) ==> From(PhaseOf(s.procs[pid]), Begun)
  {
  }

  /** A writer that found a master row when it started its transaction at step `k` has it
      locked until it lands or fails. */
  lemma {:induction false} HoldsMaster(env: Env, r: Run, k: nat, n: nat, pid: Pid, repo: Repo)
    requires IsRun(env, r) && k < n < |r.states| && r.events[k] == Act(pid, LockHead)
    requires pid in r.states[k].procs && WriterOf(r.states[k].procs[pid], repo)
    requires HeadAt(r, k, repo, MASTER).Some?
    ensures pid in r.states[n].procs && WriterOf(r.states[n].procs[pid], repo)
    ensures From(PhaseOf(r.states[n].procs[pid]), Begun) ==> Holds(r.states[n], pid, BranchLock(repo, MASTER))
    decreases n
  {
    assert StepAt(env, r, n - 1);
    if k + 1 < n {
      HoldsMaster(env, r, k, n - 1, pid, repo);
      if From(PhaseOf(r.states[n - 1].procs[pid]), Begun) {
        KeepsLock(env, r.states[n - 1], r.events[n - 1], pid, repo, BranchLock(repo, MASTER));
      } else {
        Over(env, r.states[n - 1], r.events[n - 1], pid, repo);
      }
    }
  }

  lemma Over(env: Env, s: State, ev: Event, pid: Pid, repo: Repo)
    requires Enabled(env, s, ev) && pid in s.procs && WriterOf(s.procs[pid], repo)
    requires !From(PhaseOf(s.procs[pid]), Begun)
    ensures pid in Apply(env, s, ev).procs && Apply(env, s, ev).procs[pid] == s.procs[pid]
  {
  }

  /** While a branch or ACL writer that found a master row is in its transaction, no
      publication to that branch is past its comparison of the head. */
  lemma MasterExclusive(env: Env, r: Run, k: nat, n: nat, pid: Pid, repo: Repo, other: Pid, p: Publisher)
    requires IsRun(env, r) && k < n < |r.states| && r.events[k] == Act(pid, LockHead)
    requires pid in r.states[k].procs && WriterOf(r.states[k].procs[pid], repo)
    requires HeadAt(r, k, repo, MASTER).Some?
    requires other in r.states[n].procs && r.states[n].procs[other] == Pub(p)
    requires p.req.repo == repo && p.req.name == MASTER
    requires pid in r.states[n].procs && From(PhaseOf(r.states[n].procs[pid]), Begun)
    ensures !From(p.phase, HeadHeld)
  {
    HoldsMaster(env, r, k, n, pid, repo);
    RunInv(env, r, n);
    assert ProcInv(env, r.states[n], other, r.states[n].procs[other]);
  }

  // ----------------------------------------------------------------- the ACL

  ghost predicate CollisionFree(digest: string -> string)
  {
    forall a, b :: digest(a) == digest(b) ==> a == b
  }

  /** Under the locks the scope is the one that was seen. */
  lemma SeenIsCurrent(env: Env, s: State, pid: Pid, p: Publisher)
    requires DbOk(s.db) && SeenInv(env, p) && HeldInv(env, s, pid, p) && p.phase == GuardHeld
    requires CollisionFree(env.digest) && NUL !in p.req.repo
    requires forall repo :: repo in env.origin ==> NUL !in env.origin[repo]
    ensures RowsOf(s.db, p.req.repo) == p.seen.rows && OriginRows(env, s.db, p.req.repo) == p.seen.originRows
  {
    ReadsWf(env, s.db, p.req.repo);
    assert WfScope(p.seen);
    assert WfScope(p.current);
    EncodeInjective(p.seen, p.current);
  }

  lemma HubSaid(env: Env, p: Publisher)
    requires SeenInv(env, p) && p.phase == GuardHeld
    ensures AclProof.Protected(p.seen) ==>
            p.hubRows.Some? && env.hub(p.hubRows.value, p.req.repo, p.req.oldId, p.req.newId)
  {
  }

  /** A publication lands only while the rows are those read before the Hub decided,
      and one that skipped the Hub lands only on a scope without rules. */
  lemma LandsOnSeenRows(env: Env, r: Run, i: nat, pid: Pid, p: Publisher)
    requires IsRun(env, r) && Lands(r, i, pid, p) && CollisionFree(env.digest) && NUL !in p.req.repo
    requires forall repo :: repo in env.origin ==> NUL !in env.origin[repo]
    ensures RowsAt(r, i, p.req.repo) == p.seen.rows
    ensures OriginRows(env, r.states[i].db, p.req.repo) == p.seen.originRows
    ensures p.hubRows.None? || !AclProof.Protected(p.seen) ==>
            RowsAt(r, i, p.req.repo) == [] && OriginRows(env, r.states[i].db, p.req.repo) == []
    ensures AclProof.Protected(p.seen) ==>
            p.hubRows.Some? && env.hub(p.hubRows.value, p.req.repo, p.req.oldId, p.req.newId)
  {
    LandFacts(env, r, i, pid, p);
    SeenIsCurrent(env, r.states[i], pid, p);
    HubSaid(env, p);
  }

  // ------------------------------------------------------- when rows were read

  ghost predicate IsPub(r: Run, n: nat, pid: Pid, p: Publisher)
  {
    n < |r.states| && pid in r.states[n].procs && r.states[n].procs[pid] == Pub(p)
  }

  /** A publisher one step earlier: it was the same, or it acted. */
  lemma StepBack(env: Env, r: Run, n: nat, pid: Pid, p: Publisher) returns (q: Publisher)
    requires IsRun(env, r) && n > 0 && IsPub(r, n, pid, p) && p.phase != Begun
    ensures IsPub(r, n - 1, pid, q)
    ensures q == p || (r.events[n - 1].Act? && r.events[n - 1].pid == pid &&
                       ActEnabled(env, r.states[n - 1], pid, r.events[n - 1].action, Pub(q)) &&
                       p == PubStep(env, r.states[n - 1], r.events[n - 1].action, q))
  {
    var s, ev := r.states[n - 1], r.events[n - 1];
    assert StepAt(env, r, n - 1);
    q := s.procs[pid].pub;
  }

  /** Only the first read sets the rows of the proof, only the Hub step its rows. */
  lemma SeenStep(env: Env, s: State, pid: Pid, act: Action, q: Publisher)
    requires ActEnabled(env, s, pid, act, Pub(q)) && From(PubStep(env, s, act, q).phase, OwnRead)
    ensures var p := PubStep(env, s, act, q);
            && p.req == q.req
            && (act == ReadOwn ==> p.seen.rows == RowsOf(s.db, q.req.repo) && !From(p.phase, Cleared))
            && (act != ReadOwn ==> From(q.phase, OwnRead) && p.seen.rows == q.seen.rows)
            && (act == AskHub && p.hubRows.Some? ==> p.hubRows.value == RowsOf(s.db, q.req.repo))
            && (act != AskHub && act != ReadOwn ==>
                p.hubRows == q.hubRows && (From(p.phase, Cleared) ==> From(q.phase, Cleared)))
  {
  }

  /** The rows in the proof are those at the step that read them, and the Hub decided on
      the rows of a step after that one. */
  lemma {:induction false} SeenAt(env: Env, r: Run, n: nat, pid: Pid, p: Publisher) returns (k: nat, m: nat)
    requires IsRun(env, r) && IsPub(r, n, pid, p) && From(p.phase, OwnRead)
    ensures k <= m <= n && k < |r.events| && r.events[k] == Act(pid, ReadOwn) && p.seen.rows == RowsAt(r, k, p.req.repo)
    ensures From(p.phase, Cleared) && p.hubRows.Some? ==>
            m < |r.events| && r.events[m] == Act(pid, AskHub) && p.hubRows.value == RowsAt(r, m, p.req.repo)
    decreases n
  {
    var q := StepBack(env, r, n, pid, p);
    if q == p {
      k, m := SeenAt(env, r, n - 1, pid, p);
    } else {
      var act := r.events[n - 1].action;
      SeenStep(env, r.states[n - 1], pid, act, q);
      if act == ReadOwn {
        k, m := n - 1, n - 1;
      } else {
        k, m := SeenAt(env, r, n - 1, pid, q);
        if act == AskHub { m := n - 1; }
      }
    }
  }

  /** Process `pid` has taken a step. */
  ghost predicate Started(s: State, pid: Pid)
  {
    pid in s.procs && PhaseOf(s.procs[pid]) != Begun
  }

  lemma StartedStep(env: Env, s: State, ev: Event, pid: Pid)
    requires Enabled(env, s, ev) && (Started(s, pid) || ev == Act(pid, ReadOwn))
    ensures Started(Apply(env, s, ev), pid)
  {
  }

  lemma {:induction false} StaysStarted(env: Env, r: Run, m: nat, n: nat, pid: Pid)
    requires IsRun(env, r) && m <= n < |r.states| && Started(r.states[m], pid)
    ensures Started(r.states[n], pid)
    decreases n - m
  {
    if m < n {
      assert StepAt(env, r, m);
      StartedStep(env, r.states[m], r.events[m], pid);
      StaysStarted(env, r, m + 1, n, pid);
    }
  }

  lemma NotReadAgain(env: Env, r: Run, k: nat, l: nat, pid: Pid)
    requires IsRun(env, r) && k < l < |r.events| && r.events[k] == Act(pid, ReadOwn)
    ensures r.events[l] != Act(pid, ReadOwn)
  {
    assert StepAt(env, r, k);
    StartedStep(env, r.states[k], r.events[k], pid);
    StaysStarted(env, r, k + 1, l, pid);
    assert StepAt(env, r, l);
  }

  /** A publisher reads its proof once. */
  lemma ReadOnce(env: Env, r: Run, k: nat, l: nat, pid: Pid)
    requires IsRun(env, r) && k < |r.events| && l < |r.events|
    requires r.events[k] == Act(pid, ReadOwn) && r.events[l] == Act(pid, ReadOwn)
    ensures k == l
  {
    if k < l { NotReadAgain(env, r, k, l, pid); }
    if l < k { NotReadAgain(env, r, l, k, pid); }
  }

  ghost predicate HasRevision(rows: seq<AclRow>, v: string)
  {
    exists row :: row in rows && row.revision == v
  }

  /** The rows after step `t` carry a revision that no state from `a` on had. */
  ghost predicate NewRevision(r: Run, a: nat, t: nat, repo: Repo, v: string)
    requires t + 1 < |r.states|
  {
    HasRevision(RowsAt(r, t + 1, repo), v) && forall i :: a <= i <= t ==> !HasRevision(RowsAt(r, i, repo), v)
  }

  ghost predicate ChangesRows(r: Run, t: nat, repo: Repo)
  {
    t + 1 < |r.states| && RowsAt(r, t + 1, repo) != RowsAt(r, t, repo)
  }

  /** Every ACL change of the repository between `a` and `b` brings a revision not seen
      since `a`; that is so when rules are inserted or revised, not when they are only deleted. */
  ghost predicate FreshRevisions(r: Run, repo: Repo, a: nat, b: nat)
  {
    forall t: nat :: a <= t < b && ChangesRows(r, t, repo) ==> exists v :: NewRevision(r, a, t, repo, v)
  }

  lemma {:induction false} LastChange(r: Run, b: nat, c: nat, repo: Repo) returns (t: nat)
    requires b < c < |r.states| && RowsAt(r, b, repo) != RowsAt(r, c, repo)
    ensures b <= t < c && RowsAt(r, t, repo) != RowsAt(r, t + 1, repo) && RowsAt(r, t + 1, repo) == RowsAt(r, c, repo)
    decreases c - b
  {
    if RowsAt(r, c - 1, repo) != RowsAt(r, c, repo) {
      t := c - 1;
    } else {
      t := LastChange(r, b, c - 1, repo);
    }
  }

  /** The rows are the same in every state of the window. */
  ghost predicate Steady(r: Run, repo: Repo, a: nat, c: nat)
    requires a <= c < |r.states|
  {
    forall b :: a <= b <= c ==> RowsAt(r, b, repo) == RowsAt(r, a, repo)
  }

  lemma StaysSame(r: Run, a: nat, b: nat, c: nat, repo: Repo)
    requires FreshRevisions(r, repo, a, c) && a <= b <= c < |r.states| && RowsAt(r, a, repo) == RowsAt(r, c, repo)
    ensures RowsAt(r, b, repo) == RowsAt(r, a, repo)
  {
    if RowsAt(r, b, repo) != RowsAt(r, c, repo) {
      var t := LastChange(r, b, c, repo);
      assert ChangesRows(r, t, repo);
    }
  }

  /** Of a window that ends with the rows it began with: every change in it brings a new
      revision if and only if there is no change in it. */
  lemma NoReturn(r: Run, a: nat, c: nat, repo: Repo)
    requires a <= c < |r.states| && RowsAt(r, a, repo) == RowsAt(r, c, repo)
    ensures FreshRevisions(r, repo, a, c) <==> Steady(r, repo, a, c)
  {
    if FreshRevisions(r, repo, a, c) {
      forall b | a <= b <= c ensures RowsAt(r, b, repo) == RowsAt(r, a, repo) { StaysSame(r, a, b, c, repo); }
    }
    if Steady(r, repo, a, c) {
      forall t: nat | a <= t < c ensures !ChangesRows(r, t, repo) {
        assert RowsAt(r, t, repo) == RowsAt(r, a, repo) == RowsAt(r, t + 1, repo);
      }
    }
  }

  /** With insert-or-revise-only ACL edits between the read of its proof at step `k` and
      its landing, a publication that lands under rules is one the Hub allows under the
      very rows in force when it lands. */
  lemma AuthorizedInForce(env: Env, r: Run, k: nat, i: nat, pid: Pid, p: Publisher)
    requires IsRun(env, r) && Lands(r, i, pid, p) && CollisionFree(env.digest) && NUL !in p.req.repo
    requires forall repo :: repo in env.origin ==> NUL !in env.origin[repo]
    requires k < i && r.events[k] == Act(pid, ReadOwn) && FreshRevisions(r, p.req.repo, k, i)
    ensures RowsAt(r, i, p.req.repo) != [] ==> env.hub(RowsAt(r, i, p.req.repo), p.req.repo, p.req.oldId, p.req.newId)
  {
    LandsOnSeenRows(env, r, i, pid, p);
    LandFacts(env, r, i, pid, p);
    if AclProof.Protected(p.seen) {
      var k', m := SeenAt(env, r, i, pid, p);
      ReadOnce(env, r, k, k', pid);
      NoReturn(r, k, i, p.req.repo);
    }
  }

  // ------------------------------------------------------------ edit guards

  lemma GuardFacts(env: Env, s: State, pid: Pid, p: Publisher, g: string)
    requires PreparedInv(env, p) && GuardInv(env, s, pid, p) && p.phase == GuardHeld
    requires env.policy(p.req.repo).Optional? && p.req.oldId != p.req.newId && g in GuardsOf(s.db, p.req.repo)
    ensures p.req.oldId in env.roots && p.req.newId in env.roots
    ensures Resolves(DiffTrees(false, "", Entries(env.roots[p.req.oldId]), Entries(env.roots[p.req.newId])), p.changes)
    ensures forall e :: e in p.changes ==> !EntryTouches(e, g)
  {
  }

  /** A publication leaves the file entry at every guard active when it lands as it
      was, in a library with checkout switched on. */
  lemma LandRespectsGuards(env: Env, r: Run, i: nat, pid: Pid, p: Publisher, path: seq<string>, n: nat)
    requires IsRun(env, r) && Lands(r, i, pid, p) && env.policy(p.req.repo).Optional? && p.req.oldId != p.req.newId
    requires LegalPath(path) && 0 < n <= |path| && "/" + Spell(path) in GuardsOf(r.states[i].db, p.req.repo)
    requires forall c :: c in env.roots ==> WfDir(env.roots[c]) && LegalNames(Entries(env.roots[c]))
    ensures p.req.oldId in env.roots && p.req.newId in env.roots
    ensures var before, after := Entries(env.roots[p.req.oldId]), Entries(env.roots[p.req.newId]);
            && SameFile(Lookup(before, path[..n]), Lookup(after, path[..n]))
            && (AsDir(Lookup(before, path[..n])).Some? ==> AsDir(Lookup(after, path[..n])).Some?)
  {
    LandFacts(env, r, i, pid, p);
    GuardFacts(env, r.states[i], pid, p, "/" + Spell(path));
    FenceProtects(Entries(env.roots[p.req.oldId]), Entries(env.roots[p.req.newId]), p.changes, path, n);
  }
}
