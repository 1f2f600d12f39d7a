/** When a publication or a branch write lands if nothing else happens: the exact condition
    on the tables, in both directions.
 */
module PublicationAlone {
  import opened Options
  import opened AclProof
  import opened DiffSpec
  import opened EditFence
  import opened Publication
  import opened PublicationTheorems
  import opened PublicationRace

  /** Process 0 starts, and every other step is its own. */
  ghost predicate Alone(env: Env, r: Run, db: Db, proc: Proc)
  {
    && IsRun(env, r) && r.states[0].db == db && r.events != [] && r.events[0] == Spawn(0, proc)
    && forall i :: 0 < i < |r.events| ==> r.events[i].Act? && r.events[i].pid == 0
  }

  /** Only process 0 is there, it holds all locks, and the tables are as they were. */
  ghost predicate AloneAt(s: State, db: Db, proc: Proc)
  {
    s.db == db && s.procs == map[0 := proc] && forall x :: x in s.locks ==> x.1 == 0
  }

  lemma Starts(env: Env, db: Db, proc: Proc) returns (r: Run)
    requires DbOk(db) && PhaseOf(proc) == Begun
    ensures Alone(env, r, db, proc) && AloneAt(Last(r), db, proc)
  {
    r := Extend(env, Run([State(db, {}, map[])], []), Spawn(0, proc));
  }

  /** One more step that does not end the transaction. */
  lemma Steps(env: Env, r: Run, db: Db, start: Proc, proc: Proc, act: Action) returns (r': Run)
    requires Alone(env, r, db, start) && AloneAt(Last(r), db, proc) && act != Land && act != Rollback
    requires ActEnabled(env, Last(r), 0, act, proc)
    ensures Alone(env, r', db, start) && AloneAt(Last(r'), db, ProcStep(env, Last(r), act, proc))
  {
    r' := Extend(env, r, Act(0, act));
  }

  lemma Ends(env: Env, r: Run, db: Db, start: Proc, proc: Proc) returns (r': Run)
    requires Alone(env, r, db, start) && AloneAt(Last(r), db, proc) && ActEnabled(env, Last(r), 0, Land, proc)
    ensures Alone(env, r', db, start) && r'.events == r.events + [Act(0, Land)] && r'.states[|r.events|] == Last(r)
  {
    r' := Extend(env, r, Act(0, Land));
  }

  // ---------------------------------------------------------- a publication

  function ScopeOf(env: Env, db: Db, repo: Repo): Scope
  {
    Scope(repo, RowsOf(db, repo), OriginOf(env, repo), OriginRows(env, db, repo))
  }

  /** The ACL side: the proof can be taken, and under rules the library is no virtual one and
      the Hub allows the change. */
  predicate Permitted(env: Env, db: Db, req: Request)
  {
    && |req.repo| == ID_LENGTH && OriginOk(env, req.repo)
    && |RowsOf(db, req.repo)| <= MAX_ROWS && |OriginRows(env, db, req.repo)| <= MAX_ROWS
    && (RowsOf(db, req.repo) != [] || OriginRows(env, db, req.repo) != [] ==>
          req.repo !in env.origin && env.hub(RowsOf(db, req.repo), req.repo, req.oldId, req.newId))
  }

  /** The changes are what is to be prepared, and no active guard is touched. */
  ghost predicate Unguarded(env: Env, db: Db, req: Request, changes: seq<DiffEntry>)
  {
    PreparedOk(env, req, changes) && Untouched(env, db, req, changes)
  }

  ghost predicate Untouched(env: Env, db: Db, req: Request, changes: seq<DiffEntry>)
  {
    env.policy(req.repo).Optional? ==>
      forall e, g :: e in changes && g in GuardsOf(db, req.repo) ==> !EntryTouches(e, g)
  }

  /** The head is the one the request compares, and so is the GC id if it asks for that. */
  predicate Current(db: Db, req: Request)
  {
    && HeadOf(db, req.repo, req.name) == Some(req.oldId)
    && (req.checkGc ==> GcOf(db, req.gcRepo) == req.lastGc)
  }

  function FreshPub(req: Request): Publisher
  {
    Publisher(req, Begun, Scope("", [], None, []), None, [], Scope("", [], None, []), {})
  }

  /** The publisher in its several phases, with nothing else going on. */
  function PubAt(env: Env, db: Db, req: Request, changes: seq<DiffEntry>, phase: Phase): Publisher
  {
    var scope := ScopeOf(env, db, req.repo);
    Publisher(req, phase,
              if Rank(phase) == 0 then Scope("", [], None, [])
              else if Rank(phase) == 1 then Scope(req.repo, scope.rows, None, []) else scope,
              if Rank(phase) >= 3 && AclProof.Protected(scope) then Some(scope.rows) else None,
              if Rank(phase) >= 4 then changes else [],
              if Rank(phase) < 7 then Scope("", [], None, [])
              else if Rank(phase) == 7 then Scope(req.repo, scope.rows, None, []) else scope,
              if Rank(phase) >= 9 then GuardsOf(db, req.repo) else {})
  }

  function PhaseBefore(act: Action): Phase
  {
    match act
    case ReadOwn => Begun case ReadOrigin => OwnRead case AskHub => Proved case Prepare(_) => Cleared
    case LockGc => Prepared case LockHead => GcHeld case LockOwn => HeadHeld case LockScope => OwnHeld
    case LockGuards => ScopeHeld case Land => GuardHeld case Rollback => Failed
  }

  function PhaseAfter(act: Action): Phase
  {
    match act
    case ReadOwn => OwnRead case ReadOrigin => Proved case AskHub => Cleared case Prepare(_) => Prepared
    case LockGc => GcHeld case LockHead => HeadHeld case LockOwn => OwnHeld case LockScope => ScopeHeld
    case LockGuards => GuardHeld case Land => Landed case Rollback => Failed
  }

  /** Nothing stands in the way of the publication. */
  ghost predicate MayLand(env: Env, db: Db, req: Request, changes: seq<DiffEntry>)
  {
    Permitted(env, db, req) && Current(db, req) && Unguarded(env, db, req, changes)
  }

  lemma ReadsEnabled(env: Env, s: State, req: Request, changes: seq<DiffEntry>, act: Action)
    requires Permitted(env, s.db, req) && PreparedOk(env, req, changes)
    requires act == ReadOwn || act == ReadOrigin || act == AskHub || act == Prepare(changes)
    ensures PubEnabled(env, s, 0, act, PubAt(env, s.db, req, changes, PhaseBefore(act)))
  {
  }

  lemma LocksEnabled(env: Env, s: State, req: Request, changes: seq<DiffEntry>, act: Action)
    requires Permitted(env, s.db, req) && Current(s.db, req) && forall x :: x in s.locks ==> x.1 == 0
    requires act == LockGc || act == LockHead || act == LockOwn || act == LockScope
    ensures PubEnabled(env, s, 0, act, PubAt(env, s.db, req, changes, PhaseBefore(act)))
  {
  }

  lemma GuardsEnabled(env: Env, s: State, req: Request, changes: seq<DiffEntry>)
    requires Unguarded(env, s.db, req, changes) && forall x :: x in s.locks ==> x.1 == 0
    ensures PubEnabled(env, s, 0, LockGuards, PubAt(env, s.db, req, changes, ScopeHeld))
  {
  }

  lemma NextPub(env: Env, s: State, req: Request, changes: seq<DiffEntry>, act: Action)
    requires act != Rollback && act != Land && (act.Prepare? ==> act.changes == changes)
    ensures PubStep(env, s, act, PubAt(env, s.db, req, changes, PhaseBefore(act))) ==
            PubAt(env, s.db, req, changes, PhaseAfter(act))
  {
  }

  /** The publisher is alone, in this phase. */
  ghost predicate Reached(env: Env, r: Run, db: Db, req: Request, changes: seq<DiffEntry>, phase: Phase)
  {
    Alone(env, r, db, Pub(FreshPub(req))) && AloneAt(Last(r), db, Pub(PubAt(env, db, req, changes, phase)))
  }

  lemma Advance(env: Env, r: Run, db: Db, req: Request, changes: seq<DiffEntry>, act: Action) returns (r': Run)
    requires MayLand(env, db, req, changes) && Reached(env, r, db, req, changes, PhaseBefore(act))
    requires act != Rollback && act != Land && (act.Prepare? ==> act.changes == changes)
    ensures Reached(env, r', db, req, changes, PhaseAfter(act))
  {
    var s := Last(r);
    match act {
      case LockGc => LocksEnabled(env, s, req, changes, act);
      case LockHead => LocksEnabled(env, s, req, changes, act);
      case LockOwn => LocksEnabled(env, s, req, changes, act);
      case LockScope => LocksEnabled(env, s, req, changes, act);
      case LockGuards => GuardsEnabled(env, s, req, changes);
      case _ => ReadsEnabled(env, s, req, changes, act);
    }
    NextPub(env, s, req, changes, act);
    r' := Steps(env, r, db, Pub(FreshPub(req)), Pub(PubAt(env, db, req, changes, PhaseBefore(act))), act);
  }

  lemma Begins(env: Env, db: Db, req: Request, changes: seq<DiffEntry>) returns (r: Run)
    requires DbOk(db)
    ensures Reached(env, r, db, req, changes, Begun)
  {
    r := Starts(env, db, Pub(FreshPub(req)));
  }

  lemma Finishes(env: Env, r: Run, db: Db, req: Request, changes: seq<DiffEntry>) returns (r': Run)
    requires Reached(env, r, db, req, changes, GuardHeld)
    ensures Alone(env, r', db, Pub(FreshPub(req)))
    ensures Lands(r', |r'.events| - 1, 0, PubAt(env, db, req, changes, GuardHeld))
  {
    r' := Ends(env, r, db, Pub(FreshPub(req)), Pub(PubAt(env, db, req, changes, GuardHeld)));
  }

  /** What a publisher does before a step. */
  function Previous(act: Action, changes: seq<DiffEntry>): Action
  {
    match act
    case ReadOrigin => ReadOwn case AskHub => ReadOrigin case Prepare(_) => AskHub case LockGc => Prepare(changes)
    case LockHead => LockGc case LockOwn => LockHead case LockScope => LockOwn case LockGuards => LockScope
    case _ => Rollback
  }

  lemma {:induction false} Reach(env: Env, db: Db, req: Request, changes: seq<DiffEntry>, act: Action) returns (r: Run)
    requires DbOk(db) && MayLand(env, db, req, changes)
    requires act != Rollback && act != Land && (act.Prepare? ==> act.changes == changes)
    ensures Reached(env, r, db, req, changes, PhaseAfter(act))
    decreases Rank(PhaseBefore(act))
  {
    if act == ReadOwn {
      r := Begins(env, db, req, changes);
    } else {
      r := Reach(env, db, req, changes, Previous(act, changes));
    }
    r := Advance(env, r, db, req, changes, act);
  }

  /** A publication that may land does, if it is left alone. */
  lemma PublishesAlone(env: Env, db: Db, req: Request, changes: seq<DiffEntry>) returns (r: Run, p: Publisher)
    requires DbOk(db) && Permitted(env, db, req) && Current(db, req) && Unguarded(env, db, req, changes)
    ensures Alone(env, r, db, Pub(FreshPub(req))) && Lands(r, |r.events| - 1, 0, p)
  {
    r := Reach(env, db, req, changes, LockGuards);
    p := PubAt(env, db, req, changes, GuardHeld);
    r := Finishes(env, r, db, req, changes);
  }

  // -------------------------------------------------- what landing alone needs

  /** What the phase of a publisher that is alone says about the tables. */
  ghost predicate Needed(env: Env, db: Db, p: Publisher)
  {
    && (From(p.phase, OwnRead) ==>
          |p.req.repo| == ID_LENGTH && |RowsOf(db, p.req.repo)| <= MAX_ROWS && p.seen.rows == RowsOf(db, p.req.repo))
    && (From(p.phase, Proved) ==>
          && OriginOk(env, p.req.repo) && |OriginRows(env, db, p.req.repo)| <= MAX_ROWS
          && p.seen == ScopeOf(env, db, p.req.repo))
    && (From(p.phase, Cleared) ==> Permitted(env, db, p.req))
  }

  ghost predicate NeededLater(env: Env, db: Db, p: Publisher)
  {
    && (From(p.phase, GcHeld) ==> (p.req.checkGc ==> GcOf(db, p.req.gcRepo) == p.req.lastGc))
    && (From(p.phase, HeadHeld) ==> HeadOf(db, p.req.repo, p.req.name) == Some(p.req.oldId))
  }

  ghost predicate NeededLast(env: Env, db: Db, p: Publisher)
  {
    From(p.phase, GuardHeld) ==> Untouched(env, db, p.req, p.changes)
  }

  lemma NeededStep(env: Env, s: State, act: Action, p: Publisher)
    requires Needed(env, s.db, p) && PubEnabled(env, s, 0, act, p) && act != Rollback
    ensures Needed(env, s.db, PubStep(env, s, act, p))
  {
  }

  lemma NeededLaterStep(env: Env, s: State, act: Action, p: Publisher)
    requires NeededLater(env, s.db, p) && PubEnabled(env, s, 0, act, p) && act != Rollback
    ensures NeededLater(env, s.db, PubStep(env, s, act, p))
  {
  }

  lemma NeededLastStep(env: Env, s: State, act: Action, p: Publisher)
    requires NeededLast(env, s.db, p) && PubEnabled(env, s, 0, act, p) && act != Rollback
    ensures NeededLast(env, s.db, PubStep(env, s, act, p))
  {
    if act == LockGuards { GuardsRead(env, s, p); } else { NotLast(env, s, act, p); }
  }

  lemma GuardsRead(env: Env, s: State, p: Publisher)
    requires PubEnabled(env, s, 0, LockGuards, p)
    ensures Untouched(env, s.db, p.req, p.changes)
    ensures var p' := PubStep(env, s, LockGuards, p); p'.req == p.req && p'.changes == p.changes
  {
  }

  lemma NotLast(env: Env, s: State, act: Action, p: Publisher)
    requires PubEnabled(env, s, 0, act, p) && act != LockGuards && act != Rollback
    ensures !From(PubStep(env, s, act, p).phase, GuardHeld)
  {
  }

  /** Until it lands, a publisher that is alone finds the tables as they were. */
  ghost predicate AloneInv(env: Env, db: Db, req: Request, s: State)
  {
    && s.procs.Keys == {0} && s.procs[0].Pub? && s.procs[0].pub.req == req
    && (s.procs[0].pub.phase != Landed ==> s.db == db)
    && PubAlone(env, db, s.procs[0].pub)
  }

  ghost predicate PubAlone(env: Env, db: Db, p: Publisher)
  {
    Needed(env, db, p) && NeededLater(env, db, p) && NeededLast(env, db, p) && PreparedInv(env, p)
  }

  lemma PubAloneStep(env: Env, s: State, act: Action, p: Publisher)
    requires PubAlone(env, s.db, p) && PubEnabled(env, s, 0, act, p) && act != Rollback
    ensures PubAlone(env, s.db, PubStep(env, s, act, p))
  {
    NeededStep(env, s, act, p);
    NeededLaterStep(env, s, act, p);
    NeededLastStep(env, s, act, p);
    if act != Land { PreparedStep(env, s, 0, act, p); }
  }

  lemma OverAlone(env: Env, db: Db, p: Publisher)
    requires p.phase == Landed || p.phase == Failed
    ensures PubAlone(env, db, p)
  {
  }

  lemma NothingAfter(env: Env, s: State, act: Action, p: Publisher)
    requires p.phase == Landed || p.phase == Failed
    ensures !ActEnabled(env, s, 0, act, Pub(p))
  {
  }

  lemma AloneStep(env: Env, db: Db, req: Request, s: State, act: Action)
    requires AloneInv(env, db, req, s) && Enabled(env, s, Act(0, act))
    ensures AloneInv(env, db, req, Apply(env, s, Act(0, act)))
  {
    var p := s.procs[0].pub;
    if p.phase == Landed || p.phase == Failed {
      NothingAfter(env, s, act, p);
    } else if act == Rollback {
      OverAlone(env, db, PubStep(env, s, act, p));
    } else {
      PubAloneStep(env, s, act, p);
    }
  }

  lemma {:induction false} AloneHolds(env: Env, r: Run, db: Db, req: Request, n: nat)
    requires Alone(env, r, db, Pub(FreshPub(req))) && 0 < n < |r.states|
    ensures AloneInv(env, db, req, r.states[n])
  {
    assert StepAt(env, r, n - 1);
    if n > 1 {
      AloneHolds(env, r, db, req, n - 1);
      AloneStep(env, db, req, r.states[n - 1], r.events[n - 1].action);
    }
  }

  /** A publication that lands with nothing else going on was permitted, compared the head and
      the GC id as they are, and touches no guard. */
  lemma AloneNeeds(env: Env, r: Run, db: Db, req: Request, i: nat, p: Publisher)
    requires Alone(env, r, db, Pub(FreshPub(req))) && Lands(r, i, 0, p)
    ensures p.req == req && Permitted(env, db, req) && Current(db, req) && Unguarded(env, db, req, p.changes)
  {
    assert StepAt(env, r, i);
    AloneHolds(env, r, db, req, i);
  }

  // -------------------------------------------------------- a branch write

  /** No rule on the repository or on its origin, whose row is well formed. */
  predicate RuleFree(env: Env, db: Db, repo: Repo)
  {
    OriginOk(env, repo) && RowsOf(db, repo) == [] && OriginRows(env, db, repo) == []
  }

  /** Left alone, a branch write lands if there is no rule ... */
  lemma WritesAlone(env: Env, db: Db, w: Writer) returns (r: Run)
    requires DbOk(db) && w.phase == Begun && RuleFree(env, db, w.repo)
    ensures Alone(env, r, db, Wr(w)) && Writes(r, |r.events| - 1, 0, Wr(w.(phase := ScopeHeld)))
  {
    r := Starts(env, db, Wr(w));
    r := Steps(env, r, db, Wr(w), Wr(w), LockHead);
    r := Steps(env, r, db, Wr(w), Wr(w.(phase := HeadHeld)), LockOwn);
    r := Steps(env, r, db, Wr(w), Wr(w.(phase := OwnHeld)), LockScope);
    r := Ends(env, r, db, Wr(w), Wr(w.(phase := ScopeHeld)));
  }

  ghost predicate WriterAloneInv(env: Env, db: Db, w: Writer, s: State)
  {
    && s.procs.Keys == {0} && s.procs[0].Wr? && s.procs[0].writer == w.(phase := s.procs[0].writer.phase)
    && (s.procs[0].writer.phase != Landed ==> s.db == db)
    && (From(s.procs[0].writer.phase, OwnHeld) ==> RowsOf(db, w.repo) == [])
    && (From(s.procs[0].writer.phase, ScopeHeld) ==> RuleFree(env, db, w.repo))
  }

  lemma WriterAloneStep(env: Env, db: Db, w: Writer, s: State, act: Action)
    requires WriterAloneInv(env, db, w, s) && Enabled(env, s, Act(0, act))
    ensures WriterAloneInv(env, db, w, Apply(env, s, Act(0, act)))
  {
    assert s.procs[0] == Wr(s.procs[0].writer);
  }

  lemma {:induction false} WriterAloneHolds(env: Env, r: Run, db: Db, w: Writer, n: nat)
    requires Alone(env, r, db, Wr(w)) && w.phase == Begun && 0 < n < |r.states|
    ensures WriterAloneInv(env, db, w, r.states[n])
  {
    assert StepAt(env, r, n - 1);
    if n > 1 {
      WriterAloneHolds(env, r, db, w, n - 1);
      WriterAloneStep(env, db, w, r.states[n - 1], r.events[n - 1].action);
    }
  }

  /** ... and only then. */
  lemma WriteNeeds(env: Env, r: Run, db: Db, w: Writer, i: nat, proc: Proc)
    requires Alone(env, r, db, Wr(w)) && w.phase == Begun && Writes(r, i, 0, proc)
    ensures RuleFree(env, db, w.repo)
  {
    assert StepAt(env, r, i);
    WriterAloneHolds(env, r, db, w, i);
  }
}
