/** Head publication as a protocol: any number of publishers, branch writers and
    ACL writers interleave their database steps.

    A publisher first works without locks: it takes a proof of the ACL rows, asks
    the Hub and computes the candidate's changes.  Then, in one transaction, it
    locks the GC id, the branch row, the ACL rows and the guards in this order,
    comparing each with what it saw, and lands.  A lock stays with its transaction
    until that lands or rolls back.  A landed transaction whose acknowledgement was
    lost is a landed one here: the state is what counts.
 */
module Publication {
  import opened Options
  import opened FsTree
  import opened AclProof
  import opened DiffSpec
  import opened Renames
  import opened EditFence

  type Repo = string
  type Commit = string
  type Pid = nat

  const MASTER := "master"

  datatype Lock = GcLock(repo: Repo) | BranchLock(repo: Repo, name: string) | AclLock(repo: Repo)
                | GuardLock(repo: Repo)

  /** The tables the protocol reads and writes. */
  datatype Db = Db(heads: map<(Repo, string), Commit>, acl: map<Repo, seq<AclRow>>,
                   gc: map<Repo, string>, guards: map<Repo, set<string>>)

  function RowsOf(db: Db, repo: Repo): seq<AclRow>
  {
    if repo in db.acl then db.acl[repo] else []
  }

  function GcOf(db: Db, repo: Repo): Option<string>
  {
    if repo in db.gc then Some(db.gc[repo]) else None
  }

  function HeadOf(db: Db, repo: Repo, name: string): Option<Commit>
  {
    if (repo, name) in db.heads then Some(db.heads[(repo, name)]) else None
  }

  function GuardsOf(db: Db, repo: Repo): set<string>
  {
    if repo in db.guards then db.guards[repo] else {}
  }

  /** What does not change during a run: the origin of virtual libraries, the Hub's
      decision on the rows it reads, the digest, the root of every commit, and the
      checkout policy. */
  datatype Env = Env(origin: map<Repo, Repo>, hub: (seq<AclRow>, Repo, Commit, Commit) -> bool,
                     digest: string -> string, roots: map<Commit, Id>, policy: Repo -> Policy)

  // -------------------------------------------------------------- processes

  datatype Request = Request(repo: Repo, name: string, oldId: Commit, newId: Commit,
                             checkGc: bool, lastGc: Option<string>, gcRepo: Repo)

  datatype Phase = Begun | OwnRead | Proved | Cleared | Prepared
                 | GcHeld | HeadHeld | OwnHeld | ScopeHeld | GuardHeld | Landed | Failed

  /** `seen` is the scope read without locks, `current` the one read under locks;
      `hubRows` are the rows in force when the Hub decided. */
  datatype Publisher = Publisher(req: Request, phase: Phase, seen: Scope, hubRows: Option<seq<AclRow>>,
                                 changes: seq<DiffEntry>, current: Scope, guards: set<string>)

  datatype BranchOp = AddBranch | DelBranch | UpdateBranch

  datatype Writer = Writer(op: BranchOp, repo: Repo, name: string, commit: Commit, phase: Phase)

  datatype AclWriter = AclWriter(repo: Repo, rows: seq<AclRow>, phase: Phase)

  datatype Proc = Pub(pub: Publisher) | Wr(writer: Writer) | Acl(acl: AclWriter)

  /** `locks` says which transactions hold which locks. */
  datatype State = State(db: Db, locks: set<(Lock, Pid)>, procs: map<Pid, Proc>)

  datatype Action =
    | ReadOwn | ReadOrigin | AskHub | Prepare(changes: seq<DiffEntry>)
    | LockGc | LockHead | LockOwn | LockScope | LockGuards | Land
    | Rollback

  datatype Event =
    | Spawn(pid: Pid, proc: Proc)
    | Act(pid: Pid, action: Action)
    | SetGc(repo: Repo, id: string) | AddGuard(repo: Repo, path: string) | DropGuard(repo: Repo, path: string)

  function Rank(p: Phase): nat
  {
    match p
    case Begun => 0 case OwnRead => 1 case Proved => 2 case Cleared => 3 case Prepared => 4 case GcHeld => 5
    case HeadHeld => 6 case OwnHeld => 7 case ScopeHeld => 8 case GuardHeld => 9 case Landed => 10 case Failed => 11
  }

  /** In one of the phases from `a` on, and neither landed nor failed. */
  predicate From(p: Phase, a: Phase)
  {
    Rank(a) <= Rank(p) <= 9
  }

  function PhaseOf(proc: Proc): Phase
  {
    match proc
    case Pub(p) => p.phase
    case Wr(w) => w.phase
    case Acl(a) => a.phase
  }

  /** No other transaction holds the lock. */
  ghost predicate CanLock(s: State, pid: Pid, l: Lock)
  {
    forall q :: (l, q) in s.locks ==> q == pid
  }

  ghost predicate Unlocked(s: State, l: Lock)
  {
    forall q :: (l, q) !in s.locks
  }

  /** Locking rows that may not be there. With no row to lock it is a lock on a gap, which
      any number of transactions may hold; it only keeps others from inserting. */
  ghost predicate CanLockRows(s: State, pid: Pid, repo: Repo)
  {
    RowsOf(s.db, repo) == [] || CanLock(s, pid, AclLock(repo))
  }

  ghost predicate CanLockGc(s: State, pid: Pid, repo: Repo)
  {
    GcOf(s.db, repo).None? || CanLock(s, pid, GcLock(repo))
  }

  ghost predicate CanLockGuards(s: State, pid: Pid, repo: Repo)
  {
    GuardsOf(s.db, repo) == {} || CanLock(s, pid, GuardLock(repo))
  }

  function Released(locks: set<(Lock, Pid)>, pid: Pid): set<(Lock, Pid)>
  {
    set x | x in locks && x.1 != pid
  }

  /** The prepared changes are the resolved diff of the two commits, as
      PrepareUnscopedBranch ensures. */
  ghost predicate PreparedOk(env: Env, req: Request, changes: seq<DiffEntry>)
  {
    match env.policy(req.repo)
    case Invalid => false
    case Off => changes == []
    case Optional =>
      if req.oldId == req.newId then changes == []
      else
        && req.oldId in env.roots && req.newId in env.roots
        && Resolves(DiffTrees(false, "", Entries(env.roots[req.oldId]), Entries(env.roots[req.newId])), changes)
  }

  predicate ProofReadable(rows: seq<AclRow>)
  {
    |rows| <= MAX_ROWS
  }

  /** The origin of a virtual library, if its row is well formed. */
  predicate OriginOk(env: Env, repo: Repo)
  {
    repo in env.origin ==> |env.origin[repo]| == ID_LENGTH && env.origin[repo] != repo
  }

  function OriginOf(env: Env, repo: Repo): Option<Repo>
  {
    if repo in env.origin then Some(env.origin[repo]) else None
  }

  function OriginRows(env: Env, db: Db, repo: Repo): seq<AclRow>
  {
    if repo in env.origin then RowsOf(db, env.origin[repo]) else []
  }

  // ------------------------------------------------------------ publishers

  ghost predicate PubEnabled(env: Env, s: State, pid: Pid, act: Action, p: Publisher)
  {
    var req := p.req;
    match act
    case ReadOwn => p.phase == Begun && |req.repo| == ID_LENGTH && ProofReadable(RowsOf(s.db, req.repo))
    case ReadOrigin => p.phase == OwnRead && OriginOk(env, req.repo) && ProofReadable(OriginRows(env, s.db, req.repo))
    case AskHub =>
      p.phase == Proved &&
      (AclProof.Protected(p.seen) ==>
         req.repo !in env.origin && env.hub(RowsOf(s.db, req.repo), req.repo, req.oldId, req.newId))
    case Prepare(changes) => p.phase == Cleared && PreparedOk(env, req, changes)
    case LockGc =>
      p.phase == Prepared && (req.checkGc ==> CanLockGc(s, pid, req.gcRepo) && GcOf(s.db, req.gcRepo) == req.lastGc)
    case LockHead =>
      && p.phase == GcHeld && CanLock(s, pid, BranchLock(req.repo, req.name))
      && HeadOf(s.db, req.repo, req.name) == Some(req.oldId)
    case LockOwn =>
      p.phase == HeadHeld && CanLockRows(s, pid, req.repo) && ProofReadable(RowsOf(s.db, req.repo))
    case LockScope =>
      && p.phase == OwnHeld && OriginOk(env, req.repo) && ProofReadable(OriginRows(env, s.db, req.repo))
      && (req.repo in env.origin ==> CanLockRows(s, pid, env.origin[req.repo]))
      && env.digest(Encode(p.seen)) == env.digest(Encode(ScopeNow(env, s.db, p)))
    case LockGuards =>
      && p.phase == ScopeHeld && !env.policy(req.repo).Invalid?
      && (env.policy(req.repo).Optional? ==>
            && CanLockGuards(s, pid, req.repo)
            && (forall e, g :: e in p.changes && g in GuardsOf(s.db, req.repo) ==> !EntryTouches(e, g)))
    case Land => p.phase == GuardHeld
    case _ => false
  }

  /** The scope as the second proof reads it: own rows were read one step before. */
  function ScopeNow(env: Env, db: Db, p: Publisher): Scope
  {
    Scope(p.req.repo, p.current.rows, OriginOf(env, p.req.repo), OriginRows(env, db, p.req.repo))
  }

  function PubStep(env: Env, s: State, act: Action, p: Publisher): Publisher
  {
    var req := p.req;
    match act
    case ReadOwn => p.(phase := OwnRead, seen := Scope(req.repo, RowsOf(s.db, req.repo), None, []))
    case ReadOrigin =>
      p.(phase := Proved,
         seen := Scope(req.repo, p.seen.rows, OriginOf(env, req.repo), OriginRows(env, s.db, req.repo)))
    case AskHub =>
      p.(phase := Cleared, hubRows := if AclProof.Protected(p.seen) then Some(RowsOf(s.db, req.repo)) else None)
    case Prepare(changes) => p.(phase := Prepared, changes := changes)
    case LockGc => p.(phase := GcHeld)
    case LockHead => p.(phase := HeadHeld)
    case LockOwn => p.(phase := OwnHeld, current := Scope(req.repo, RowsOf(s.db, req.repo), None, []))
    case LockScope => p.(phase := ScopeHeld, current := ScopeNow(env, s.db, p))
    case LockGuards => p.(phase := GuardHeld, guards := GuardsOf(s.db, req.repo))
    case Land => p.(phase := Landed)
    case _ => p.(phase := Failed)
  }

  /** The locks a publisher's step takes. */
  function PubLocks(env: Env, act: Action, p: Publisher): set<Lock>
  {
    var req := p.req;
    match act
    case LockGc => if req.checkGc then {GcLock(req.gcRepo)} else {}
    case LockHead => {BranchLock(req.repo, req.name)}
    case LockOwn => {AclLock(req.repo)}
    case LockScope => if req.repo in env.origin then {AclLock(env.origin[req.repo])} else {}
    case LockGuards => if env.policy(req.repo).Optional? then {GuardLock(req.repo)} else {}
    case _ => {}
  }

  // -------------------------------------------------------- branch writers

  /** lock_acl_branch locks the master row if there is one. */
  ghost predicate MasterLockable(s: State, pid: Pid, repo: Repo)
  {
    (repo, MASTER) in s.db.heads ==> CanLock(s, pid, BranchLock(repo, MASTER))
  }

  function MasterLock(db: Db, repo: Repo): set<Lock>
  {
    if (repo, MASTER) in db.heads then {BranchLock(repo, MASTER)} else {}
  }

  ghost predicate WriterEnabled(env: Env, s: State, pid: Pid, act: Action, w: Writer)
  {
    match act
    case LockHead => w.phase == Begun && MasterLockable(s, pid, w.repo)
    case LockOwn => w.phase == HeadHeld && RowsOf(s.db, w.repo) == []
    case LockScope =>
      w.phase == OwnHeld && OriginOk(env, w.repo) &&
      (w.repo in env.origin ==> RowsOf(s.db, env.origin[w.repo]) == [])
    case Land => w.phase == ScopeHeld && CanLock(s, pid, BranchLock(w.repo, w.name))
    case _ => false
  }

  function WriterStep(act: Action, w: Writer): Writer
  {
    match act
    case LockHead => w.(phase := HeadHeld)
    case LockOwn => w.(phase := OwnHeld)
    case LockScope => w.(phase := ScopeHeld)
    case Land => w.(phase := Landed)
    case _ => w.(phase := Failed)
  }

  function WriterLocks(env: Env, db: Db, act: Action, w: Writer): set<Lock>
  {
    match act
    case LockHead => MasterLock(db, w.repo)
    case LockOwn => {AclLock(w.repo)}
    case LockScope => if w.repo in env.origin then {AclLock(env.origin[w.repo])} else {}
    case _ => {}
  }

  function WriterEffect(db: Db, w: Writer): Db
  {
    match w.op
    case AddBranch => db.(heads := db.heads[(w.repo, w.name) := w.commit])
    case DelBranch => db.(heads := db.heads - {(w.repo, w.name)})
    case UpdateBranch =>
      if (w.repo, w.name) in db.heads then db.(heads := db.heads[(w.repo, w.name) := w.commit]) else db
  }

  // ------------------------------------------------------------ ACL writers

  ghost predicate AclEnabled(s: State, pid: Pid, act: Action, a: AclWriter)
  {
    match act
    case LockHead => a.phase == Begun && MasterLockable(s, pid, a.repo)
    case LockOwn => a.phase == HeadHeld && CanLockRows(s, pid, a.repo)
    case Land => a.phase == OwnHeld && WfRows(a.rows) && CanLock(s, pid, AclLock(a.repo))
    case _ => false
  }

  function AclStep(act: Action, a: AclWriter): AclWriter
  {
    match act
    case LockHead => a.(phase := HeadHeld)
    case LockOwn => a.(phase := OwnHeld)
    case Land => a.(phase := Landed)
    case _ => a.(phase := Failed)
  }

  function AclLocks(db: Db, act: Action, a: AclWriter): set<Lock>
  {
    match act
    case LockHead => MasterLock(db, a.repo)
    case LockOwn => {AclLock(a.repo)}
    case _ => {}
  }

  // ------------------------------------------------------------- transitions

  ghost predicate ActEnabled(env: Env, s: State, pid: Pid, act: Action, proc: Proc)
  {
    if act == Rollback then From(PhaseOf(proc), Begun)
    else
      match proc
      case Pub(p) => PubEnabled(env, s, pid, act, p)
      case Wr(w) => WriterEnabled(env, s, pid, act, w)
      case Acl(a) => AclEnabled(s, pid, act, a)
  }

  ghost predicate Enabled(env: Env, s: State, ev: Event)
  {
    match ev
    case Spawn(pid, proc) => pid !in s.procs && PhaseOf(proc) == Begun
    case Act(pid, act) => pid in s.procs && ActEnabled(env, s, pid, act, s.procs[pid])
    case SetGc(repo, id) => Unlocked(s, GcLock(repo))
    case AddGuard(repo, path) => Unlocked(s, BranchLock(repo, MASTER)) && Unlocked(s, GuardLock(repo))
    case DropGuard(repo, path) => true
  }

  function ProcStep(env: Env, s: State, act: Action, proc: Proc): Proc
  {
    match proc
    case Pub(p) => Pub(PubStep(env, s, act, p))
    case Wr(w) => Wr(WriterStep(act, w))
    case Acl(a) => Acl(AclStep(act, a))
  }

  function StepLocks(env: Env, db: Db, act: Action, proc: Proc): set<Lock>
  {
    match proc
    case Pub(p) => PubLocks(env, act, p)
    case Wr(w) => WriterLocks(env, db, act, w)
    case Acl(a) => AclLocks(db, act, a)
  }

  function LandEffect(db: Db, proc: Proc): Db
  {
    match proc
    case Pub(p) => db.(heads := db.heads[(p.req.repo, p.req.name) := p.req.newId])
    case Wr(w) => WriterEffect(db, w)
    case Acl(a) => db.(acl := db.acl[a.repo := a.rows])
  }

  function ActApply(env: Env, s: State, pid: Pid, act: Action): State
    requires pid in s.procs
  {
    var proc := s.procs[pid];
    var procs := s.procs[pid := ProcStep(env, s, act, proc)];
    if act == Land then State(LandEffect(s.db, proc), Released(s.locks, pid), procs)
    else if act == Rollback then State(s.db, Released(s.locks, pid), procs)
    else State(s.db, s.locks + (set l | l in StepLocks(env, s.db, act, proc) :: (l, pid)), procs)
  }

  function Apply(env: Env, s: State, ev: Event): State
    requires ev.Act? ==> ev.pid in s.procs
  {
    match ev
    case Spawn(pid, proc) => s.(procs := s.procs[pid := proc])
    case Act(pid, act) => ActApply(env, s, pid, act)
    case SetGc(repo, id) => s.(db := s.db.(gc := s.db.gc[repo := id]))
    case AddGuard(repo, path) => s.(db := s.db.(guards := s.db.guards[repo := GuardsOf(s.db, repo) + {path}]))
    case DropGuard(repo, path) => s.(db := s.db.(guards := s.db.guards[repo := GuardsOf(s.db, repo) - {path}]))
  }

  // --------------------------------------------------------------- invariant

  ghost predicate Holds(s: State, pid: Pid, l: Lock)
  {
    (l, pid) in s.locks
  }

  /** What a publisher knows without locks, and from which phase on. */
  ghost predicate SeenInv(env: Env, p: Publisher)
  {
    && (From(p.phase, OwnRead) ==> OwnSeen(p.req, p.seen))
    && (From(p.phase, Proved) ==> OriginSeen(env, p.req, p.seen))
    && (From(p.phase, Cleared) ==> HubSeen(env, p.req, p.seen, p.hubRows))
  }

  ghost predicate PreparedInv(env: Env, p: Publisher)
  {
    From(p.phase, Prepared) ==> PreparedOk(env, p.req, p.changes)
  }

  ghost predicate OwnSeen(req: Request, seen: Scope)
  {
    seen.repo == req.repo && WfRows(seen.rows) && |req.repo| == ID_LENGTH
  }

  ghost predicate OriginSeen(env: Env, req: Request, seen: Scope)
  {
    && seen.origin == OriginOf(env, req.repo) && WfRows(seen.originRows) && OriginOk(env, req.repo)
    && (req.repo !in env.origin ==> seen.originRows == [])
  }

  ghost predicate HubSeen(env: Env, req: Request, seen: Scope, hubRows: Option<seq<AclRow>>)
  {
    AclProof.Protected(seen) ==>
      req.repo !in env.origin && hubRows.Some? && env.hub(hubRows.value, req.repo, req.oldId, req.newId)
  }

  ghost predicate GcInv(s: State, pid: Pid, p: Publisher)
  {
    From(p.phase, GcHeld) && p.req.checkGc ==>
      Holds(s, pid, GcLock(p.req.gcRepo)) && GcOf(s.db, p.req.gcRepo) == p.req.lastGc
  }

  ghost predicate HeadInv(s: State, pid: Pid, p: Publisher)
  {
    From(p.phase, HeadHeld) ==>
      Holds(s, pid, BranchLock(p.req.repo, p.req.name)) && HeadOf(s.db, p.req.repo, p.req.name) == Some(p.req.oldId)
  }

  ghost predicate OwnInv(s: State, pid: Pid, p: Publisher)
  {
    From(p.phase, OwnHeld) ==>
      Holds(s, pid, AclLock(p.req.repo)) && p.current.repo == p.req.repo && p.current.rows == RowsOf(s.db, p.req.repo)
  }

  ghost predicate ScopeInv(env: Env, s: State, pid: Pid, p: Publisher)
  {
    From(p.phase, ScopeHeld) ==>
      && (p.req.repo in env.origin ==> Holds(s, pid, AclLock(env.origin[p.req.repo])))
      && p.current.origin == OriginOf(env, p.req.repo) && p.current.originRows == OriginRows(env, s.db, p.req.repo)
      && env.digest(Encode(p.seen)) == env.digest(Encode(p.current))
  }

  ghost predicate GuardInv(env: Env, s: State, pid: Pid, p: Publisher)
  {
    From(p.phase, GuardHeld) ==>
      && !env.policy(p.req.repo).Invalid?
      && (env.policy(p.req.repo).Optional? ==>
            && Holds(s, pid, GuardLock(p.req.repo)) && GuardsOf(s.db, p.req.repo) <= p.guards
            && (forall e, g :: e in p.changes && g in p.guards ==> !EntryTouches(e, g)))
  }

  ghost predicate PubInv(env: Env, s: State, pid: Pid, p: Publisher)
  {
    SeenInv(env, p) && PreparedInv(env, p) && HeldInv(env, s, pid, p)
  }

  /** What a publisher has locked, and knows by it. */
  ghost predicate HeldInv(env: Env, s: State, pid: Pid, p: Publisher)
  {
    && GcInv(s, pid, p) && HeadInv(s, pid, p) && OwnInv(s, pid, p)
    && ScopeInv(env, s, pid, p) && GuardInv(env, s, pid, p)
  }

  ghost predicate WriterInv(env: Env, s: State, pid: Pid, w: Writer)
  {
    && (From(w.phase, OwnHeld) ==> Holds(s, pid, AclLock(w.repo)) && RowsOf(s.db, w.repo) == [])
    && (From(w.phase, ScopeHeld) && w.repo in env.origin ==>
          Holds(s, pid, AclLock(env.origin[w.repo])) && RowsOf(s.db, env.origin[w.repo]) == [])
  }

  ghost predicate AclInv(s: State, pid: Pid, a: AclWriter)
  {
    From(a.phase, OwnHeld) ==> Holds(s, pid, AclLock(a.repo))
  }

  ghost predicate ProcInv(env: Env, s: State, pid: Pid, proc: Proc)
  {
    match proc
    case Pub(p) => PubInv(env, s, pid, p)
    case Wr(w) => WriterInv(env, s, pid, w)
    case Acl(a) => AclInv(s, pid, a)
  }

  ghost predicate DbOk(db: Db)
  {
    forall r :: r in db.acl ==> WfRows(db.acl[r])
  }

  /** The lock on a branch row is never shared. */
  ghost predicate Exclusive(s: State)
  {
    forall l, p, q :: (l, p) in s.locks && (l, q) in s.locks && l.BranchLock? ==> p == q
  }

  ghost predicate Inv(env: Env, s: State)
  {
    DbOk(s.db) && Exclusive(s) && forall pid :: pid in s.procs ==> ProcInv(env, s, pid, s.procs[pid])
  }

  // ------------------------------------------------- what others cannot touch

  predicate SameItem(db: Db, db': Db, l: Lock)
  {
    match l
    case GcLock(r) => GcOf(db', r) == GcOf(db, r)
    case BranchLock(r, n) => HeadOf(db', r, n) == HeadOf(db, r, n)
    case AclLock(r) => RowsOf(db', r) == RowsOf(db, r)
    case GuardLock(r) => GuardsOf(db', r) <= GuardsOf(db, r)
  }

  /** `pid` keeps its locks, and what it has locked is not changed. */
  ghost predicate Keeps(s: State, s': State, pid: Pid)
  {
    forall l :: Holds(s, pid, l) ==> Holds(s', pid, l) && SameItem(s.db, s'.db, l)
  }

  /** A process that the step is not of keeps its part of the invariant. */
  lemma ProcFrame(env: Env, s: State, s': State, pid: Pid, proc: Proc)
    requires ProcInv(env, s, pid, proc) && Keeps(s, s', pid)
    ensures ProcInv(env, s', pid, proc)
  {
  }

  /** What a landing transaction changes it has locked, or nobody has. */
  lemma LandTouches(env: Env, s: State, pid: Pid, l: Lock)
    requires pid in s.procs && Exclusive(s) && ActEnabled(env, s, pid, Land, s.procs[pid])
    requires ProcInv(env, s, pid, s.procs[pid])
    requires !SameItem(s.db, LandEffect(s.db, s.procs[pid]), l)
    ensures CanLock(s, pid, l)
  {
    match s.procs[pid]
    case Pub(p) => PublisherTouches(env, s, pid, p, l);
    case Wr(w) => WriterTouches(env, s, pid, w, l);
    case Acl(a) =>
  }

  lemma PublisherTouches(env: Env, s: State, pid: Pid, p: Publisher, l: Lock)
    requires pid in s.procs && s.procs[pid] == Pub(p) && Exclusive(s) && ActEnabled(env, s, pid, Land, Pub(p))
    requires ProcInv(env, s, pid, Pub(p))
    requires !SameItem(s.db, LandEffect(s.db, Pub(p)), l)
    ensures CanLock(s, pid, l)
  {
  }

  lemma WriterTouches(env: Env, s: State, pid: Pid, w: Writer, l: Lock)
    requires pid in s.procs && s.procs[pid] == Wr(w) && Exclusive(s) && ActEnabled(env, s, pid, Land, Wr(w))
    requires ProcInv(env, s, pid, Wr(w))
    requires !SameItem(s.db, LandEffect(s.db, Wr(w)), l)
    ensures CanLock(s, pid, l)
  {
  }

  lemma ActKeeps(env: Env, s: State, pid: Pid, act: Action, other: Pid)
    requires pid in s.procs && Exclusive(s) && ActEnabled(env, s, pid, act, s.procs[pid])
    requires ProcInv(env, s, pid, s.procs[pid])
    requires other != pid
    ensures Keeps(s, ActApply(env, s, pid, act), other)
  {
    var s' := ActApply(env, s, pid, act);
    forall l | Holds(s, other, l) ensures Holds(s', other, l) && SameItem(s.db, s'.db, l) {
      if act == Land && !SameItem(s.db, s'.db, l) {
        LandTouches(env, s, pid, l);
      }
    }
  }

  /** A branch lock that a step takes was free. */
  lemma LocksFree(env: Env, s: State, pid: Pid, act: Action, l: Lock)
    requires pid in s.procs && act != Land && act != Rollback && ActEnabled(env, s, pid, act, s.procs[pid])
    ensures l in StepLocks(env, s.db, act, s.procs[pid]) && l.BranchLock? ==> CanLock(s, pid, l)
  {
  }

  lemma ExclusiveStep(env: Env, s: State, ev: Event)
    requires Exclusive(s) && Enabled(env, s, ev)
    ensures Exclusive(Apply(env, s, ev))
  {
    if ev.Act? && ev.action != Land && ev.action != Rollback {
      forall l
        ensures l in StepLocks(env, s.db, ev.action, s.procs[ev.pid]) && l.BranchLock? ==> CanLock(s, ev.pid, l)
      {
        LocksFree(env, s, ev.pid, ev.action, l);
      }
    }
  }

  lemma EnvKeeps(env: Env, s: State, ev: Event, pid: Pid)
    requires !ev.Act? && Enabled(env, s, ev)
    ensures Keeps(s, Apply(env, s, ev), pid)
  {
  }

  lemma ReadsWf(env: Env, db: Db, repo: Repo)
    requires DbOk(db)
    ensures WfRows(RowsOf(db, repo)) && WfRows(OriginRows(env, db, repo))
  {
  }

  /** A step without locks changes only what the publisher knows. */
  lemma FreeStep(env: Env, s: State, pid: Pid, act: Action, p: Publisher)
    requires act == ReadOwn || act == ReadOrigin || act == AskHub || act.Prepare?
    requires PubEnabled(env, s, pid, act, p) && SeenInv(env, p)
    requires WfRows(RowsOf(s.db, p.req.repo)) && WfRows(OriginRows(env, s.db, p.req.repo))
    ensures SeenInv(env, PubStep(env, s, act, p)) && Rank(PubStep(env, s, act, p).phase) <= Rank(Prepared)
  {
    match act {
      case ReadOwn => ReadOwnStep(env, s, pid, p);
      case ReadOrigin => ReadOriginStep(env, s, pid, p);
      case AskHub => AskHubStep(env, s, pid, p);
      case Prepare(changes) => SeenKept(env, p, p.(phase := Prepared, changes := changes));
    }
  }

  lemma PreparedStep(env: Env, s: State, pid: Pid, act: Action, p: Publisher)
    requires act != Land && act != Rollback && PubEnabled(env, s, pid, act, p) && PreparedInv(env, p)
    ensures PreparedInv(env, PubStep(env, s, act, p))
  {
  }

  /** Before the transaction there is nothing to hold. */
  lemma Unheld(env: Env, s: State, pid: Pid, p: Publisher)
    requires Rank(p.phase) <= Rank(Prepared)
    ensures HeldInv(env, s, pid, p)
  {
  }

  lemma ReadOwnStep(env: Env, s: State, pid: Pid, p: Publisher)
    requires PubEnabled(env, s, pid, ReadOwn, p) && WfRows(RowsOf(s.db, p.req.repo))
    ensures SeenInv(env, PubStep(env, s, ReadOwn, p))
  {
  }

  lemma ReadOriginStep(env: Env, s: State, pid: Pid, p: Publisher)
    requires PubEnabled(env, s, pid, ReadOrigin, p) && SeenInv(env, p) && WfRows(OriginRows(env, s.db, p.req.repo))
    ensures SeenInv(env, PubStep(env, s, ReadOrigin, p))
  {
  }

  lemma AskHubStep(env: Env, s: State, pid: Pid, p: Publisher)
    requires PubEnabled(env, s, pid, AskHub, p) && SeenInv(env, p)
    ensures SeenInv(env, PubStep(env, s, AskHub, p))
  {
  }

  /** Steps after the Hub's decision leave what was seen. */
  lemma SeenKept(env: Env, p: Publisher, p': Publisher)
    requires SeenInv(env, p) && From(p.phase, Cleared)
    requires p'.req == p.req && p'.seen == p.seen && p'.hubRows == p.hubRows
    ensures SeenInv(env, p')
  {
  }

  lemma GcKept(s: State, pid: Pid, p: Publisher, p': Publisher)
    requires GcInv(s, pid, p) && p'.req == p.req && From(p.phase, GcHeld)
    ensures GcInv(s, pid, p')
  {
  }

  lemma HeadKept(s: State, pid: Pid, p: Publisher, p': Publisher)
    requires HeadInv(s, pid, p) && p'.req == p.req && From(p.phase, HeadHeld)
    ensures HeadInv(s, pid, p')
  {
  }

  lemma OwnKept(s: State, pid: Pid, p: Publisher, p': Publisher)
    requires OwnInv(s, pid, p) && p'.req == p.req && From(p.phase, OwnHeld)
    requires p'.current.repo == p.current.repo && p'.current.rows == p.current.rows
    ensures OwnInv(s, pid, p')
  {
  }

  lemma ScopeKept(env: Env, s: State, pid: Pid, p: Publisher, p': Publisher)
    requires ScopeInv(env, s, pid, p) && p'.req == p.req && p'.seen == p.seen && p'.current == p.current
    requires From(p.phase, ScopeHeld)
    ensures ScopeInv(env, s, pid, p')
  {
  }

  /** Each locking step adds its own part of the invariant to the parts of the steps before. */
  lemma AfterGc(env: Env, s: State, pid: Pid, p: Publisher, p': Publisher)
    requires HeldInv(env, s, pid, p) && p.phase == Prepared && p' == p.(phase := GcHeld) && GcInv(s, pid, p')
    ensures HeldInv(env, s, pid, p')
  {
  }

  lemma AfterHead(env: Env, s: State, pid: Pid, p: Publisher, p': Publisher)
    requires HeldInv(env, s, pid, p) && p.phase == GcHeld && p' == p.(phase := HeadHeld) && HeadInv(s, pid, p')
    ensures HeldInv(env, s, pid, p')
  {
    GcKept(s, pid, p, p');
  }

  lemma AfterOwn(env: Env, s: State, pid: Pid, p: Publisher, p': Publisher)
    requires HeldInv(env, s, pid, p) && p.phase == HeadHeld
    requires p' == p.(phase := OwnHeld, current := p'.current) && OwnInv(s, pid, p')
    ensures HeldInv(env, s, pid, p')
  {
    GcKept(s, pid, p, p');
    HeadKept(s, pid, p, p');
  }

  lemma AfterScope(env: Env, s: State, pid: Pid, p: Publisher, p': Publisher)
    requires HeldInv(env, s, pid, p) && p.phase == OwnHeld
    requires p' == p.(phase := ScopeHeld, current := p'.current) && ScopeInv(env, s, pid, p')
    requires p'.current.repo == p.current.repo && p'.current.rows == p.current.rows
    ensures HeldInv(env, s, pid, p')
  {
    GcKept(s, pid, p, p');
    HeadKept(s, pid, p, p');
    OwnKept(s, pid, p, p');
  }

  lemma AfterGuards(env: Env, s: State, pid: Pid, p: Publisher, p': Publisher)
    requires HeldInv(env, s, pid, p) && p.phase == ScopeHeld
    requires p' == p.(phase := GuardHeld, guards := p'.guards) && GuardInv(env, s, pid, p')
    ensures HeldInv(env, s, pid, p')
  {
    GcKept(s, pid, p, p');
    HeadKept(s, pid, p, p');
    OwnKept(s, pid, p, p');
    ScopeKept(env, s, pid, p, p');
  }

  lemma LockGcStep(env: Env, s: State, s': State, pid: Pid, p: Publisher)
    requires PubEnabled(env, s, pid, LockGc, p) && s'.db == s.db
    requires p.req.checkGc ==> Holds(s', pid, GcLock(p.req.gcRepo))
    ensures p.phase == Prepared && GcInv(s', pid, p.(phase := GcHeld)) &&
            PubStep(env, s, LockGc, p) == p.(phase := GcHeld)
  {
  }

  lemma LockHeadStep(env: Env, s: State, s': State, pid: Pid, p: Publisher)
    requires PubEnabled(env, s, pid, LockHead, p) && s'.db == s.db
    requires Holds(s', pid, BranchLock(p.req.repo, p.req.name))
    ensures p.phase == GcHeld && HeadInv(s', pid, p.(phase := HeadHeld)) &&
            PubStep(env, s, LockHead, p) == p.(phase := HeadHeld)
  {
  }

  lemma LockOwnStep(env: Env, s: State, s': State, pid: Pid, p: Publisher)
    requires PubEnabled(env, s, pid, LockOwn, p) && s'.db == s.db && Holds(s', pid, AclLock(p.req.repo))
    ensures var p' := PubStep(env, s, LockOwn, p);
            p.phase == HeadHeld && p' == p.(phase := OwnHeld, current := p'.current) && OwnInv(s', pid, p')
  {
  }

  lemma LockScopeStep(env: Env, s: State, s': State, pid: Pid, p: Publisher)
    requires PubEnabled(env, s, pid, LockScope, p) && OwnInv(s', pid, p) && s'.db == s.db
    requires p.req.repo in env.origin ==> Holds(s', pid, AclLock(env.origin[p.req.repo]))
    ensures var p' := PubStep(env, s, LockScope, p);
            && p.phase == OwnHeld && p' == p.(phase := ScopeHeld, current := p'.current) && ScopeInv(env, s', pid, p')
            && p'.current.repo == p.current.repo && p'.current.rows == p.current.rows
  {
  }

  lemma LockGuardsStep(env: Env, s: State, s': State, pid: Pid, p: Publisher)
    requires PubEnabled(env, s, pid, LockGuards, p) && s'.db == s.db
    requires env.policy(p.req.repo).Optional? ==> Holds(s', pid, GuardLock(p.req.repo))
    ensures var p' := PubStep(env, s, LockGuards, p);
            p.phase == ScopeHeld && p' == p.(phase := GuardHeld, guards := p'.guards) && GuardInv(env, s', pid, p')
  {
  }

  /** A step that neither lands nor rolls back leaves the tables and adds locks. */
  lemma LockingKeeps(env: Env, s: State, pid: Pid, act: Action)
    requires pid in s.procs && act != Land && act != Rollback && ActEnabled(env, s, pid, act, s.procs[pid])
    ensures var s' := ActApply(env, s, pid, act);
            && s'.db == s.db && Keeps(s, s', pid)
            && forall l :: l in StepLocks(env, s.db, act, s.procs[pid]) ==> Holds(s', pid, l)
  {
  }

  /** The acting process establishes its own part of the invariant. */
  lemma PubActs(env: Env, s: State, pid: Pid, act: Action, p: Publisher)
    requires pid in s.procs && s.procs[pid] == Pub(p) && DbOk(s.db)
    requires ActEnabled(env, s, pid, act, Pub(p)) && PubInv(env, s, pid, p)
    ensures PubInv(env, ActApply(env, s, pid, act), pid, PubStep(env, s, act, p))
  {
    var s' := ActApply(env, s, pid, act);
    if act != Land && act != Rollback {
      LockingKeeps(env, s, pid, act);
      ProcFrame(env, s, s', pid, Pub(p));
      ReadsWf(env, s.db, p.req.repo);
      PubActsAfter(env, s, s', pid, act, p);
      PreparedStep(env, s, pid, act, p);
    } else {
      Finished(env, s', pid, PubStep(env, s, act, p));
    }
  }

  lemma Finished(env: Env, s: State, pid: Pid, p: Publisher)
    requires p.phase == Landed || p.phase == Failed
    ensures PubInv(env, s, pid, p)
  {
  }

  lemma PubActsAfter(env: Env, s: State, s': State, pid: Pid, act: Action, p: Publisher)
    requires act != Land && act != Rollback && PubEnabled(env, s, pid, act, p)
    requires SeenInv(env, p) && HeldInv(env, s', pid, p)
    requires s'.db == s.db && forall l :: l in PubLocks(env, act, p) ==> Holds(s', pid, l)
    requires WfRows(RowsOf(s.db, p.req.repo)) && WfRows(OriginRows(env, s.db, p.req.repo))
    ensures var p' := PubStep(env, s, act, p); SeenInv(env, p') && HeldInv(env, s', pid, p')
  {
    var p' := PubStep(env, s, act, p);
    match act
    case LockGc => LockGcStep(env, s, s', pid, p); AfterGc(env, s', pid, p, p'); SeenKept(env, p, p');
    case LockHead => LockHeadStep(env, s, s', pid, p); AfterHead(env, s', pid, p, p'); SeenKept(env, p, p');
    case LockOwn => LockOwnStep(env, s, s', pid, p); AfterOwn(env, s', pid, p, p'); SeenKept(env, p, p');
    case LockScope => LockScopeStep(env, s, s', pid, p); AfterScope(env, s', pid, p, p'); SeenKept(env, p, p');
    case LockGuards => LockGuardsStep(env, s, s', pid, p); AfterGuards(env, s', pid, p, p'); SeenKept(env, p, p');
    case _ => FreeStep(env, s, pid, act, p); Unheld(env, s', pid, p');
  }

  lemma WriterActs(env: Env, s: State, pid: Pid, act: Action, w: Writer)
    requires pid in s.procs && s.procs[pid] == Wr(w)
    requires ActEnabled(env, s, pid, act, Wr(w)) && WriterInv(env, s, pid, w)
    ensures WriterInv(env, ActApply(env, s, pid, act), pid, WriterStep(act, w))
  {
  }

  lemma AclActs(env: Env, s: State, pid: Pid, act: Action, a: AclWriter)
    requires pid in s.procs && s.procs[pid] == Acl(a)
    requires ActEnabled(env, s, pid, act, Acl(a)) && AclInv(s, pid, a)
    ensures AclInv(ActApply(env, s, pid, act), pid, AclStep(act, a))
  {
  }

  lemma ProcActs(env: Env, s: State, pid: Pid, act: Action)
    requires pid in s.procs && DbOk(s.db)
    requires ActEnabled(env, s, pid, act, s.procs[pid]) && ProcInv(env, s, pid, s.procs[pid])
    ensures var s' := ActApply(env, s, pid, act); ProcInv(env, s', pid, s'.procs[pid])
  {
    match s.procs[pid]
    case Pub(p) => PubActs(env, s, pid, act, p);
    case Wr(w) => WriterActs(env, s, pid, act, w);
    case Acl(a) => AclActs(env, s, pid, act, a);
  }

  lemma DbStep(env: Env, s: State, ev: Event)
    requires DbOk(s.db) && Enabled(env, s, ev)
    ensures DbOk(Apply(env, s, ev).db)
  {
  }

  /** Every step keeps the invariant. */
  lemma InvStep(env: Env, s: State, ev: Event)
    requires Inv(env, s) && Enabled(env, s, ev)
    ensures Inv(env, Apply(env, s, ev))
  {
    var s' := Apply(env, s, ev);
    DbStep(env, s, ev);
    ExclusiveStep(env, s, ev);
    forall pid | pid in s'.procs ensures ProcInv(env, s', pid, s'.procs[pid]) {
      if ev.Act? && pid == ev.pid {
        ProcActs(env, s, pid, ev.action);
      } else if pid in s.procs {
        assert s'.procs[pid] == s.procs[pid];
        if ev.Act? { ActKeeps(env, s, ev.pid, ev.action, pid); } else { EnvKeeps(env, s, ev, pid); }
        ProcFrame(env, s, s', pid, s.procs[pid]);
      } else {
        assert ev.Spawn? && s'.procs[pid] == ev.proc;
        BegunInv(env, s', pid, ev.proc);
      }
    }
  }

  lemma BegunInv(env: Env, s: State, pid: Pid, proc: Proc)
    requires PhaseOf(proc) == Begun
    ensures ProcInv(env, s, pid, proc)
  {
  }
}
