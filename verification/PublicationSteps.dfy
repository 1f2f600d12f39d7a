/** The methods that a publisher calls do what the steps of the protocol say: preparation,
    the check of the guards and the proof of the rows.
 */
module PublicationSteps {
  import opened Options
  import opened FsTree
  import opened AclProof
  import opened EditFence
  import opened Publication
  import opened PublicationAlone

  function RootOf(env: Env, commit: Commit): Option<Id>
  {
    if commit in env.roots then Some(env.roots[commit]) else None
  }

  /** The policy asks for no comparison of the two commits. */
  predicate NothingToCompare(env: Env, req: Request)
  {
    env.policy(req.repo).Off? || (env.policy(req.repo).Optional? && req.oldId == req.newId)
  }

  ghost predicate BothReadable(env: Env, store: set<Id>, req: Request)
  {
    Readable(store, RootOf(env, req.oldId)) && Readable(store, RootOf(env, req.newId))
  }

  /** Preparation yields the changes that the step Prepare allows, whenever the trees can be
      read; with nothing to compare these are the only ones. */
  method PrepareFor(env: Env, guardAvailable: bool, store: set<Id>, req: Request) returns (prepared: Option<Candidate>)
    ensures prepared.Some? ==>
      && prepared.value == Candidate(req.repo, req.oldId, req.newId, prepared.value.changes)
      && PreparedOk(env, req, prepared.value.changes)
    ensures NothingToCompare(env, req) ==>
      prepared.Some? && forall changes :: PreparedOk(env, req, changes) <==> changes == prepared.value.changes
    ensures env.policy(req.repo).Invalid? ==> prepared.None? && forall changes :: !PreparedOk(env, req, changes)
    ensures env.policy(req.repo).Optional? && guardAvailable && BothReadable(env, store, req) ==> prepared.Some?
  {
    prepared := PrepareUnscopedBranch(env.policy(req.repo), guardAvailable, store, req.repo, req.oldId, req.newId,
                                      RootOf(env, req.oldId), RootOf(env, req.newId));
  }

  /** The guards can be read. */
  predicate GuardsReadable(guardAvailable: bool, rows: Option<seq<Option<string>>>, utf8: string -> bool)
  {
    && guardAvailable && rows.Some? && |rows.value| <= 8192
    && forall i :: 0 <= i < |rows.value| ==> GuardOk(rows.value[i], utf8)
  }

  /** The check under the lock passes exactly when the step LockGuards is enabled for the
      candidate, as far as the guards can be read. */
  method CheckFor(env: Env, db: Db, guardAvailable: bool, rows: Option<seq<Option<string>>>, utf8: string -> bool,
                  req: Request, prepared: Candidate) returns (ok: bool)
    requires rows.Some? ==> forall g :: Some(g) in rows.value <==> g in GuardsOf(db, req.repo)
    ensures ok <==>
      && prepared == Candidate(req.repo, req.oldId, req.newId, prepared.changes)
      && !env.policy(req.repo).Invalid? && Untouched(env, db, req, prepared.changes)
      && (env.policy(req.repo).Optional? ==> GuardsReadable(guardAvailable, rows, utf8))
  {
    ok := CheckUnscopedBranch(env.policy(req.repo), guardAvailable, rows, utf8, req.repo, req.oldId, req.newId,
                              prepared);
  }

  /** Database rows that are all complete are the rows of the table. */
  ghost predicate ReadsTo(answer: Option<seq<DbRow>>, rows: seq<AclRow>)
  {
    answer.Some? && AllComplete(answer.value) ==> ParseAll(answer.value) == rows
  }

  /** The proof succeeds only where the steps ReadOwn and ReadOrigin are enabled, its bytes are
      the encoding of the scope, and it reports rules exactly when there is one. */
  method ProofFor(env: Env, db: Db, repo: Repo, rows: Option<seq<DbRow>>, origins: Option<seq<string>>,
                  originRows: Option<seq<DbRow>>) returns (ok: bool, bytes: string, isProtected: bool)
    requires rows.Some? ==> forall i :: 0 <= i < |rows.value| ==> |rows.value[i].columns| == 6
    requires originRows.Some? ==> forall i :: 0 <= i < |originRows.value| ==> |originRows.value[i].columns| == 6
    requires ReadsTo(rows, RowsOf(db, repo)) && ReadsTo(originRows, OriginRows(env, db, repo))
    requires origins.Some? ==> origins.value == if repo in env.origin then [env.origin[repo]] else []
    ensures ok ==>
      && |repo| == ID_LENGTH && OriginOk(env, repo)
      && |RowsOf(db, repo)| <= 4096 && |OriginRows(env, db, repo)| <= 4096
      && bytes == Encode(ScopeOf(env, db, repo))
      && (isProtected <==> RowsOf(db, repo) != [] || OriginRows(env, db, repo) != [])
  {
    ok, bytes, isProtected := Proof(repo, rows, origins, originRows);
  }
}
