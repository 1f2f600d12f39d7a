/** The edit fence: a publication that touches a guarded path is refused. */
module EditFence {
  import opened Options
  import opened Strings
  import opened FsTree
  import opened Lockstep
  import opened DiffSpec
  import opened DiffExact
  import opened Renames
  import opened DiffRun

  /** path_touches: the changed path is the guarded path or an ancestor of it. */
  predicate Touches(changed: Option<string>, guarded: string)
  {
    changed.Some? && changed.value != "" &&
    var name := if changed.value[0] == '/' then changed.value[1..] else changed.value;
    var absolute := "/" + name;
    absolute == guarded || (StartsWith(guarded, absolute) && |guarded| > |absolute| && guarded[|absolute|] == '/')
  }

  predicate EntryTouches(e: DiffEntry, guarded: string)
  {
    Touches(Some(e.name), guarded) || Touches(e.newName, guarded)
  }

  datatype Policy = Off | Optional | Invalid

  /** A guard row as read_guard_path accepts it. */
  predicate GuardOk(path: Option<string>, utf8: string -> bool)
  {
    path.Some? && path.value != "" && path.value[0] == '/' && |path.value| <= 4096 && utf8(path.value)
  }

  const MAX_GUARDS := 8192

  /** The guard paths read under the lock; None when a row is invalid or there are too many. */
  method ReadGuards(rows: seq<Option<string>>, utf8: string -> bool) returns (paths: Option<seq<string>>)
    ensures paths.Some? <==> |rows| <= MAX_GUARDS && forall i :: 0 <= i < |rows| ==> GuardOk(rows[i], utf8)
    ensures paths.Some? <==> |rows| <= 8192 && forall i :: 0 <= i < |rows| ==>
              && rows[i].Some? && 0 < |rows[i].value| <= 4096 && rows[i].value[0] == '/' && utf8(rows[i].value)
    ensures paths.Some? ==> |paths.value| == |rows| && forall i :: 0 <= i < |rows| ==> rows[i] == Some(paths.value[i])
  {
    var read: seq<string> := [];
    for i := 0 to |rows|
      invariant |read| == i <= MAX_GUARDS
      invariant forall j :: 0 <= j < i ==> GuardOk(rows[j], utf8) && rows[j] == Some(read[j])
    {
      if !GuardOk(rows[i], utf8) {
        return None;
      }
      if |read| >= MAX_GUARDS {
        return None;
      }
      read := read + [rows[i].value];
    }
    paths := Some(read);
  }

  /** What is prepared before the locks, for one repository and pair of commits. */
  datatype Candidate = Candidate(repo: string, oldId: string, newId: string, changes: seq<DiffEntry>)

  /** cf_v2_edit_check_unscoped_branch; `rows` is None when the query failed. */
  method CheckUnscopedBranch(policy: Policy, guardAvailable: bool, rows: Option<seq<Option<string>>>,
                             utf8: string -> bool,
                             repo: string, oldId: string, newId: string, prepared: Candidate) returns (ok: bool)
    ensures policy.Invalid? || prepared != Candidate(repo, oldId, newId, prepared.changes) ==> !ok
    ensures policy.Off? && prepared == Candidate(repo, oldId, newId, prepared.changes) ==> ok
    ensures policy.Optional? ==>
      (ok <==> && prepared == Candidate(repo, oldId, newId, prepared.changes)
               && guardAvailable && rows.Some? && |rows.value| <= MAX_GUARDS
               && (forall i :: 0 <= i < |rows.value| ==> GuardOk(rows.value[i], utf8))
               && (forall e, g :: e in prepared.changes && Some(g) in rows.value ==> !EntryTouches(e, g)))
  {
    if prepared.repo != repo || prepared.oldId != oldId || prepared.newId != newId {
      return false;
    }
    if !policy.Optional? {
      return policy.Off?;
    }
    var changes := prepared.changes;
    if !guardAvailable || rows.None? {
      return false;
    }
    var guards := ReadGuards(rows.value, utf8);
    if guards.None? {
      return false;
    }
    assert forall g :: g in guards.value <==> Some(g) in rows.value by {
      forall g ensures g in guards.value <==> Some(g) in rows.value {
        if g in guards.value {
          var i :| 0 <= i < |guards.value| && guards.value[i] == g;
          assert rows.value[i] == Some(g);
        }
        if Some(g) in rows.value {
          var i :| 0 <= i < |rows.value| && rows.value[i] == Some(g);
          assert guards.value[i] == g;
        }
      }
    }
    for i := 0 to |changes|
      invariant forall e, g :: e in changes[..i] && g in guards.value ==> !EntryTouches(e, g)
    {
      var delta := changes[i];
      for j := 0 to |guards.value|
        invariant forall g :: g in guards.value[..j] ==> !EntryTouches(delta, g)
      {
        if Touches(Some(delta.name), guards.value[j]) || Touches(delta.newName, guards.value[j]) {
          assert delta in changes && guards.value[j] in guards.value;
          return false;
        }
      }
      assert guards.value[..|guards.value|] == guards.value;
      assert changes[..i + 1] == changes[..i] + [delta];
    }
    assert changes[..|changes|] == changes;
    ok := true;
  }

  /** The commit was found and every directory of its tree is in the store. */
  ghost predicate Readable(store: set<Id>, root: Option<Id>)
  {
    root.Some? && Closed(store, root.value)
  }

  /** cf_v2_edit_prepare_unscoped_branch: the candidate's changes, computed before the locks.
      A commit that cannot be read has no root. */
  method PrepareUnscopedBranch(policy: Policy, guardAvailable: bool, store: set<Id>,
                               repo: string, oldId: string, newId: string, oldRoot: Option<Id>, newRoot: Option<Id>)
    returns (prepared: Option<Candidate>)
    ensures prepared.Some? ==> prepared.value == Candidate(repo, oldId, newId, prepared.value.changes)
    ensures policy.Invalid? ==> prepared.None?
    ensures policy.Off? || (policy.Optional? && oldId == newId) ==> prepared == Some(Candidate(repo, oldId, newId, []))
    ensures policy.Optional? && oldId != newId && prepared.Some? ==>
            && guardAvailable && oldRoot.Some? && newRoot.Some?
            && Resolves(DiffTrees(false, "", Entries(oldRoot.value), Entries(newRoot.value)), prepared.value.changes)
    ensures policy.Optional? && guardAvailable && Readable(store, oldRoot) && Readable(store, newRoot) ==>
              prepared.Some?
  {
    if policy.Invalid? {
      return None;
    }
    if policy.Off? || oldId == newId {
      return Some(Candidate(repo, oldId, newId, []));
    }
    if !guardAvailable || oldRoot.None? || newRoot.None? {
      return None;
    }
    var data := new DiffData(store, false);
    var ok := data.DiffCommitRoots(oldRoot.value, newRoot.value);
    prepared := if ok then Some(Candidate(repo, oldId, newId, data.results)) else None;
  }

  // ------------------------------------------------------------- the theorem

  /** No file on either side, or one with the same id, mode and modification time. */
  predicate SameFile(o1: Option<Dirent>, o2: Option<Dirent>)
  {
    var f1, f2 := AsFile(o1), AsFile(o2);
    && f1.Some? == f2.Some?
    && (f1.Some? ==>
          && f1.value.id == f2.value.id && f1.value.meta.perm == f2.value.meta.perm
          && f1.value.meta.mtime == f2.value.meta.mtime)
  }

  lemma {:induction false} ExpandHas(es: seq<DiffEntry>, e: DiffEntry)
    requires e in es
    ensures Expand1(e) <= Expand(es)
  {
    if e != es[0] { ExpandHas(es[1..], e); }
  }

  lemma {:induction false} ExpandFrom(es: seq<DiffEntry>, a: Atom) returns (e: DiffEntry)
    requires a in Expand(es)
    ensures e in es && a in Expand1(e)
  {
    if a in Expand1(es[0]) {
      e := es[0];
    } else {
      e := ExpandFrom(es[1..], a);
    }
  }

  predicate IsRename(s: Status)
  {
    s == Renamed || s == DirRenamed
  }

  predicate OfDir(s: Status)
  {
    s == DirAdded || s == DirDeleted || s == DirRenamed
  }

  lemma AtomNames(e: DiffEntry, a: Atom)
    requires a in Expand1(e) && a.name != ""
    ensures e.name == a.name || (IsRename(e.status) && e.newName == Some(a.name))
    ensures OfDir(e.status) == OfDir(a.status)
  {
  }

  /** Rename resolution hides no path: a change survives under its name or as a rename's end. */
  lemma RenameKeepsPath(input: seq<DiffEntry>, output: seq<DiffEntry>, e: DiffEntry) returns (c: DiffEntry)
    requires Expand(output) == Expand(input)
    requires e in input && !IsRename(e.status) && e.name != ""
    ensures c in output && (c.name == e.name || (IsRename(c.status) && c.newName == Some(e.name)))
    ensures OfDir(c.status) == OfDir(e.status)
  {
    var a := Atom(e.status, e.id, e.name);
    ExpandHas(input, e);
    assert Expand1(e) == multiset{a};
    c := ExpandFrom(output, a);
    AtomNames(c, a);
  }

  lemma {:induction false} SpellPrefix(p: seq<string>, n: nat)
    requires 0 < n < |p|
    ensures Spell(p) == Spell(p[..n]) + "/" + Spell(p[n..])
  {
    if n == 1 {
      assert p[..1] == [p[0]];
    } else {
      SpellPrefix(p[1..], n - 1);
      assert p[1..][..n - 1] == p[..n][1..] && p[1..][n - 1..] == p[n..];
      assert Spell(p[..n]) == p[0] + "/" + Spell(p[..n][1..]);
      assert Spell(p) == p[0] + "/" + (Spell(p[..n][1..]) + "/" + Spell(p[n..]));
      assert (p[0] + "/" + Spell(p[..n][1..])) + "/" + Spell(p[n..]) ==
             p[0] + "/" + (Spell(p[..n][1..]) + "/" + Spell(p[n..]));
    }
  }

  lemma TouchesSelf(s: string)
    requires s != "" && s[0] != '/'
    ensures Touches(Some(s), "/" + s)
  {
  }

  lemma TouchesBelow(s: string, rest: string)
    requires s != "" && s[0] != '/'
    ensures Touches(Some(s), "/" + (s + "/" + rest))
  {
  }

  lemma SpellStart(p: seq<string>)
    requires LegalPath(p)
    ensures Spell(p) != "" && Spell(p)[0] != '/'
  {
  }

  /** A change at a guarded path, or at an ancestor of it, touches the guard. */
  lemma PrefixTouches(p: seq<string>, n: nat)
    requires LegalPath(p) && 0 < n <= |p|
    ensures Touches(Some(Spell(p[..n])), "/" + Spell(p)) && Spell(p[..n]) != ""
  {
    var q := p[..n];
    SpellStart(q);
    if n < |p| {
      SpellPrefix(p, n);
      TouchesBelow(Spell(q), Spell(p[n..]));
    } else {
      assert q == p;
      TouchesSelf(Spell(p));
    }
  }

  /** A publication that passes the fence changes no file entry at a guarded path or
      at an ancestor of it, and removes no directory there: diff, rename resolution
      and touch test together miss nothing. */
  lemma FenceProtects(old1: seq<Dirent>, new1: seq<Dirent>, changes: seq<DiffEntry>, p: seq<string>, n: nat)
    requires WfPair(old1, new1) && Resolves(DiffTrees(false, "", old1, new1), changes)
    requires LegalPath(p) && 0 < n <= |p|
    requires forall e :: e in changes ==> !EntryTouches(e, "/" + Spell(p))
    ensures SameFile(Lookup(old1, p[..n]), Lookup(new1, p[..n]))
    ensures AsDir(Lookup(old1, p[..n])).Some? ==> AsDir(Lookup(new1, p[..n])).Some?
  {
    var q := p[..n];
    var name := "" + Spell(q);
    assert name == Spell(q);
    forall e | e in ChangesAt(false, name, Lookup(old1, q), Lookup(new1, q)) ensures false {
      DiffComplete(false, "", old1, new1, q, e);
      ChangesName(false, name, Lookup(old1, q), Lookup(new1, q), e);
      PrefixTouches(p, n);
      var c := RenameKeepsPath(DiffTrees(false, "", old1, new1), changes, e);
    }
    ChangesWitness(name, Lookup(old1, q), Lookup(new1, q));
  }

  lemma ChangesWitness(name: string, o1: Option<Dirent>, o2: Option<Dirent>)
    ensures ChangesAt(false, name, o1, o2) == {} ==> SameFile(o1, o2)
    ensures ChangesAt(false, name, o1, o2) == {} ==> (AsDir(o1).Some? ==> AsDir(o2).Some?)
  {
  }
}
