/** The preflight of a publication under rules: what it asks the Hub to allow. */
module Preflight {
  import opened Options
  import opened FsTree
  import opened DiffSpec
  import opened DiffExact
  import opened Renames
  import opened DiffRun
  import opened EditFence

  /** Permission to write one path. */
  datatype Check = Check(path: string, kind: Kind)

  const MAX_CHECKS := 4096

  function KindOfEntry(e: DiffEntry): Kind
  {
    if OfDir(e.status) then Dir else File
  }

  /** A rename with a new name. */
  predicate Moves(e: DiffEntry)
  {
    IsRename(e.status) && e.newName.Some? && e.newName.value != ""
  }

  /** The name an entry writes. */
  function Target(e: DiffEntry): string
  {
    if Moves(e) then e.newName.value else e.name
  }

  function ChecksOf(e: DiffEntry): seq<Check>
  {
    [Check("/" + Target(e), KindOfEntry(e))] +
    if Moves(e) && e.name != e.newName.value then [Check("/" + e.name, KindOfEntry(e))] else []
  }

  function AllChecks(es: seq<DiffEntry>): seq<Check>
  {
    if es == [] then [] else AllChecks(es[..|es| - 1]) + ChecksOf(es[|es| - 1])
  }

  /** Every path is canonical, and there are not too many before any entry. */
  ghost predicate Sendable(es: seq<DiffEntry>, canonical: string -> bool)
  {
    AllCanonical(AllChecks(es), canonical) && forall i :: 0 <= i < |es| ==> HasRoom(es[..i])
  }

  ghost predicate AllCanonical(checks: seq<Check>, canonical: string -> bool)
  {
    forall c :: c in checks ==> canonical(c.path)
  }

  ghost predicate HasRoom(es: seq<DiffEntry>)
  {
    |AllChecks(es)| < 4096
  }

  /** The checks for one entry, if its paths are canonical. */
  method EntryChecks(delta: DiffEntry, canonical: string -> bool) returns (ok: bool, checks: seq<Check>)
    ensures ok <==> AllCanonical(ChecksOf(delta), canonical)
    ensures ok ==> checks == ChecksOf(delta)
    ensures ok && (delta.newName == None || delta.newName == Some("")) ==>
              checks == [Check("/" + delta.name, KindOfEntry(delta))]
  {
    var kind :=
      if delta.status == DirAdded || delta.status == DirDeleted || delta.status == DirRenamed then Dir else File;
    var moves :=
      (delta.status == Renamed || delta.status == DirRenamed) && delta.newName.Some? && delta.newName.value != "";
    var target := if moves then delta.newName.value else delta.name;
    checks := [Check("/" + target, kind)];
    assert checks[0] in ChecksOf(delta);
    if !canonical("/" + target) {
      return false, checks;
    }
    if moves && delta.name != delta.newName.value {
      assert Check("/" + delta.name, kind) in ChecksOf(delta);
      if !canonical("/" + delta.name) {
        return false, checks;
      }
      checks := checks + [Check("/" + delta.name, kind)];
    }
    ok := true;
  }

  lemma ChecksSnoc(es: seq<DiffEntry>, i: nat)
    requires i < |es|
    ensures AllChecks(es[..i + 1]) == AllChecks(es[..i]) + ChecksOf(es[i])
  {
    assert es[..i + 1][..i] == es[..i];
  }

  lemma BadEntry(es: seq<DiffEntry>, e: DiffEntry, canonical: string -> bool)
    requires e in es && !AllCanonical(ChecksOf(e), canonical)
    ensures !Sendable(es, canonical)
  {
    var c :| c in ChecksOf(e) && !canonical(c.path);
    ChecksHave(es, e, c);
  }

  /** After `i` entries: their checks, all canonical, and room before every entry. */
  ghost predicate Gathered(es: seq<DiffEntry>, canonical: string -> bool, i: nat, checks: seq<Check>)
    requires i <= |es|
  {
    checks == AllChecks(es[..i]) && AllCanonical(checks, canonical) && forall j :: 0 <= j < i ==> HasRoom(es[..j])
  }

  lemma GatheredStep(es: seq<DiffEntry>, canonical: string -> bool, i: nat, checks: seq<Check>)
    requires i < |es| && Gathered(es, canonical, i, checks) && |checks| < MAX_CHECKS
    requires AllCanonical(ChecksOf(es[i]), canonical)
    ensures Gathered(es, canonical, i + 1, checks + ChecksOf(es[i]))
  {
    ChecksSnoc(es, i);
    assert HasRoom(es[..i]);
  }

  lemma GatheredAll(es: seq<DiffEntry>, canonical: string -> bool, checks: seq<Check>)
    requires Gathered(es, canonical, |es|, checks)
    ensures Sendable(es, canonical) && checks == AllChecks(es)
  {
    assert es[..|es|] == es;
  }

  lemma NoRoom(es: seq<DiffEntry>, canonical: string -> bool, i: nat)
    requires i < |es| && !HasRoom(es[..i])
    ensures !Sendable(es, canonical)
  {
  }

  /** The loop over the changes. */
  method CollectChecks(deltas: seq<DiffEntry>, canonical: string -> bool) returns (ok: bool, checks: seq<Check>)
    ensures ok <==> Sendable(deltas, canonical)
    ensures ok ==> checks == AllChecks(deltas)
  {
    checks := [];
    for i := 0 to |deltas|
      invariant Gathered(deltas, canonical, i, checks)
    {
      if |checks| >= MAX_CHECKS {
        NoRoom(deltas, canonical, i);
        return false, checks;
      }
      var more;
      ok, more := EntryChecks(deltas[i], canonical);
      if !ok {
        BadEntry(deltas, deltas[i], canonical);
        return;
      }
      GatheredStep(deltas, canonical, i, checks);
      checks := checks + more;
    }
    GatheredAll(deltas, canonical, checks);
    ok := true;
  }

  /** cf_v2_acl_preflight_scoped; `canonical` is its test of a path, `authorize` the Hub's
      answer to the list of checks. A commit that cannot be read has no root. */
  method PreflightScoped(actor: string, plain: bool, store: set<Id>, oldRoot: Option<Id>, newRoot: Option<Id>,
                         canonical: string -> bool, authorize: seq<Check> -> bool)
    returns (ok: bool, ghost changes: seq<DiffEntry>)
    ensures ok ==> actor != "" && plain && oldRoot.Some? && newRoot.Some?
    ensures ok || (actor != "" && plain && Readable(store, oldRoot) && Readable(store, newRoot)) ==>
      && Resolves(DiffTrees(false, "", Entries(oldRoot.value), Entries(newRoot.value)), changes)
      && (ok <==> Sendable(changes, canonical) && AllChecks(changes) != [] && authorize(AllChecks(changes)))
  {
    changes := [];
    if actor == "" || !plain || oldRoot.None? || newRoot.None? {
      return false, changes;
    }
    var data := new DiffData(store, false);
    ok := data.DiffCommitRoots(oldRoot.value, newRoot.value);
    changes := data.results;
    if !ok {
      return;
    }
    var checks;
    ok, checks := CollectChecks(data.results, canonical);
    ok := ok && checks != [] && authorize(checks);
  }

  // ------------------------------------------------------------ what is asked

  lemma {:induction false} ChecksHave(es: seq<DiffEntry>, e: DiffEntry, c: Check)
    requires e in es && c in ChecksOf(e)
    ensures c in AllChecks(es)
  {
    if e != es[|es| - 1] { ChecksHave(es[..|es| - 1], e, c); }
  }

  lemma {:induction false} ChecksFrom(es: seq<DiffEntry>, c: Check) returns (e: DiffEntry)
    requires c in AllChecks(es)
    ensures e in es && c in ChecksOf(e)
  {
    if c in ChecksOf(es[|es| - 1]) {
      e := es[|es| - 1];
    } else {
      e := ChecksFrom(es[..|es| - 1], c);
    }
  }

  /** Whatever changes at a path, the Hub is asked for that path and kind ... */
  lemma EveryChangeAsked(old1: seq<Dirent>, new1: seq<Dirent>, changes: seq<DiffEntry>, p: seq<string>, e: DiffEntry)
    requires WfPair(old1, new1) && Resolves(DiffTrees(false, "", old1, new1), changes)
    requires ChangedAt(false, "", old1, new1, p, e)
    ensures Check("/" + Spell(p), KindOfEntry(e)) in AllChecks(changes)
  {
    DiffComplete(false, "", old1, new1, p, e);
    EntryName(old1, new1, p, e);
    var q := DiffSound(false, "", old1, new1, e);
    EntryName(old1, new1, q, e);
    SpellStart(q);
    var c := RenameKeepsPath(DiffTrees(false, "", old1, new1), changes, e);
    ChecksHave(changes, c, Check("/" + Spell(p), KindOfEntry(e)));
  }

  lemma EntryName(t1: seq<Dirent>, t2: seq<Dirent>, p: seq<string>, e: DiffEntry)
    requires ChangedAt(false, "", t1, t2, p, e)
    ensures e.name == Spell(p) && !IsRename(e.status)
  {
    ChangesName(false, "" + Spell(p), Lookup(t1, p), Lookup(t2, p), e);
    assert "" + Spell(p) == Spell(p);
  }

  /** The change a check stands for. */
  lemma CheckAtom(e: DiffEntry, c: Check) returns (a: Atom)
    requires c in ChecksOf(e)
    ensures a in Expand1(e) && c == Check("/" + a.name, if OfDir(a.status) then Dir else File)
  {
    var n := if c == Check("/" + Target(e), KindOfEntry(e)) then Target(e) else e.name;
    a := if !IsRename(e.status) then Atom(e.status, e.id, e.name)
         else if Moves(e) && n == e.newName.value then Atom(if e.status == Renamed then Added else DirAdded, e.id, n)
         else Atom(if e.status == Renamed then Deleted else DirDeleted, e.id, n);
  }

  /** The unresolved change a check stands for. */
  lemma CheckEntry(input: seq<DiffEntry>, changes: seq<DiffEntry>, c: Check) returns (e: DiffEntry)
    requires Expand(changes) == Expand(input) && c in AllChecks(changes)
    ensures e in input && (!IsRename(e.status) ==> c == Check("/" + e.name, KindOfEntry(e)))
  {
    var delta := ChecksFrom(changes, c);
    var a := CheckAtom(delta, c);
    ExpandHas(changes, delta);
    e := ExpandFrom(input, a);
  }

  /** ... and it is asked for nothing else. */
  lemma NothingElseAsked(old1: seq<Dirent>, new1: seq<Dirent>, changes: seq<DiffEntry>, c: Check)
    returns (p: seq<string>, e: DiffEntry)
    requires WfPair(old1, new1) && Resolves(DiffTrees(false, "", old1, new1), changes) && c in AllChecks(changes)
    ensures LegalPath(p) && ChangedAt(false, "", old1, new1, p, e) && c == Check("/" + Spell(p), KindOfEntry(e))
  {
    e := CheckEntry(DiffTrees(false, "", old1, new1), changes, c);
    p := DiffSound(false, "", old1, new1, e);
    EntryName(old1, new1, p, e);
  }

  lemma AskedOnly(old1: seq<Dirent>, new1: seq<Dirent>, changes: seq<DiffEntry>, p: seq<string>, kind: Kind)
    returns (s: Status)
    requires WfPair(old1, new1) && Resolves(DiffTrees(false, "", old1, new1), changes) && LegalPath(p)
    requires Check("/" + Spell(p), kind) in AllChecks(changes)
    ensures CallsFor(false, Lookup(old1, p), Lookup(new1, p), s)
    ensures kind == if s == DirAdded || s == DirDeleted then Dir else File
  {
    var q, e := NothingElseAsked(old1, new1, changes, Check("/" + Spell(p), kind));
    assert Spell(q) == ("/" + Spell(q))[1..] == ("/" + Spell(p))[1..] == Spell(p);
    SpellInjective(p, q);
    s := e.status;
    StatusSound(false, "" + Spell(p), Lookup(old1, p), Lookup(new1, p), e);
  }

  lemma AskedAll(old1: seq<Dirent>, new1: seq<Dirent>, changes: seq<DiffEntry>, p: seq<string>, s: Status)
    requires WfPair(old1, new1) && Resolves(DiffTrees(false, "", old1, new1), changes) && LegalPath(p)
    requires CallsFor(false, Lookup(old1, p), Lookup(new1, p), s)
    ensures Check("/" + Spell(p), if s == DirAdded || s == DirDeleted then Dir else File) in AllChecks(changes)
  {
    var e := StatusComplete(false, "" + Spell(p), Lookup(old1, p), Lookup(new1, p), s);
    EveryChangeAsked(old1, new1, changes, p, e);
  }

  /** The permissions asked for a path, from the two entries there: for a file if one came,
      went or changed, for a directory if one went or an empty one came. */
  lemma AskedExact(old1: seq<Dirent>, new1: seq<Dirent>, changes: seq<DiffEntry>, p: seq<string>, kind: Kind)
    requires WfPair(old1, new1) && Resolves(DiffTrees(false, "", old1, new1), changes) && LegalPath(p)
    ensures Check("/" + Spell(p), kind) in AllChecks(changes) <==>
            if kind.File? then FileChanged(Lookup(old1, p), Lookup(new1, p))
            else DirChanged(Lookup(old1, p), Lookup(new1, p))
  {
    if Check("/" + Spell(p), kind) in AllChecks(changes) {
      var _ := AskedOnly(old1, new1, changes, p, kind);
    }
    var s := if kind.File? then (if CallsFor(false, Lookup(old1, p), Lookup(new1, p), Added) then Added
                                 else if CallsFor(false, Lookup(old1, p), Lookup(new1, p), Deleted) then Deleted
                                 else Modified)
             else if CallsFor(false, Lookup(old1, p), Lookup(new1, p), DirAdded) then DirAdded
             else DirDeleted;
    if CallsFor(false, Lookup(old1, p), Lookup(new1, p), s) { AskedAll(old1, new1, changes, p, s); }
  }
}
