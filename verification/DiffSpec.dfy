/** The two-way tree diff: what it lists, and that it lists exactly the changes. */
module DiffSpec {
  import opened Options
  import opened FsTree
  import opened Lockstep

  datatype Status = Added | Deleted | Modified | Renamed | DirAdded | DirDeleted | DirRenamed

  datatype DiffEntry = DiffEntry(status: Status, id: Id, name: string, newName: Option<string>, size: int,
                                 originSize: int)

  /** Same id, mode and modification time; this is what the diff compares. */
  predicate DirentSame(a: Dirent, b: Dirent)
  {
    a.id == b.id && a.kind == b.kind && a.meta.perm == b.meta.perm && a.meta.mtime == b.meta.mtime
  }

  function FromDirent(status: Status, d: Dirent, basedir: string): DiffEntry
  {
    DiffEntry(status, d.id, basedir + d.name, None, d.meta.size, 0)
  }

  /** twoway_diff_files */
  function DiffFiles(basedir: string, f1: Option<Dirent>, f2: Option<Dirent>): seq<DiffEntry>
  {
    if f1.None? then if f2.None? then [] else [FromDirent(Added, f2.value, basedir)]
    else if f2.None? then [FromDirent(Deleted, f1.value, basedir)]
    else if !DirentSame(f1.value, f2.value) then
      [FromDirent(Modified, f2.value, basedir).(originSize := f1.value.meta.size)]
    else []
  }

  /** twoway_diff_dirs: the entry for the directory itself. */
  function DiffDirs(fold: bool, basedir: string, d1: Option<Dirent>, d2: Option<Dirent>): seq<DiffEntry>
  {
    if d1.None? then
      if d2.Some? && (d2.value.id == Zero || fold) then [FromDirent(DirAdded, d2.value, basedir)] else []
    else if d2.None? then [FromDirent(DirDeleted, d1.value, basedir)]
    else []
  }

  /** twoway_diff_dirs: whether to look inside. */
  predicate DiffRecurses(fold: bool, d1: Option<Dirent>, d2: Option<Dirent>)
  {
    if d1.None? then d2.Some? && !(d2.value.id == Zero || fold)
    else d2.None? ==> !fold
  }

  lemma SubShrinks(w: Row)
    ensures AsDir(w.h).Some? || AsDir(w.r).Some? ==> ListSize(Sub(w.h)) + ListSize(Sub(w.r)) < RowSize(w)
  {
    SubSize(w.h);
    SubSize(w.r);
  }

  predicate Unchanged(w: Row)
  {
    w.h.Some? && w.r.Some? && DirentSame(w.h.value, w.r.value)
  }

  /** The entries for the name itself. */
  function DiffHere(fold: bool, basedir: string, w: Row): seq<DiffEntry>
  {
    DiffDirs(fold, basedir, AsDir(w.h), AsDir(w.r)) + DiffFiles(basedir, AsFile(w.h), AsFile(w.r))
  }

  predicate RowRecurses(fold: bool, w: Row)
  {
    var d1, d2 := AsDir(w.h), AsDir(w.r);
    (d1.Some? || d2.Some?) && DiffRecurses(fold, d1, d2)
  }

  /** The entries one name contributes, most recently found first. */
  function DiffRow(fold: bool, basedir: string, w: Row): seq<DiffEntry>
    decreases RowSize(w), 0, 0
  {
    if Unchanged(w) then []
    else
      var here := DiffHere(fold, basedir, w);
      if RowRecurses(fold, w) then
        SubShrinks(w);
        DiffTrees(fold, Below(basedir, w.name), Sub(w.h), Sub(w.r)) + here
      else here
  }

  function DiffRows(fold: bool, basedir: string, ws: seq<Row>): seq<DiffEntry>
    decreases RowsSize(ws), 1, |ws|
  {
    if ws == [] then [] else DiffRows(fold, basedir, ws[1..]) + DiffRow(fold, basedir, ws[0])
  }

  /** The diff of two listings, before rename resolution. */
  function DiffTrees(fold: bool, basedir: string, t1: seq<Dirent>, t2: seq<Dirent>): seq<DiffEntry>
    decreases ListSize(t1) + ListSize(t2), 2, 0
  {
    RowsConserveSize([], t1, t2);
    DiffRows(fold, basedir, Rows([], t1, t2))
  }

  lemma {:induction false} RowsKeep(fold: bool, basedir: string, ws: seq<Row>, w: Row, e: DiffEntry)
    requires w in ws && e in DiffRow(fold, basedir, w)
    ensures e in DiffRows(fold, basedir, ws)
  {
    if w != ws[0] { RowsKeep(fold, basedir, ws[1..], w, e); }
  }

  lemma {:induction false} RowsOrigin(fold: bool, basedir: string, ws: seq<Row>, e: DiffEntry) returns (w: Row)
    requires e in DiffRows(fold, basedir, ws)
    ensures w in ws && e in DiffRow(fold, basedir, w)
  {
    if e in DiffRow(fold, basedir, ws[0]) {
      w := ws[0];
    } else {
      w := RowsOrigin(fold, basedir, ws[1..], e);
    }
  }

  // ------------------------------------------------------- what a path holds

  /** The entry at a path of a tree. */
  function Lookup(es: seq<Dirent>, p: seq<string>): Option<Dirent>
    decreases |p|
  {
    if p == [] then None
    else
      var d := Find(es, p[0]);
      if |p| == 1 then d else Lookup(Sub(d), p[1..])
  }

  /** The path as the diff spells it: components joined by slashes. */
  function Spell(p: seq<string>): string
    requires p != []
  {
    if |p| == 1 then p[0] else p[0] + "/" + Spell(p[1..])
  }

  /** A file was changed if its id, its mode or its modification time was. */
  predicate FileDiffers(f1: Dirent, f2: Dirent)
  {
    f1.id != f2.id || f1.meta.perm != f2.meta.perm || f1.meta.mtime != f2.meta.mtime
  }

  /** The changes between the two entries of one path. A new directory is one if it is empty,
      or in a folded diff, which does not list what is inside. */
  function ChangesAt(fold: bool, name: string, o1: Option<Dirent>, o2: Option<Dirent>): set<DiffEntry>
  {
    var f1, f2, d1, d2 := AsFile(o1), AsFile(o2), AsDir(o1), AsDir(o2);
    (if f1.None? && f2.Some? then {DiffEntry(Added, f2.value.id, name, None, f2.value.meta.size, 0)}
     else if f1.Some? && f2.None? then {DiffEntry(Deleted, f1.value.id, name, None, f1.value.meta.size, 0)}
     else if f1.Some? && f2.Some? && FileDiffers(f1.value, f2.value) then
       {DiffEntry(Modified, f2.value.id, name, None, f2.value.meta.size, f1.value.meta.size)}
     else {})
    +
    (if d1.None? && d2.Some? && (d2.value.id == Zero || fold) then
       {DiffEntry(DirAdded, d2.value.id, name, None, d2.value.meta.size, 0)}
     else if d1.Some? && d2.None? then {DiffEntry(DirDeleted, d1.value.id, name, None, d1.value.meta.size, 0)}
     else {})
  }

  /** Names as the server stores them: non-empty and without a slash. */
  ghost predicate LegalNames(es: seq<Dirent>)
  {
    forall d :: d in es ==> d.name != "" && '/' !in d.name && (d.kind.Dir? ==> LegalId(d.id))
  }

  ghost predicate LegalId(id: Id)
  {
    id.Node? ==> forall d :: d in id.entries ==> d.name != "" && '/' !in d.name && (d.kind.Dir? ==> LegalId(d.id))
  }

  lemma LegalSub(o: Option<Dirent>)
    requires o.Some? ==> (o.value.kind.Dir? ==> LegalId(o.value.id))
    ensures LegalNames(Sub(o))
  {
  }
}
