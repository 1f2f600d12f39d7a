/** The two-way diff as it runs: two listing pointers advance in lockstep and
    change entries are prepended to one result list. */
module DiffRun {
  import opened Options
  import opened FsTree
  import opened Lockstep
  import opened DiffSpec
  import opened Renames

  lemma Regroup(es: seq<DiffEntry>, fs: seq<DiffEntry>, gs: seq<DiffEntry>)
    ensures (es + fs) + gs == es + (fs + gs)
  {
  }

  /** One round takes one row off the walk and leaves the rest. */
  lemma RoundSplit(fold: bool, basedir: string, t1: seq<Dirent>, t2: seq<Dirent>, w: Row)
    requires FirstName([], t1, t2) == Some(w.name) && w == Row(w.name, None, Take(t1, w.name), Take(t2, w.name))
    ensures DiffRows(fold, basedir, Rows([], t1, t2)) ==
            DiffRows(fold, basedir, Rows([], Drop(t1, w.name), Drop(t2, w.name))) + DiffRow(fold, basedir, w)
    ensures ListSize(t1) + ListSize(t2) == RowSize(w) + ListSize(Drop(t1, w.name)) + ListSize(Drop(t2, w.name))
    ensures |Drop(t1, w.name)| + |Drop(t2, w.name)| < |t1| + |t2|
    ensures w.h.Some? || w.r.Some?
  {
  }

  /** One name: what is below it, then its directory entry, then its file entry. */
  lemma RowParts(fold: bool, basedir: string, w: Row, rest: seq<DiffEntry>)
    requires !Unchanged(w)
    ensures (if RowRecurses(fold, w) then DiffTrees(fold, Below(basedir, w.name), Sub(w.h), Sub(w.r)) else [])
            + (DiffDirs(fold, basedir, AsDir(w.h), AsDir(w.r))
               + (DiffFiles(basedir, AsFile(w.h), AsFile(w.r)) + rest)) == DiffRow(fold, basedir, w) + rest
  {
    var below := if RowRecurses(fold, w) then DiffTrees(fold, Below(basedir, w.name), Sub(w.h), Sub(w.r)) else [];
    var dirs := DiffDirs(fold, basedir, AsDir(w.h), AsDir(w.r));
    var files := DiffFiles(basedir, AsFile(w.h), AsFile(w.r));
    Regroup(dirs, files, rest);
    Regroup(below, dirs + files, rest);
  }

  class DiffData {
    const store: set<Id>
    const foldDirDiff: bool
    var results: seq<DiffEntry>

    constructor (store: set<Id>, foldDirDiff: bool)
      ensures this.store == store && this.foldDirDiff == foldDirDiff && results == []
    {
      this.store, this.foldDirDiff, results := store, foldDirDiff, [];
    }

    method TwowayDiffFiles(basedir: string, f1: Option<Dirent>, f2: Option<Dirent>)
      requires f1.Some? || f2.Some?
      modifies this
      ensures results == DiffFiles(basedir, f1, f2) + old(results)
    {
      if f1.None? {
        results := [FromDirent(Added, f2.value, basedir)] + results;
        return;
      }
      if f2.None? {
        results := [FromDirent(Deleted, f1.value, basedir)] + results;
        return;
      }
      if !DirentSame(f1.value, f2.value) {
        var de := FromDirent(Modified, f2.value, basedir);
        de := de.(originSize := f1.value.meta.size);
        results := [de] + results;
      }
    }

    method TwowayDiffDirs(basedir: string, d1: Option<Dirent>, d2: Option<Dirent>) returns (recurse: bool)
      requires d1.Some? || d2.Some?
      modifies this
      ensures results == DiffDirs(foldDirDiff, basedir, d1, d2) + old(results)
      ensures recurse == DiffRecurses(foldDirDiff, d1, d2)
    {
      recurse := true;
      if d1.None? {
        if d2.value.id == Zero || foldDirDiff {
          results := [FromDirent(DirAdded, d2.value, basedir)] + results;
          recurse := false;
        } else {
          recurse := true;
        }
        return;
      }
      if d2.None? {
        results := [FromDirent(DirDeleted, d1.value, basedir)] + results;
        recurse := !foldDirDiff;
      }
    }

    /** diff_directories */
    method DiffDirectories(w: Row, basedir: string) returns (ok: bool)
      requires w.h.Some? ==> w.h.value.name == w.name
      requires w.r.Some? ==> w.r.value.name == w.name
      modifies this
      ensures ok ==>
        results == (if RowRecurses(foldDirDiff, w)
                    then DiffTrees(foldDirDiff, Below(basedir, w.name), Sub(w.h), Sub(w.r)) else [])
                   + (DiffDirs(foldDirDiff, basedir, AsDir(w.h), AsDir(w.r)) + old(results))
      ensures (w.h.Some? ==> ListClosed(store, [w.h.value])) && (w.r.Some? ==> ListClosed(store, [w.r.value])) ==> ok
      decreases RowSize(w), 0
    {
      var d1 := if w.h.Some? && w.h.value.kind.Dir? then w.h else None;
      var d2 := if w.r.Some? && w.r.value.kind.Dir? then w.r else None;
      if d1.None? && d2.None? {
        return true;
      }
      var recurse := TwowayDiffDirs(basedir, d1, d2);
      if !recurse {
        return true;
      }
      var s1, s2: seq<Dirent> := [], [];
      var dirname := "";
      if d1.Some? {
        assert d1.value in [d1.value];
        var dir := ReadDir(store, d1.value.id);
        if dir.None? { return false; }
        s1, dirname := dir.value, d1.value.name;
      }
      if d2.Some? {
        assert d2.value in [d2.value];
        var dir := ReadDir(store, d2.value.id);
        if dir.None? { return false; }
        s2, dirname := dir.value, d2.value.name;
      }
      assert s1 == Sub(w.h) && s2 == Sub(w.r) && dirname == w.name;
      SubShrinks(w);
      ok := DiffTreesRecursive(s1, s2, basedir + dirname + "/");
    }

    /** diff_trees_recursive for two trees. */
    method DiffTreesRecursive(t1: seq<Dirent>, t2: seq<Dirent>, basedir: string) returns (ok: bool)
      modifies this
      ensures ok ==> results == DiffTrees(foldDirDiff, basedir, t1, t2) + old(results)
      ensures ListClosed(store, t1) && ListClosed(store, t2) ==> ok
      decreases ListSize(t1) + ListSize(t2), 2
    {
      var p1, p2 := t1, t2;
      ghost var rows := Rows([], t1, t2);
      while true
        invariant ListSize(p1) + ListSize(p2) <= ListSize(t1) + ListSize(t2)
        invariant DiffRows(foldDirDiff, basedir, rows) + old(results) ==
                  DiffRows(foldDirDiff, basedir, Rows([], p1, p2)) + results
        invariant ListClosed(store, t1) && ListClosed(store, t2) ==> ListClosed(store, p1) && ListClosed(store, p2)
        decreases |p1| + |p2|
      {
        var first := Larger(None, p1);
        first := Larger(first, p2);
        if first.None? {
          break;
        }
        var w := Row(first.value, None, Take(p1, first.value), Take(p2, first.value));
        RoundSplit(foldDirDiff, basedir, p1, p2, w);
        p1, p2 := Drop(p1, w.name), Drop(p2, w.name);
        ghost var before := results;
        if !(w.h.Some? && w.r.Some? && DirentSame(w.h.value, w.r.value)) {
          ok := DiffName(w, basedir);
          if !ok { return; }
        }
        assert results == DiffRow(foldDirDiff, basedir, w) + before;
        Regroup(DiffRows(foldDirDiff, basedir, Rows([], p1, p2)), DiffRow(foldDirDiff, basedir, w), before);
      }
      ok := true;
    }

    /** One round of the walk on a changed name: diff_files, then diff_directories. */
    method DiffName(w: Row, basedir: string) returns (ok: bool)
      requires !Unchanged(w)
      requires w.h.Some? ==> w.h.value.name == w.name
      requires w.r.Some? ==> w.r.value.name == w.name
      modifies this
      ensures ok ==> results == DiffRow(foldDirDiff, basedir, w) + old(results)
      ensures (w.h.Some? ==> ListClosed(store, [w.h.value])) && (w.r.Some? ==> ListClosed(store, [w.r.value])) ==> ok
      decreases RowSize(w), 1
    {
      var f1 := if w.h.Some? && w.h.value.kind.File? then w.h else None;
      var f2 := if w.r.Some? && w.r.value.kind.File? then w.r else None;
      if f1.Some? || f2.Some? {
        TwowayDiffFiles(basedir, f1, f2);
      }
      assert results == DiffFiles(basedir, AsFile(w.h), AsFile(w.r)) + old(results);
      RowParts(foldDirDiff, basedir, w, old(results));
      ok := DiffDirectories(w, basedir);
    }

    /** diff_commit_roots: diff the two roots, then resolve renames. */
    method DiffCommitRoots(root1: Id, root2: Id) returns (ok: bool)
      requires results == []
      modifies this
      ensures ok ==> Resolves(DiffTrees(foldDirDiff, "", Entries(root1), Entries(root2)), results)
      ensures Closed(store, root1) && Closed(store, root2) ==> ok
    {
      var t1 := ReadDir(store, root1);
      if t1.None? { return false; }
      var t2 := ReadDir(store, root2);
      if t2.None? { return false; }
      ok := DiffTreesRecursive(t1.value, t2.value, "");
      if !ok { return; }
      assert results == DiffTrees(foldDirDiff, "", Entries(root1), Entries(root2));
      results := ResolveRenames(results);
    }
  }
}
