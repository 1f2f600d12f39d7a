/** The three-way tree merge as it runs: listing pointers advance in lockstep,
    merged entries are prepended, remote entries are renamed in place, and new
    directory objects are written to the store.
 */
module MergeRun {
  import opened Options
  import opened FsTree
  import opened Lockstep
  import opened MergeSpec
  import opened MergeTheorems
  import opened MergeLaws

  function Listing(tree: Option<seq<Dirent>>): seq<Dirent>
  {
    if tree.Some? then tree.value else []
  }

  // ----------------------------------------- what a name's directories contribute

  function DirPart(cn: ConflictNamer, basedir: string, b: Option<Dirent>, h: Option<Dirent>,
                   r: Option<Dirent>): seq<Dirent>
  {
    match MergeDirs(b, h, r)
    case Skip => []
    case Keep(d) => [d]
    case Recurse(d) => [d.(id := DirId(Merge(cn, Below(basedir, d.name), Sub(b), Sub(h), Sub(r))))]
  }

  predicate DirConflict(cn: ConflictNamer, basedir: string, b: Option<Dirent>, h: Option<Dirent>, r: Option<Dirent>)
  {
    var step := MergeDirs(b, h, r);
    step.Recurse? && Conflicts(cn, Below(basedir, step.dent.name), Sub(b), Sub(h), Sub(r))
  }

  predicate DirNamed(cn: ConflictNamer, basedir: string, b: Option<Dirent>, h: Option<Dirent>, r: Option<Dirent>)
  {
    var step := MergeDirs(b, h, r);
    step.Recurse? ==> Named(cn, Below(basedir, step.dent.name), Sub(b), Sub(h), Sub(r))
  }

  lemma RowSplit(cn: ConflictNamer, basedir: string, w: Row)
    ensures var f := MergeFiles(cn, basedir, w);
            && MergeRow(cn, basedir, w) == DirPart(cn, basedir, w.b, w.h, f.remote) + f.out
            && RowConflicts(cn, basedir, w) == (f.conflict || DirConflict(cn, basedir, w.b, w.h, f.remote))
            && RowNamed(cn, basedir, w) == (FilesNamed(cn, basedir, w) && DirNamed(cn, basedir, w.b, w.h, f.remote))
            && OptSize(f.remote) == OptSize(w.r)
  {
    RemoteAfterFiles(cn, basedir, w);
    var f := MergeFiles(cn, basedir, w);
    assert Sub(f.remote) == Sub(w.r);
  }

  lemma NoFiles(cn: ConflictNamer, basedir: string, w: Row)
    requires AsFile(w.b).None? && AsFile(w.h).None? && AsFile(w.r).None?
    ensures MergeFiles(cn, basedir, w) == FileStep([], w.r, false)
  {
  }

  // ---------------------------------------------------------- closed listings

  ghost predicate EntryClosed(store: set<Id>, o: Option<Dirent>)
  {
    o.Some? && o.value.kind.Dir? ==> Closed(store, o.value.id)
  }

  lemma ListClosedGrow(s: set<Id>, t: set<Id>, es: seq<Dirent>)
    requires s <= t && ListClosed(s, es)
    ensures ListClosed(t, es)
  {
    forall d | d in es && d.kind.Dir? ensures Closed(t, d.id) { ClosedMonotone(s, t, d.id); }
  }

  lemma SubsClosed(store: set<Id>, b: Option<Dirent>, h: Option<Dirent>, r: Option<Dirent>)
    ensures EntryClosed(store, b) ==> Closed(store, DirId(Sub(b)))
    ensures EntryClosed(store, h) ==> Closed(store, DirId(Sub(h)))
    ensures EntryClosed(store, r) ==> Closed(store, DirId(Sub(r)))
  {
  }

  lemma FilesClosed(cn: ConflictNamer, basedir: string, w: Row, store: set<Id>)
    ensures ListClosed(store, MergeFiles(cn, basedir, w).out)
    ensures EntryClosed(store, w.r) ==> EntryClosed(store, MergeFiles(cn, basedir, w).remote)
  {
  }

  /** One round takes one row off the walk and leaves the rest. */
  lemma RoundSplit(cn: ConflictNamer, basedir: string, b: seq<Dirent>, h: seq<Dirent>, r: seq<Dirent>, w: Row)
    requires FirstName(b, h, r) == Some(w.name)
    requires w == Row(w.name, Take(b, w.name), Take(h, w.name), Take(r, w.name))
    ensures var rest := Rows(Drop(b, w.name), Drop(h, w.name), Drop(r, w.name));
            && MergeRows(cn, basedir, Rows(b, h, r)) == MergeRows(cn, basedir, rest) + MergeRow(cn, basedir, w)
            && RowsConflict(cn, basedir, Rows(b, h, r)) ==
              (RowConflicts(cn, basedir, w) || RowsConflict(cn, basedir, rest))
            && RowsNamed(cn, basedir, Rows(b, h, r)) == (RowNamed(cn, basedir, w) && RowsNamed(cn, basedir, rest))
            && (Flat(cn, basedir, Rows(b, h, r)) ==> !DirStepOf(cn, basedir, w).Recurse? && Flat(cn, basedir, rest))
    ensures ListSize(b) + ListSize(h) + ListSize(r) ==
            RowSize(w) + ListSize(Drop(b, w.name)) + ListSize(Drop(h, w.name)) + ListSize(Drop(r, w.name))
    ensures |Drop(b, w.name)| + |Drop(h, w.name)| + |Drop(r, w.name)| < |b| + |h| + |r|
  {
    FirstNameBounds(b, h, r, w.name);
    var rest := Rows(Drop(b, w.name), Drop(h, w.name), Drop(r, w.name));
    assert Rows(b, h, r) == [w] + rest;
    assert Rows(b, h, r)[1..] == rest;
    assert w in Rows(b, h, r);
  }

  lemma RoundClosed(s: set<Id>, t: set<Id>, es: seq<Dirent>, n: string)
    requires s <= t && ListClosed(s, es)
    ensures EntryClosed(s, Take(es, n)) && ListClosed(t, Drop(es, n))
  {
    ListClosedGrow(s, t, es);
    forall d | d in Drop(es, n) ensures d in es {}
  }

  lemma Regroup(es: seq<Dirent>, fs: seq<Dirent>, gs: seq<Dirent>)
    ensures (es + fs) + gs == es + (fs + gs)
  {
  }

  /** What is still to merge and what is merged so far can be read from the store. */
  ghost predicate LevelClosed(s: set<Id>, h: seq<Dirent>, r: seq<Dirent>, merged: seq<Dirent>)
  {
    ListClosed(s, h) && ListClosed(s, r) && ListClosed(s, merged)
  }

  lemma RoundTakesClosed(s: set<Id>, h: seq<Dirent>, r: seq<Dirent>, merged: seq<Dirent>, n: string)
    requires LevelClosed(s, h, r, merged)
    ensures EntryClosed(s, Take(h, n)) && EntryClosed(s, Take(r, n))
  {
  }

  lemma RoundLevelClosed(s: set<Id>, t: set<Id>, h: seq<Dirent>, r: seq<Dirent>, merged: seq<Dirent>, row: seq<Dirent>,
                         n: string)
    requires s <= t && LevelClosed(s, h, r, merged) && ListClosed(t, row)
    ensures LevelClosed(t, Drop(h, n), Drop(r, n), row + merged)
  {
    RoundClosed(s, t, h, n);
    RoundClosed(s, t, r, n);
    ListClosedGrow(s, t, merged);
  }

  /** The options and the object store a merge works on. */
  class MergeSession {
    const namer: ConflictNamer
    const writable: Id -> bool
    var store: set<Id>
    var mergedRoot: Id
    var conflict: bool

    constructor (namer: ConflictNamer, writable: Id -> bool, store: set<Id>)
      ensures this.namer == namer && this.writable == writable && this.store == store
      ensures mergedRoot == Zero && !conflict
    {
      this.namer, this.writable, this.store := namer, writable, store;
      mergedRoot, conflict := Zero, false;
    }

    /** Nothing outside the merge makes it fail: every name can be generated and
        every object written. */
    ghost predicate Unfailing()
    {
      (forall dir, n, k :: namer(dir, n, k).Some?) && forall id :: writable(id)
    }

    /** seaf_dir_save: the empty directory and known objects are not written. */
    method SaveDir(es: seq<Dirent>) returns (ok: bool)
      modifies this`store
      ensures ok ==> store == old(store) + (if es == [] then {} else {DirId(es)})
      ensures !ok ==> store == old(store) && !writable(DirId(es))
      ensures ok ==> es == [] || DirId(es) in old(store) || writable(DirId(es))
    {
      var id := DirId(es);
      if id == Zero || id in store {
        return true;
      }
      if !writable(id) {
        return false;
      }
      store := store + {id};
      ok := true;
    }

    /** threeway_merge */
    method ThreewayMerge(w: Row, basedir: string, dentsIn: seq<Dirent>)
      returns (ok: bool, remote: Option<Dirent>, dents: seq<Dirent>)
      modifies this`conflict
      ensures ok ==>
        var step := MergeFiles(namer, basedir, w);
        && dents == step.out + dentsIn && remote == step.remote
        && conflict == (old(conflict) || step.conflict)
      ensures ok ==> FilesNamed(namer, basedir, w)
      ensures Unfailing() ==> ok
    {
      dents, remote := dentsIn, w.r;
      var b := if w.b.Some? && w.b.value.kind.File? then w.b else None;
      var h := if w.h.Some? && w.h.value.kind.File? then w.h else None;
      var r := if w.r.Some? && w.r.value.kind.File? then w.r else None;
      if h.Some? && r.Some? {
        if h.value.id == r.value.id {
          dents := [h.value] + dents;
        } else if b.Some? && b.value.id == h.value.id {
          dents := [r.value] + dents;
        } else if b.Some? && b.value.id == r.value.id {
          dents := [h.value] + dents;
        } else {
          var c := namer(basedir, r.value.name, File);
          if c.None? { return false, remote, dents; }
          remote := Some(r.value.(name := c.value));
          dents := [h.value] + dents;
          dents := [remote.value] + dents;
          conflict := true;
        }
      } else if b.Some? && h.None? && r.Some? {
        if b.value.id != r.value.id {
          if w.h.Some? {
            var c := namer(basedir, r.value.name, File);
            if c.None? { return false, remote, dents; }
            remote := Some(r.value.(name := c.value));
            dents := [remote.value] + dents;
            conflict := true;
          } else {
            dents := [r.value] + dents;
          }
        }
      } else if b.Some? && h.Some? && r.None? {
        if b.value.id != h.value.id {
          if w.r.Some? {
            var c := namer(basedir, w.r.value.name, Dir);
            if c.None? { return false, remote, dents; }
            remote := Some(w.r.value.(name := c.value));
            dents := [h.value] + dents;
            conflict := true;
          } else {
            dents := [h.value] + dents;
          }
        }
      } else if b.None? && h.None? && r.Some? {
        if w.h.None? {
          dents := [r.value] + dents;
        } else if w.b.Some? && w.b.value.id == w.h.value.id {
          dents := [r.value] + dents;
        } else {
          var c := namer(basedir, r.value.name, File);
          if c.None? { return false, remote, dents; }
          remote := Some(r.value.(name := c.value));
          dents := [remote.value] + dents;
          conflict := true;
        }
      } else if b.None? && h.Some? && r.None? {
        if w.r.None? {
          dents := [h.value] + dents;
        } else if w.b.Some? && w.b.value.id == w.r.value.id {
          dents := [h.value] + dents;
        } else {
          var c := namer(basedir, w.r.value.name, Dir);
          if c.None? { return false, remote, dents; }
          remote := Some(w.r.value.(name := c.value));
          dents := [h.value] + dents;
          conflict := true;
        }
      }
      ok := true;
    }

    /** merge_directories; `r` is the remote entry after threeway_merge. */
    method MergeDirectories(b: Option<Dirent>, h: Option<Dirent>, r: Option<Dirent>,
                            basedir: string, dentsIn: seq<Dirent>)
      returns (ok: bool, dents: seq<Dirent>)
      requires AsDir(h).Some? && AsDir(r).Some? ==> h.value.name == r.value.name
      modifies this
      ensures old(store) <= store
      ensures ok ==> dents == DirPart(namer, basedir, b, h, r) + dentsIn
      ensures ok ==> conflict == (old(conflict) || DirConflict(namer, basedir, b, h, r))
      ensures ok ==> DirNamed(namer, basedir, b, h, r)
      ensures !MergeDirs(b, h, r).Recurse? ==> store == old(store) && ok
      ensures ok && EntryClosed(old(store), h) && EntryClosed(old(store), r) ==>
              ListClosed(store, DirPart(namer, basedir, b, h, r))
      ensures
        Unfailing() && EntryClosed(old(store), b) && EntryClosed(old(store), h) && EntryClosed(old(store), r) ==> ok
      decreases OptSize(b) + OptSize(h) + OptSize(r), 1
    {
      dents := dentsIn;
      var mask := 0;
      if b.Some? && b.value.kind.Dir? { mask := mask + 1; }
      if h.Some? && h.value.kind.Dir? { mask := mask + 2; }
      if r.Some? && r.value.kind.Dir? { mask := mask + 4; }
      if mask == 0 || mask == 1 {
        return true, dents;
      } else if mask == 2 {
        dents := [h.value] + dents;
        return true, dents;
      } else if mask == 3 {
        if b.value.id == h.value.id { return true, dents; }
      } else if mask == 4 {
        dents := [r.value] + dents;
        return true, dents;
      } else if mask == 5 {
        if b.value.id == r.value.id { return true, dents; }
      } else {
        if h.value.id == r.value.id {
          dents := [h.value] + dents;
          return true, dents;
        } else if b.Some? && b.value.id == h.value.id {
          dents := [r.value] + dents;
          return true, dents;
        } else if b.Some? && b.value.id == r.value.id {
          dents := [h.value] + dents;
          return true, dents;
        }
      }
      var template := if mask == 5 then r.value else h.value;
      ok, dents := MergeSubDirs(b, h, r, template, basedir, dents);
    }

    /** The second half of merge_directories: load what is a directory and recurse. */
    method MergeSubDirs(b: Option<Dirent>, h: Option<Dirent>, r: Option<Dirent>, template: Dirent,
                        basedir: string, dentsIn: seq<Dirent>)
      returns (ok: bool, dents: seq<Dirent>)
      requires AsDir(h).Some? && AsDir(r).Some? ==> h.value.name == r.value.name
      requires MergeDirs(b, h, r) == Recurse(template)
      modifies this
      ensures old(store) <= store
      ensures ok ==> dents == DirPart(namer, basedir, b, h, r) + dentsIn
      ensures ok ==> conflict == (old(conflict) || DirConflict(namer, basedir, b, h, r))
      ensures ok ==> DirNamed(namer, basedir, b, h, r)
      ensures ok && EntryClosed(old(store), h) && EntryClosed(old(store), r) ==>
              ListClosed(store, DirPart(namer, basedir, b, h, r))
      ensures
        Unfailing() && EntryClosed(old(store), b) && EntryClosed(old(store), h) && EntryClosed(old(store), r) ==> ok
      decreases OptSize(b) + OptSize(h) + OptSize(r), 0
    {
      dents := dentsIn;
      SubSize(b);
      SubSize(h);
      SubSize(r);
      var sb, sh, sr, dirname;
      ok, sb, dirname := LoadSub(b, "");
      if !ok { return; }
      ok, sh, dirname := LoadSub(h, dirname);
      if !ok { return; }
      ok, sr, dirname := LoadSub(r, dirname);
      if !ok { return; }
      assert dirname == template.name;
      SubsClosed(store, b, h, r);
      ok := MergeTreesRecursive(sb, sh, sr, basedir + dirname + "/");
      dents := [template.(id := mergedRoot)] + dents;
    }

    /** Load the directory an entry names, if it names one. */
    method LoadSub(o: Option<Dirent>, nameIn: string) returns (ok: bool, sub: Option<seq<Dirent>>, dirname: string)
      ensures ok ==> Listing(sub) == Sub(o)
      ensures dirname == if AsDir(o).Some? && ok then o.value.name else nameIn
      ensures EntryClosed(store, o) ==> ok
    {
      ok, sub, dirname := true, None, nameIn;
      if o.Some? && o.value.kind.Dir? {
        sub := ReadDir(store, o.value.id);
        if sub.None? {
          ok := false;
          return;
        }
        dirname := o.value.name;
      }
    }

    /** One round of merge_trees_recursive: the files of a name, then its directories. */
    method MergeName(w: Row, basedir: string, dentsIn: seq<Dirent>) returns (ok: bool, dents: seq<Dirent>)
      requires w.h.Some? && w.r.Some? ==> w.h.value.name == w.r.value.name
      modifies this
      ensures old(store) <= store
      ensures ok ==> dents == MergeRow(namer, basedir, w) + dentsIn
      ensures ok ==> conflict == (old(conflict) || RowConflicts(namer, basedir, w))
      ensures ok ==> RowNamed(namer, basedir, w)
      ensures ok && !DirStepOf(namer, basedir, w).Recurse? ==> store == old(store)
      ensures ok && EntryClosed(old(store), w.h) && EntryClosed(old(store), w.r) ==>
              ListClosed(store, MergeRow(namer, basedir, w))
      ensures
        Unfailing() && EntryClosed(old(store), w.b) && EntryClosed(old(store), w.h) && EntryClosed(old(store), w.r) ==>
          ok
      decreases RowSize(w), 2
    {
      dents := dentsIn;
      var remote := w.r;
      var nFiles, nDirs := 0, 0;
      if w.b.Some? { if w.b.value.kind.File? { nFiles := nFiles + 1; } else { nDirs := nDirs + 1; } }
      if w.h.Some? { if w.h.value.kind.File? { nFiles := nFiles + 1; } else { nDirs := nDirs + 1; } }
      if w.r.Some? { if w.r.value.kind.File? { nFiles := nFiles + 1; } else { nDirs := nDirs + 1; } }
      RowSplit(namer, basedir, w);
      RemoteAfterFiles(namer, basedir, w);
      FilesClosed(namer, basedir, w, store);
      if nFiles > 0 {
        ok, remote, dents := ThreewayMerge(w, basedir, dents);
        if !ok { return; }
      } else {
        NoFiles(namer, basedir, w);
      }
      assert remote == MergeFiles(namer, basedir, w).remote;
      if nDirs > 0 {
        ok, dents := MergeDirectories(w.b, w.h, remote, basedir, dents);
      } else {
        ok := true;
      }
      FilesClosed(namer, basedir, w, store);
    }

    /** merge_trees_recursive; an absent tree stands for a missing directory. */
    method MergeTreesRecursive(b: Option<seq<Dirent>>, h: Option<seq<Dirent>>, r: Option<seq<Dirent>>, basedir: string)
      returns (ok: bool)
      modifies this
      ensures old(store) <= store
      ensures ok ==> mergedRoot == DirId(Merge(namer, basedir, Listing(b), Listing(h), Listing(r)))
      ensures ok ==> conflict == (old(conflict) || Conflicts(namer, basedir, Listing(b), Listing(h), Listing(r)))
      ensures ok ==> Named(namer, basedir, Listing(b), Listing(h), Listing(r))
      ensures ok && Flat(namer, basedir, Rows(Listing(b), Listing(h), Listing(r))) ==>
              store <= old(store) + {mergedRoot} &&
              (Some(Entries(mergedRoot)) == h || Some(Entries(mergedRoot)) == r ==> store == old(store))
      ensures ok && Closed(old(store), DirId(Listing(h))) && Closed(old(store), DirId(Listing(r))) ==>
              Closed(store, mergedRoot)
      ensures Unfailing()
              && Closed(old(store), DirId(Listing(b))) && Closed(old(store), DirId(Listing(h)))
              && Closed(old(store), DirId(Listing(r)))
              ==> ok
      decreases ListSize(Listing(b)) + ListSize(Listing(h)) + ListSize(Listing(r)), 4
    {
      var merged;
      ok, merged := MergeLevel(Listing(b), Listing(h), Listing(r), basedir);
      if !ok { return; }
      if Closed(old(store), DirId(Listing(h))) { ClosedMonotone(old(store), store, DirId(Listing(h))); }
      if Closed(old(store), DirId(Listing(r))) { ClosedMonotone(old(store), store, DirId(Listing(r))); }
      ok := SaveMerged(merged, h, r);
    }

    /** The walk of merge_trees_recursive over the three listings of one directory. */
    method MergeLevel(b: seq<Dirent>, h: seq<Dirent>, r: seq<Dirent>, basedir: string)
      returns (ok: bool, merged: seq<Dirent>)
      modifies this
      ensures old(store) <= store
      ensures ok ==> merged == MergeRows(namer, basedir, Rows(b, h, r))
      ensures ok ==> conflict == (old(conflict) || RowsConflict(namer, basedir, Rows(b, h, r)))
      ensures ok ==> RowsNamed(namer, basedir, Rows(b, h, r))
      ensures ok && Flat(namer, basedir, Rows(b, h, r)) ==> store == old(store)
      ensures ok && Closed(old(store), DirId(h)) && Closed(old(store), DirId(r)) ==> ListClosed(store, merged)
      ensures
        Unfailing() && Closed(old(store), DirId(b)) && Closed(old(store), DirId(h)) && Closed(old(store), DirId(r)) ==>
          ok
      decreases ListSize(b) + ListSize(h) + ListSize(r), 3
    {
      var pb, ph, pr := b, h, r;
      merged := [];
      ghost var rows := Rows(b, h, r);
      ghost var baseClosed := Closed(store, DirId(b));
      ghost var sidesClosed := Closed(store, DirId(h)) && Closed(store, DirId(r));
      while true
        invariant old(store) <= store
        invariant ListSize(pb) + ListSize(ph) + ListSize(pr) <= ListSize(b) + ListSize(h) + ListSize(r)
        invariant MergeRows(namer, basedir, rows) == MergeRows(namer, basedir, Rows(pb, ph, pr)) + merged
        invariant (old(conflict) || RowsConflict(namer, basedir, rows)) ==
                  (conflict || RowsConflict(namer, basedir, Rows(pb, ph, pr)))
        invariant RowsNamed(namer, basedir, rows) == RowsNamed(namer, basedir, Rows(pb, ph, pr))
        invariant Flat(namer, basedir, rows) ==> Flat(namer, basedir, Rows(pb, ph, pr)) && store == old(store)
        invariant baseClosed ==> ListClosed(store, pb)
        invariant sidesClosed ==> LevelClosed(store, ph, pr, merged)
        decreases |pb| + |ph| + |pr|
      {
        var first := Larger(None, pb);
        first := Larger(first, ph);
        first := Larger(first, pr);
        if first.None? {
          break;
        }
        var w := Row(first.value, Take(pb, first.value), Take(ph, first.value), Take(pr, first.value));
        ghost var before := store;
        RoundSplit(namer, basedir, pb, ph, pr, w);
        if baseClosed { RoundClosed(before, before, pb, w.name); }
        if sidesClosed { RoundTakesClosed(before, ph, pr, merged, w.name); }
        var added;
        ok, added := MergeName(w, basedir, merged);
        if !ok { return; }
        if baseClosed { RoundClosed(before, store, pb, w.name); }
        if sidesClosed { RoundLevelClosed(before, store, ph, pr, merged, MergeRow(namer, basedir, w), w.name); }
        pb, ph, pr := Drop(pb, w.name), Drop(ph, w.name), Drop(pr, w.name);
        Regroup(MergeRows(namer, basedir, Rows(pb, ph, pr)), MergeRow(namer, basedir, w), merged);
        merged := added;
      }
      ok := true;
    }

    /** Sort the merged entries, name the new directory and save it, unless it is
        head's or remote's directory again. */
    method SaveMerged(merged: seq<Dirent>, h: Option<seq<Dirent>>, r: Option<seq<Dirent>>) returns (ok: bool)
      modifies this`mergedRoot, this`store
      ensures mergedRoot == DirId(SortDesc(merged))
      ensures old(store) <= store <= old(store) + {mergedRoot}
      ensures Some(Entries(mergedRoot)) == h || Some(Entries(mergedRoot)) == r ==> store == old(store) && ok
      ensures ok && ListClosed(old(store), merged)
              && Closed(old(store), DirId(Listing(h))) && Closed(old(store), DirId(Listing(r)))
              ==> Closed(store, mergedRoot)
      ensures Unfailing() ==> ok
    {
      var es := SortDesc(merged);
      mergedRoot := DirId(es);
      ok := true;
      if (h.Some? && DirId(h.value) == mergedRoot) || (r.Some? && DirId(r.value) == mergedRoot) {
        return;
      }
      ok := SaveDir(es);
      if ok && ListClosed(old(store), merged) {
        forall d | d in es && d.kind.Dir? ensures Closed(store, d.id) {
          SameElements(merged, es, d);
          ClosedMonotone(old(store), store, d.id);
        }
      }
    }

    /** seaf_merge_trees: load the three roots and merge them. */
    method MergeTrees(b: Id, h: Id, r: Id) returns (ok: bool)
      modifies this
      ensures old(store) <= store
      ensures ok ==> mergedRoot == DirId(Merge(namer, "", Entries(b), Entries(h), Entries(r)))
      ensures ok ==> conflict == (old(conflict) || Conflicts(namer, "", Entries(b), Entries(h), Entries(r)))
      // a conflict without a name fails
      ensures ok ==> Named(namer, "", Entries(b), Entries(h), Entries(r))
      // a side that did not change
      ensures ok && WfDir(b) && WfDir(h) && WfDir(r) && (b == r || h == r) ==>
              mergedRoot == h && store == old(store) && conflict == old(conflict)
      ensures ok && WfDir(h) && WfDir(r) && b == h ==>
              && mergedRoot == DirId(Patched(Entries(h), Entries(r))) && store <= old(store) + {mergedRoot}
              && conflict == old(conflict)
      // every directory of the merged tree can be read back
      ensures ok && Closed(old(store), h) && Closed(old(store), r) ==> Closed(store, mergedRoot)
      ensures Unfailing() && Closed(old(store), b) && Closed(old(store), h) && Closed(old(store), r) ==> ok
    {
      var tb := ReadDir(store, b);
      if tb.None? { return false; }
      var th := ReadDir(store, h);
      if th.None? { return false; }
      var tr := ReadDir(store, r);
      if tr.None? { return false; }
      ok := MergeTreesRecursive(tb, th, tr, "");
      if WfDir(b) && WfDir(h) && WfDir(r) {
        if b == r || h == r { UnchangedRemote(namer, "", Entries(b), Entries(h), Entries(r)); }
        if b == h { UnchangedHead(namer, "", Entries(h), Entries(r)); }
      }
    }
  }
}
