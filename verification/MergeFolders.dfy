/** What a three-way merge does with directories, empty ones included. */
module MergeFolders {
  import opened Options
  import opened FsTree
  import opened Lockstep
  import opened MergeSpec
  import opened MergeTheorems

  /** Some entry chain of `es` spells path `p` and ends in a directory. */
  ghost predicate HasFolder(es: seq<Dirent>, p: seq<string>)
    decreases |p|
  {
    p != [] && exists d :: d in es && d.name == p[0] && ReachesFolder(d, p)
  }

  ghost predicate ReachesFolder(d: Dirent, p: seq<string>)
    requires p != []
    decreases |p|, 0
  {
    d.kind.Dir? && (|p| > 1 ==> HasFolder(Entries(d.id), p[1..]))
  }

  lemma HasFolderAt(es: seq<Dirent>, p: seq<string>)
    requires Descending(es) && p != []
    ensures HasFolder(es, p) <==> Find(es, p[0]).Some? && ReachesFolder(Find(es, p[0]).value, p)
  {
    if HasFolder(es, p) {
      var d :| d in es && d.name == p[0] && ReachesFolder(d, p);
      DescendingUnique(es, d);
    }
  }

  ghost predicate LeadsToFolder(o: Option<Dirent>, p: seq<string>)
    requires p != []
  {
    o.Some? && ReachesFolder(o.value, p)
  }

  lemma LeadsToFolderBelow(o: Option<Dirent>, p: seq<string>)
    requires |p| > 1
    ensures LeadsToFolder(o, p) <==> HasFolder(Sub(o), p[1..])
  {
  }

  /** Side `s` has the directory, and it is new there or on both sides. */
  ghost predicate FolderOwed(b: seq<Dirent>, s: seq<Dirent>, t: seq<Dirent>, p: seq<string>)
  {
    HasFolder(s, p) && (!HasFolder(b, p) || HasFolder(t, p))
  }

  ghost predicate EntryOwed(b: Option<Dirent>, s: Option<Dirent>, t: Option<Dirent>, p: seq<string>)
    requires p != []
  {
    LeadsToFolder(s, p) && (!LeadsToFolder(b, p) || LeadsToFolder(t, p))
  }

  lemma FolderOwedAt(b: seq<Dirent>, s: seq<Dirent>, t: seq<Dirent>, p: seq<string>)
    requires Descending(b) && Descending(s) && Descending(t) && p != []
    ensures FolderOwed(b, s, t, p) <==> EntryOwed(Find(b, p[0]), Find(s, p[0]), Find(t, p[0]), p)
  {
    HasFolderAt(b, p);
    HasFolderAt(s, p);
    HasFolderAt(t, p);
  }

  lemma EntryOwedBelow(b: Option<Dirent>, s: Option<Dirent>, t: Option<Dirent>, p: seq<string>)
    requires |p| > 1
    ensures EntryOwed(b, s, t, p) <==> FolderOwed(Sub(b), Sub(s), Sub(t), p[1..])
  {
    LeadsToFolderBelow(b, p);
    LeadsToFolderBelow(s, p);
    LeadsToFolderBelow(t, p);
  }

  // ------------------------------------------------------- head's directories

  lemma HeadFolder(cn: ConflictNamer, basedir: string, w: Row, p: seq<string>)
    requires WfRow(w) && p != [] && EntryOwed(w.b, w.h, w.r, p)
    ensures var step := DirStepOf(cn, basedir, w);
            || (step.Keep? && step.dent.name == w.name && ReachesFolder(step.dent, p))
            || (step.Recurse? && step.dent == w.h.value)
  {
    RemoteAfterFiles(cn, basedir, w);
    if |p| > 1 {
      LeadsToFolderBelow(w.b, p);
      LeadsToFolderBelow(w.h, p);
      LeadsToFolderBelow(w.r, p);
    }
  }

  lemma {:induction false} HeadFolderRow(cn: ConflictNamer, basedir: string, w: Row, p: seq<string>) returns (d: Dirent)
    requires WfRow(w) && p != [] && w.name == p[0] && EntryOwed(w.b, w.h, w.r, p)
    ensures d in MergeRow(cn, basedir, w) && d.name == p[0] && ReachesFolder(d, p)
    decreases |p|, 0
  {
    HeadFolder(cn, basedir, w, p);
    var step := DirStepOf(cn, basedir, w);
    if step.Keep? {
      d := step.dent;
      KeptEmitted(cn, basedir, w);
    } else {
      d := MergedDir(cn, basedir, w);
      MergedDirEmitted(cn, basedir, w);
      if |p| > 1 {
        EntryOwedBelow(w.b, w.h, w.r, p);
        WfSub(w.b);
        WfSub(w.h);
        WfSub(w.r);
        HeadFolderKept(cn, Below(basedir, step.dent.name), Sub(w.b), Sub(w.h), Sub(w.r), p[1..]);
      }
    }
  }

  /** A directory of head that is not base's, or that remote has too, is in the result at
      the same path, whatever is in it and whatever the conflict names are. */
  lemma {:induction false} HeadFolderKept(cn: ConflictNamer, basedir: string,
                                          b: seq<Dirent>, h: seq<Dirent>, r: seq<Dirent>, p: seq<string>)
    requires WfListing(b) && WfListing(h) && WfListing(r) && FolderOwed(b, h, r, p)
    ensures HasFolder(Merge(cn, basedir, b, h, r), p)
    decreases |p|, 1
  {
    FolderOwedAt(b, h, r, p);
    var w := RowOf(b, h, r, p[0]);
    var d := HeadFolderRow(cn, basedir, w, p);
    MergeKeeps(cn, basedir, b, h, r, w, d);
  }

  // ----------------------------------------------------- remote's directories

  lemma RemoteFolder(cn: ConflictNamer, basedir: string, w: Row, p: seq<string>)
    requires WfRow(w) && p != [] && EntryOwed(w.b, w.r, w.h, p)
    ensures var step := DirStepOf(cn, basedir, w);
            && !step.Skip? && step.dent.kind.Dir?
            && NameUpTo(cn, basedir, w.name, step.dent.name)
            && (!MergeFiles(cn, basedir, w).conflict ==> step.dent.name == w.name)
            && (step.Keep? && |p| > 1 ==> HasFolder(Entries(step.dent.id), p[1..]))
  {
    RemoteAfterFiles(cn, basedir, w);
    if |p| > 1 {
      LeadsToFolderBelow(w.b, p);
      LeadsToFolderBelow(w.h, p);
      LeadsToFolderBelow(w.r, p);
    }
  }

  lemma {:induction false} RemoteFolderRow(cn: ConflictNamer, basedir: string, w: Row, p: seq<string>)
    returns (d: Dirent, q: seq<string>)
    requires WfRow(w) && p != [] && w.name == p[0] && EntryOwed(w.b, w.r, w.h, p)
    ensures q != [] && d in MergeRow(cn, basedir, w) && d.name == q[0] && ReachesFolder(d, q)
    ensures UpTo(cn, basedir, p, q) && (!RowConflicts(cn, basedir, w) ==> q == p)
    decreases |p|, 0
  {
    RemoteFolder(cn, basedir, w, p);
    var step := DirStepOf(cn, basedir, w);
    var base := Below(basedir, step.dent.name);
    q := [step.dent.name] + p[1..];
    assert q[1..] == p[1..];
    UpToSelf(cn, base, p[1..]);
    if step.Keep? {
      d := step.dent;
      KeptEmitted(cn, basedir, w);
    } else {
      d := MergedDir(cn, basedir, w);
      MergedDirEmitted(cn, basedir, w);
      if |p| > 1 {
        EntryOwedBelow(w.b, w.r, w.h, p);
        WfSub(w.b);
        WfSub(w.h);
        WfSub(w.r);
        var q' := RemoteFolderKept(cn, base, Sub(w.b), Sub(w.h), Sub(w.r), p[1..]);
        q := [step.dent.name] + q';
        assert q[1..] == q';
      }
    }
  }

  /** A directory of remote that is not base's, or that head has too, is in the result at its
      path up to conflict-renamed components; with no conflict it is at its own path. */
  lemma {:induction false} RemoteFolderKept(cn: ConflictNamer, basedir: string,
                                            b: seq<Dirent>, h: seq<Dirent>, r: seq<Dirent>, p: seq<string>)
    returns (q: seq<string>)
    requires WfListing(b) && WfListing(h) && WfListing(r) && FolderOwed(b, r, h, p)
    ensures UpTo(cn, basedir, p, q) && HasFolder(Merge(cn, basedir, b, h, r), q)
    ensures !Conflicts(cn, basedir, b, h, r) ==> q == p
    decreases |p|, 1
  {
    FolderOwedAt(b, r, h, p);
    var w := RowOf(b, h, r, p[0]);
    var d;
    d, q := RemoteFolderRow(cn, basedir, w, p);
    MergeKeeps(cn, basedir, b, h, r, w, d);
    if RowConflicts(cn, basedir, w) { ConflictsOf(cn, basedir, b, h, r, w); }
  }

  // --------------------------------------------------------- nothing invented

  lemma {:induction false} FolderEntry(es: seq<Dirent>, p: seq<string>) returns (e: Dirent)
    requires HasFolder(es, p)
    ensures HasEntry(es, p, e) && e.kind.Dir?
    decreases |p|
  {
    var d :| d in es && d.name == p[0] && ReachesFolder(d, p);
    e := d;
    if |p| > 1 { e := FolderEntry(Entries(d.id), p[1..]); }
    assert ReachesEntry(d, p, e);
  }

  lemma {:induction false} EntryFolder(es: seq<Dirent>, p: seq<string>, e: Dirent)
    requires HasEntry(es, p, e) && e.kind.Dir?
    ensures HasFolder(es, p)
    decreases |p|
  {
    var d :| d in es && d.name == p[0] && ReachesEntry(d, p, e);
    if |p| > 1 { EntryFolder(Entries(d.id), p[1..], e); }
    assert ReachesFolder(d, p);
  }

  /** Every directory of the result is head's at the same path, or remote's at its path up
      to conflict names. */
  lemma FolderJustified(cn: ConflictNamer, basedir: string,
                        b: seq<Dirent>, h: seq<Dirent>, r: seq<Dirent>, q: seq<string>)
    returns (p: seq<string>)
    requires WfListing(b) && WfListing(h) && WfListing(r) && HasFolder(Merge(cn, basedir, b, h, r), q)
    ensures (p == q && HasFolder(h, p)) || (UpTo(cn, basedir, p, q) && HasFolder(r, p))
    ensures p != [] && (!Conflicts(cn, basedir, b, h, r) ==> p == q)
  {
    var e := FolderEntry(Merge(cn, basedir, b, h, r), q);
    var e0;
    p, e0 := EntryJustified(cn, basedir, b, h, r, q, e);
    if HasEntry(h, p, e0) { EntryFolder(h, p, e0); }
    if HasEntry(r, p, e0) { EntryFolder(r, p, e0); }
  }
}
