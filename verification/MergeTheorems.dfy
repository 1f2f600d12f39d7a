/** Three-way merge loses no work, invents nothing and resurrects nothing. */
module MergeTheorems {
  import opened Options
  import opened FsTree
  import opened Lockstep
  import opened MergeSpec

  /** A row as the walk over three well-formed listings produces it. */
  ghost predicate WfRow(w: Row)
  {
    && (w.b.Some? ==> w.b.value.name == w.name && WfEntry(w.b.value))
    && (w.h.Some? ==> w.h.value.name == w.name && WfEntry(w.h.value))
    && (w.r.Some? ==> w.r.value.name == w.name && WfEntry(w.r.value))
  }

  lemma RowOf(b: seq<Dirent>, h: seq<Dirent>, r: seq<Dirent>, n: string) returns (w: Row)
    requires WfListing(b) && WfListing(h) && WfListing(r)
    requires HasName(b, n) || HasName(h, n) || HasName(r, n)
    ensures w in Rows(b, h, r) && w == Row(n, Find(b, n), Find(h, n), Find(r, n)) && WfRow(w)
  {
    w := RowAt(b, h, r, n);
  }

  ghost predicate Reaches(o: Option<Dirent>, p: seq<string>, x: Id)
    requires p != []
  {
    o.Some? && ReachesFile(o.value, p, x)
  }

  lemma ReachesBelow(o: Option<Dirent>, p: seq<string>, x: Id)
    requires |p| > 1
    ensures Reaches(o, p, x) <==> HasFile(Sub(o), p[1..], x)
  {
  }

  ghost predicate Leads(o: Option<Dirent>, p: seq<string>, e: Dirent)
    requires p != []
  {
    o.Some? && ReachesEntry(o.value, p, e)
  }

  lemma LeadsBelow(o: Option<Dirent>, p: seq<string>, e: Dirent)
    requires |p| > 1
    ensures Leads(o, p, e) <==> HasEntry(Sub(o), p[1..], e)
  {
  }

  /** The same entry but for its name, and for what is inside a directory. */
  ghost predicate SameContent(d: Dirent, e: Dirent)
  {
    d.kind == e.kind && d.meta == e.meta && (d.kind.File? ==> d.id == e.id)
  }

  // ----------------------------------------------------- the three-way rule

  /** The three-way rule: side `s` has the file, and it is new there or on both sides. */
  ghost predicate Owed(b: seq<Dirent>, s: seq<Dirent>, t: seq<Dirent>, p: seq<string>, x: Id)
  {
    HasFile(s, p, x) && (!HasFile(b, p, x) || HasFile(t, p, x))
  }

  ghost predicate OwedEntry(b: Option<Dirent>, s: Option<Dirent>, t: Option<Dirent>, p: seq<string>, x: Id)
    requires p != []
  {
    Reaches(s, p, x) && (!Reaches(b, p, x) || Reaches(t, p, x))
  }

  lemma OwedAt(b: seq<Dirent>, s: seq<Dirent>, t: seq<Dirent>, p: seq<string>, x: Id)
    requires Descending(b) && Descending(s) && Descending(t) && p != []
    ensures Owed(b, s, t, p, x) <==> OwedEntry(Find(b, p[0]), Find(s, p[0]), Find(t, p[0]), p, x)
  {
    HasFileAt(b, p, x);
    HasFileAt(s, p, x);
    HasFileAt(t, p, x);
  }

  lemma OwedBelow(b: Option<Dirent>, s: Option<Dirent>, t: Option<Dirent>, p: seq<string>, x: Id)
    requires |p| > 1
    ensures OwedEntry(b, s, t, p, x) <==> Owed(Sub(b), Sub(s), Sub(t), p[1..], x)
  {
  }

  // ------------------------------------------------------------ one name

  /** A remote directory is renamed only in favour of a file of head. */
  lemma RemoteAfterFiles(cn: ConflictNamer, basedir: string, w: Row)
    ensures var c := MergeFiles(cn, basedir, w).remote;
            && c.Some? == w.r.Some?
            && (c.Some? ==> c == w.r || c == Some(Renamed(cn, basedir, w.r.value)))
    ensures AsFile(w.h).None? ==> AsDir(MergeFiles(cn, basedir, w).remote) == AsDir(w.r)
    ensures !MergeFiles(cn, basedir, w).conflict ==> MergeFiles(cn, basedir, w).remote == w.r
  {
  }

  lemma FilesEmitted(cn: ConflictNamer, basedir: string, w: Row, d: Dirent)
    requires d in MergeFiles(cn, basedir, w).out
    ensures d in MergeRow(cn, basedir, w)
  {
  }

  lemma KeptEmitted(cn: ConflictNamer, basedir: string, w: Row)
    requires DirStepOf(cn, basedir, w).Keep?
    ensures DirStepOf(cn, basedir, w).dent in MergeRow(cn, basedir, w)
  {
  }

  function SubMerge(cn: ConflictNamer, basedir: string, w: Row): seq<Dirent>
    requires DirStepOf(cn, basedir, w).Recurse?
  {
    Merge(cn, Below(basedir, DirStepOf(cn, basedir, w).dent.name), Sub(w.b), Sub(w.h), Sub(w.r))
  }

  function MergedDir(cn: ConflictNamer, basedir: string, w: Row): (d: Dirent)
    requires DirStepOf(cn, basedir, w).Recurse?
  {
    DirStepOf(cn, basedir, w).dent.(id := DirId(SubMerge(cn, basedir, w)))
  }

  lemma MergedDirEmitted(cn: ConflictNamer, basedir: string, w: Row)
    requires DirStepOf(cn, basedir, w).Recurse?
    ensures MergedDir(cn, basedir, w) in MergeRow(cn, basedir, w)
  {
  }

  // ------------------------------------------------------------ head's work

  lemma HeadFile(cn: ConflictNamer, basedir: string, w: Row)
    requires AsFile(w.h).Some?
    requires AsFile(w.b).Some? && AsFile(w.b).value.id == w.h.value.id ==>
             AsFile(w.r).Some? && AsFile(w.r).value.id == w.h.value.id
    ensures w.h.value in MergeFiles(cn, basedir, w).out
  {
  }

  /** What becomes of a directory of head that holds new work. */
  lemma HeadDir(cn: ConflictNamer, basedir: string, w: Row, p: seq<string>, x: Id)
    requires WfRow(w) && |p| > 1 && AsDir(w.h).Some?
    requires OwedEntry(w.b, w.h, w.r, p, x)
    ensures var step := DirStepOf(cn, basedir, w);
            || (step.Keep? && step.dent.name == w.name && ReachesFile(step.dent, p, x) &&
                (Some(step.dent) == w.h || Some(step.dent) == w.r))
            || (step.Recurse? && step.dent == w.h.value)
  {
    RemoteAfterFiles(cn, basedir, w);
    ReachesBelow(w.b, p, x);
    ReachesBelow(w.h, p, x);
    ReachesBelow(w.r, p, x);
  }

  lemma {:induction false} HeadKeptRow(cn: ConflictNamer, basedir: string, w: Row, p: seq<string>, x: Id)
    returns (d: Dirent, e: Dirent)
    requires WfRow(w) && p != [] && w.name == p[0]
    requires OwedEntry(w.b, w.h, w.r, p, x)
    ensures d in MergeRow(cn, basedir, w) && d.name == p[0] && ReachesEntry(d, p, e)
    ensures e.kind.File? && e.id == x && (Leads(w.h, p, e) || Leads(w.r, p, e))
    decreases |p|, 0
  {
    if |p| == 1 {
      d, e := w.h.value, w.h.value;
      HeadFile(cn, basedir, w);
      FilesEmitted(cn, basedir, w, d);
    } else {
      HeadDir(cn, basedir, w, p, x);
      var step := DirStepOf(cn, basedir, w);
      if step.Keep? {
        d := step.dent;
        KeptEmitted(cn, basedir, w);
        e := FileEntry(Entries(d.id), p[1..], x);
      } else {
        d := MergedDir(cn, basedir, w);
        MergedDirEmitted(cn, basedir, w);
        OwedBelow(w.b, w.h, w.r, p, x);
        WfSub(w.b);
        WfSub(w.h);
        WfSub(w.r);
        e := HeadKept(cn, Below(basedir, step.dent.name), Sub(w.b), Sub(w.h), Sub(w.r), p[1..], x);
        LeadsBelow(w.h, p, e);
        LeadsBelow(w.r, p, e);
      }
    }
  }

  /** A file of head that is not base's, or that remote has too, is in the result
      at the same path with the same id, whatever the conflict names are; its entry is
      head's, or remote's where remote has that file too. */
  lemma {:induction false} HeadKept(cn: ConflictNamer, basedir: string,
                                    b: seq<Dirent>, h: seq<Dirent>, r: seq<Dirent>, p: seq<string>, x: Id)
    returns (e: Dirent)
    requires WfListing(b) && WfListing(h) && WfListing(r)
    requires Owed(b, h, r, p, x)
    ensures HasFile(Merge(cn, basedir, b, h, r), p, x)
    ensures HasEntry(Merge(cn, basedir, b, h, r), p, e) && e.kind.File? && e.id == x
    ensures HasEntry(h, p, e) || HasEntry(r, p, e)
    decreases |p|, 1
  {
    OwedAt(b, h, r, p, x);
    HasFileAt(h, p, x);
    var w := RowOf(b, h, r, p[0]);
    var d;
    d, e := HeadKeptRow(cn, basedir, w, p, x);
    MergeKeeps(cn, basedir, b, h, r, w, d);
    EntryFile(Merge(cn, basedir, b, h, r), p, e);
    HasEntryAt(h, p, e);
    HasEntryAt(r, p, e);
  }

  // ---------------------------------------------------------- remote's work

  ghost predicate NameUpTo(cn: ConflictNamer, basedir: string, n: string, m: string)
  {
    m == n || exists k :: cn(basedir, n, k) == Some(m)
  }

  /** `q` is `p` with some components replaced by the conflict names generated for them. */
  ghost predicate UpTo(cn: ConflictNamer, basedir: string, p: seq<string>, q: seq<string>)
    decreases |p|
  {
    |p| == |q| &&
    (p != [] ==> NameUpTo(cn, basedir, p[0], q[0]) && UpTo(cn, Below(basedir, q[0]), p[1..], q[1..]))
  }

  lemma {:induction false} UpToSelf(cn: ConflictNamer, basedir: string, p: seq<string>)
    ensures UpTo(cn, basedir, p, p)
    decreases |p|
  {
    if p != [] { UpToSelf(cn, Below(basedir, p[0]), p[1..]); }
  }

  /** The file entry that carries remote's new content. */
  function RemoteCopy(cn: ConflictNamer, basedir: string, w: Row): Dirent
    requires w.r.Some?
  {
    if AsFile(w.h).Some? && w.h.value.id == w.r.value.id then w.h.value
    else match MergeFiles(cn, basedir, w).remote case Some(d) => d case None => w.r.value
  }

  lemma RemoteFile(cn: ConflictNamer, basedir: string, w: Row)
    requires WfRow(w) && AsFile(w.r).Some?
    requires AsFile(w.b).Some? && AsFile(w.b).value.id == w.r.value.id ==>
             AsFile(w.h).Some? && AsFile(w.h).value.id == w.r.value.id
    ensures var d := RemoteCopy(cn, basedir, w);
            && d in MergeFiles(cn, basedir, w).out
            && d.kind.File? && d.id == w.r.value.id
            && (Some(d) == w.h || SameContent(d, w.r.value))
            && NameUpTo(cn, basedir, w.name, d.name)
            && (!MergeFiles(cn, basedir, w).conflict ==> d.name == w.name)
  {
  }

  lemma RemoteDir(cn: ConflictNamer, basedir: string, w: Row, p: seq<string>, x: Id)
    requires WfRow(w) && |p| > 1 && AsDir(w.r).Some?
    requires OwedEntry(w.b, w.r, w.h, p, x)
    ensures var step := DirStepOf(cn, basedir, w);
            && !step.Skip?
            && NameUpTo(cn, basedir, w.name, step.dent.name)
            && (!MergeFiles(cn, basedir, w).conflict ==> step.dent.name == w.name)
            && (step.Keep? ==> ReachesFile(step.dent, p, x))
            && (step.Keep? ==> Some(step.dent) == w.h || step.dent.id == w.r.value.id)
            && (Sub(w.h) != [] ==> step.dent.name == w.name)
            && step.dent.kind.Dir?
  {
    RemoteAfterFiles(cn, basedir, w);
    ReachesBelow(w.b, p, x);
    ReachesBelow(w.h, p, x);
    ReachesBelow(w.r, p, x);
  }

  lemma {:induction false} RemoteKeptRow(cn: ConflictNamer, basedir: string, w: Row, p: seq<string>, x: Id)
    returns (d: Dirent, q: seq<string>, e: Dirent, e0: Dirent)
    requires WfRow(w) && p != [] && w.name == p[0]
    requires OwedEntry(w.b, w.r, w.h, p, x)
    ensures q != [] && d in MergeRow(cn, basedir, w) && d.name == q[0] && ReachesEntry(d, q, e)
    ensures e.kind.File? && e.id == x && SameContent(e, e0) && (Leads(w.r, p, e0) || (q == p && Leads(w.h, p, e0)))
    ensures UpTo(cn, basedir, p, q) && (!RowConflicts(cn, basedir, w) ==> q == p)
    decreases |p|, 0
  {
    if |p| == 1 {
      d := RemoteCopy(cn, basedir, w);
      RemoteFile(cn, basedir, w);
      FilesEmitted(cn, basedir, w, d);
      q, e := [d.name], d;
      e0 := if Some(d) == w.h then d else w.r.value;
    } else {
      RemoteDir(cn, basedir, w, p, x);
      var step := DirStepOf(cn, basedir, w);
      var base := Below(basedir, step.dent.name);
      q := [step.dent.name] + p[1..];
      assert q[1..] == p[1..];
      UpToSelf(cn, base, p[1..]);
      if step.Keep? {
        d := step.dent;
        KeptEmitted(cn, basedir, w);
        e := FileEntry(Entries(d.id), p[1..], x);
        e0 := e;
      } else {
        d := MergedDir(cn, basedir, w);
        MergedDirEmitted(cn, basedir, w);
        OwedBelow(w.b, w.r, w.h, p, x);
        WfSub(w.b);
        WfSub(w.h);
        WfSub(w.r);
        var q';
        q', e, e0 := RemoteKept(cn, base, Sub(w.b), Sub(w.h), Sub(w.r), p[1..], x);
        q := [step.dent.name] + q';
        assert q[1..] == q';
        LeadsBelow(w.h, p, e0);
        LeadsBelow(w.r, p, e0);
      }
    }
  }

  /** A file of remote that is not base's, or that head has too, is in the result
      with its id, at its path up to conflict-renamed components; with no conflict
      it is at its own path. Mode, times, author and size are those of remote's entry,
      or of head's where head has that file too. */
  lemma {:induction false} RemoteKept(cn: ConflictNamer, basedir: string,
                                      b: seq<Dirent>, h: seq<Dirent>, r: seq<Dirent>, p: seq<string>, x: Id)
    returns (q: seq<string>, e: Dirent, e0: Dirent)
    requires WfListing(b) && WfListing(h) && WfListing(r)
    requires Owed(b, r, h, p, x)
    ensures UpTo(cn, basedir, p, q) && HasFile(Merge(cn, basedir, b, h, r), q, x)
    ensures HasEntry(Merge(cn, basedir, b, h, r), q, e) && e.kind == e0.kind == File && e.id == e0.id == x
    ensures e.meta == e0.meta && (HasEntry(r, p, e0) || (q == p && HasEntry(h, p, e0)))
    ensures !Conflicts(cn, basedir, b, h, r) ==> q == p
    decreases |p|, 1
  {
    OwedAt(b, r, h, p, x);
    HasFileAt(r, p, x);
    var w := RowOf(b, h, r, p[0]);
    var d;
    d, q, e, e0 := RemoteKeptRow(cn, basedir, w, p, x);
    MergeKeeps(cn, basedir, b, h, r, w, d);
    EntryFile(Merge(cn, basedir, b, h, r), q, e);
    HasEntryAt(h, p, e0);
    HasEntryAt(r, p, e0);
    if RowConflicts(cn, basedir, w) { ConflictsOf(cn, basedir, b, h, r, w); }
  }

  // ------------------------------------------------------- nothing invented

  lemma FileOrigin(cn: ConflictNamer, basedir: string, w: Row, d: Dirent)
    requires WfRow(w) && d in MergeFiles(cn, basedir, w).out
    ensures d.kind.File?
    ensures || (Some(d) == w.h && OwedEntry(w.b, w.h, w.r, [w.name], d.id))
            || (w.r.Some? && SameContent(d, w.r.value) && NameUpTo(cn, basedir, w.name, d.name) &&
                OwedEntry(w.b, w.r, w.h, [w.name], d.id))
    ensures !MergeFiles(cn, basedir, w).conflict ==> d.name == w.name
  {
  }

  /** A directory of the result is head's, or remote's up to its name. */
  lemma FolderOrigin(cn: ConflictNamer, basedir: string, w: Row)
    requires WfRow(w) && !DirStepOf(cn, basedir, w).Skip?
    ensures var d := DirStepOf(cn, basedir, w).dent;
            && d.kind.Dir?
            && (|| Some(d) == w.h
                || (w.r.Some? && d.id == w.r.value.id && SameContent(d, w.r.value) &&
                    NameUpTo(cn, basedir, w.name, d.name)))
            && (AsDir(w.h).Some? || !MergeFiles(cn, basedir, w).conflict ==> d.name == w.name)
  {
    RemoteAfterFiles(cn, basedir, w);
  }

  lemma KeptOrigin(cn: ConflictNamer, basedir: string, w: Row, q: seq<string>, x: Id)
    requires WfRow(w) && |q| > 1 && DirStepOf(cn, basedir, w).Keep?
    requires ReachesFile(DirStepOf(cn, basedir, w).dent, q, x)
    ensures var d := DirStepOf(cn, basedir, w).dent;
            || (Some(d) == w.h && OwedEntry(w.b, w.h, w.r, q, x))
            || (w.r.Some? && d.id == w.r.value.id && NameUpTo(cn, basedir, w.name, d.name) &&
                OwedEntry(w.b, w.r, w.h, q, x))
    ensures !MergeFiles(cn, basedir, w).conflict ==> DirStepOf(cn, basedir, w).dent.name == w.name
  {
    RemoteAfterFiles(cn, basedir, w);
    ReachesBelow(w.b, q, x);
    ReachesBelow(w.h, q, x);
    ReachesBelow(w.r, q, x);
  }

  lemma RecurseOrigin(cn: ConflictNamer, basedir: string, w: Row)
    requires WfRow(w) && DirStepOf(cn, basedir, w).Recurse?
    ensures var d := DirStepOf(cn, basedir, w).dent;
            && NameUpTo(cn, basedir, w.name, d.name)
            && (Sub(w.h) != [] || !MergeFiles(cn, basedir, w).conflict ==> d.name == w.name)
  {
  }

  lemma RowParts(cn: ConflictNamer, basedir: string, w: Row, d: Dirent)
    requires d in MergeRow(cn, basedir, w)
    ensures || d in MergeFiles(cn, basedir, w).out
            || (DirStepOf(cn, basedir, w).Keep? && d == DirStepOf(cn, basedir, w).dent)
            || (DirStepOf(cn, basedir, w).Recurse? && d == MergedDir(cn, basedir, w))
  {
  }

  lemma KeptIsDir(cn: ConflictNamer, basedir: string, w: Row)
    ensures var step := DirStepOf(cn, basedir, w); step.Skip? || step.dent.kind.Dir?
  {
  }

  /** Where an entry of the result comes from: head's entry at the path, or remote's at its
      path up to conflict names, and what the three-way rule says of a file. */
  ghost predicate Sourced(cn: ConflictNamer, basedir: string, b: seq<Dirent>, h: seq<Dirent>, r: seq<Dirent>,
                          q: seq<string>, e: Dirent, p: seq<string>, e0: Dirent)
  {
    && SameContent(e, e0)
    && (|| (p == q && HasEntry(h, p, e0) && (e.kind.File? ==> Owed(b, h, r, p, e.id)))
        || (UpTo(cn, basedir, p, q) && HasEntry(r, p, e0) && (e.kind.File? ==> Owed(b, r, h, p, e.id))))
  }

  ghost predicate SourcedRow(cn: ConflictNamer, basedir: string, w: Row, q: seq<string>, e: Dirent,
                             p: seq<string>, e0: Dirent)
    requires p != []
  {
    && SameContent(e, e0)
    && (|| (p == q && Leads(w.h, p, e0) && (e.kind.File? ==> OwedEntry(w.b, w.h, w.r, p, e.id)))
        || (UpTo(cn, basedir, p, q) && Leads(w.r, p, e0) && (e.kind.File? ==> OwedEntry(w.b, w.r, w.h, p, e.id))))
  }

  /** An entry of this level. */
  lemma SourcedHere(cn: ConflictNamer, basedir: string, w: Row, d: Dirent) returns (e0: Dirent)
    requires WfRow(w) && d in MergeRow(cn, basedir, w)
    ensures SourcedRow(cn, basedir, w, [d.name], d, [w.name], e0)
    ensures !RowConflicts(cn, basedir, w) ==> d.name == w.name
  {
    RowParts(cn, basedir, w, d);
    assert UpTo(cn, Below(basedir, d.name), [w.name][1..], [d.name][1..]);
    if d in MergeFiles(cn, basedir, w).out {
      FileOrigin(cn, basedir, w, d);
      e0 := if Some(d) == w.h && OwedEntry(w.b, w.h, w.r, [w.name], d.id) then d else w.r.value;
    } else {
      FolderOrigin(cn, basedir, w);
      e0 := if Some(DirStepOf(cn, basedir, w).dent) == w.h then w.h.value else w.r.value;
    }
  }

  /** An entry inside a directory that was taken over whole. */
  lemma SourcedKept(cn: ConflictNamer, basedir: string, w: Row, q: seq<string>, e: Dirent)
    requires WfRow(w) && |q| > 1 && DirStepOf(cn, basedir, w).Keep? && q[0] == DirStepOf(cn, basedir, w).dent.name
    requires ReachesEntry(DirStepOf(cn, basedir, w).dent, q, e)
    ensures SourcedRow(cn, basedir, w, q, e, [w.name] + q[1..], e)
  {
    var d, p := DirStepOf(cn, basedir, w).dent, [w.name] + q[1..];
    assert p[1..] == q[1..];
    UpToSelf(cn, Below(basedir, d.name), q[1..]);
    FolderOrigin(cn, basedir, w);
    if e.kind.File? {
      EntryFile(Entries(d.id), q[1..], e);
      KeptOrigin(cn, basedir, w, q, e.id);
      OwedBelow(w.b, w.h, w.r, q, e.id);
      OwedBelow(w.b, w.r, w.h, q, e.id);
      OwedBelow(w.b, w.h, w.r, p, e.id);
      OwedBelow(w.b, w.r, w.h, p, e.id);
    }
  }

  /** An entry inside a directory that was merged. */
  lemma SourcedBelow(cn: ConflictNamer, basedir: string, w: Row, q: seq<string>, e: Dirent, p: seq<string>, e0: Dirent)
    requires WfRow(w) && |q| > 1 && p != [] && DirStepOf(cn, basedir, w).Recurse?
    requires q[0] == DirStepOf(cn, basedir, w).dent.name
    requires Sourced(cn, Below(basedir, q[0]), Sub(w.b), Sub(w.h), Sub(w.r), q[1..], e, p, e0)
    ensures SourcedRow(cn, basedir, w, q, e, [w.name] + p, e0)
  {
    var p' := [w.name] + p;
    assert p'[1..] == p;
    RecurseOrigin(cn, basedir, w);
    LeadsBelow(w.h, p', e0);
    LeadsBelow(w.r, p', e0);
    OwedBelow(w.b, w.h, w.r, p', e.id);
    OwedBelow(w.b, w.r, w.h, p', e.id);
  }

  lemma {:induction false} EntryRow(cn: ConflictNamer, basedir: string, w: Row, d: Dirent, q: seq<string>, e: Dirent)
    returns (p: seq<string>, e0: Dirent)
    requires WfRow(w) && q != [] && d in MergeRow(cn, basedir, w) && d.name == q[0] && ReachesEntry(d, q, e)
    ensures p != [] && p[0] == w.name && SourcedRow(cn, basedir, w, q, e, p, e0)
    ensures !RowConflicts(cn, basedir, w) ==> p == q
    decreases |q|, 0
  {
    e0 := SourcedHere(cn, basedir, w, d);
    p := [w.name] + q[1..];
    if |q| == 1 {
      assert p == [w.name] && q == [d.name];
    } else {
      RowParts(cn, basedir, w, d);
      if d in MergeFiles(cn, basedir, w).out { FileOrigin(cn, basedir, w, d); }
      if DirStepOf(cn, basedir, w).Keep? {
        e0 := e;
        SourcedKept(cn, basedir, w, q, e);
      } else {
        WfSub(w.b);
        WfSub(w.h);
        WfSub(w.r);
        p, e0 := EntryJustified(cn, Below(basedir, d.name), Sub(w.b), Sub(w.h), Sub(w.r), q[1..], e);
        SourcedBelow(cn, basedir, w, q, e, p, e0);
        p := [w.name] + p;
      }
    }
  }

  /** Every entry of the result, file or directory, is head's entry at the same path or
      remote's at its path up to conflict names: same kind and metadata, and for a file the
      same id, owed by the three-way rule. */
  lemma {:induction false} EntryJustified(cn: ConflictNamer, basedir: string,
                                          b: seq<Dirent>, h: seq<Dirent>, r: seq<Dirent>, q: seq<string>, e: Dirent)
    returns (p: seq<string>, e0: Dirent)
    requires WfListing(b) && WfListing(h) && WfListing(r)
    requires HasEntry(Merge(cn, basedir, b, h, r), q, e)
    ensures Sourced(cn, basedir, b, h, r, q, e, p, e0)
    ensures p != [] && (!Conflicts(cn, basedir, b, h, r) ==> p == q)
    decreases |q|, 1
  {
    var d :| d in Merge(cn, basedir, b, h, r) && d.name == q[0] && ReachesEntry(d, q, e);
    var w := MergeOrigin(cn, basedir, b, h, r, d);
    RowsSound(b, h, r, w);
    p, e0 := EntryRow(cn, basedir, w, d, q, e);
    HasEntryAt(h, p, e0);
    HasEntryAt(r, p, e0);
    OwedAt(b, h, r, p, e.id);
    OwedAt(b, r, h, p, e.id);
    if RowConflicts(cn, basedir, w) { ConflictsOf(cn, basedir, b, h, r, w); }
  }

  /** Every file of the result comes from head at the same path or from remote at
      its path up to conflict names, and a file that base already had is kept only
      when the other side kept it too. */
  lemma Justified(cn: ConflictNamer, basedir: string,
                  b: seq<Dirent>, h: seq<Dirent>, r: seq<Dirent>, q: seq<string>, x: Id)
    returns (p: seq<string>)
    requires WfListing(b) && WfListing(h) && WfListing(r)
    requires HasFile(Merge(cn, basedir, b, h, r), q, x)
    ensures || (p == q && Owed(b, h, r, p, x))
            || (UpTo(cn, basedir, p, q) && Owed(b, r, h, p, x))
    ensures p != [] && (!Conflicts(cn, basedir, b, h, r) ==> p == q)
  {
    var e := FileEntry(Merge(cn, basedir, b, h, r), q, x);
    var e0;
    p, e0 := EntryJustified(cn, basedir, b, h, r, q, e);
  }

  /** No component of `p` is a conflict name generated for its directory. */
  ghost predicate NoConflictName(cn: ConflictNamer, basedir: string, p: seq<string>)
    decreases |p|
  {
    p != [] ==> (forall n, k :: cn(basedir, n, k) != Some(p[0])) && NoConflictName(cn, Below(basedir, p[0]), p[1..])
  }

  lemma {:induction false} UpToPlain(cn: ConflictNamer, basedir: string, p: seq<string>, q: seq<string>)
    requires UpTo(cn, basedir, p, q) && NoConflictName(cn, basedir, q)
    ensures p == q
    decreases |p|
  {
    if p != [] {
      UpToPlain(cn, Below(basedir, q[0]), p[1..], q[1..]);
      assert p == [p[0]] + p[1..] && q == [q[0]] + q[1..];
    }
  }

  /** A file of base that one side left alone and the other side no longer has is
      not in the result at its path. */
  lemma NotResurrected(cn: ConflictNamer, basedir: string,
                       b: seq<Dirent>, h: seq<Dirent>, r: seq<Dirent>, p: seq<string>, x: Id)
    requires WfListing(b) && WfListing(h) && WfListing(r) && NoConflictName(cn, basedir, p)
    requires HasFile(b, p, x) && !(HasFile(h, p, x) && HasFile(r, p, x))
    ensures !HasFile(Merge(cn, basedir, b, h, r), p, x)
  {
    if HasFile(Merge(cn, basedir, b, h, r), p, x) {
      var p' := Justified(cn, basedir, b, h, r, p, x);
      if p' != p { UpToPlain(cn, basedir, p', p); }
    }
  }

  /** A merge that reports no conflict computes exactly the three-way rule. */
  lemma ThreeWayRule(cn: ConflictNamer, basedir: string,
                     b: seq<Dirent>, h: seq<Dirent>, r: seq<Dirent>, p: seq<string>, x: Id)
    requires WfListing(b) && WfListing(h) && WfListing(r)
    requires !Conflicts(cn, basedir, b, h, r)
    ensures HasFile(Merge(cn, basedir, b, h, r), p, x) <==> Owed(b, h, r, p, x) || Owed(b, r, h, p, x)
  {
    if Owed(b, h, r, p, x) { var _ := HeadKept(cn, basedir, b, h, r, p, x); }
    if Owed(b, r, h, p, x) { var _, _, _ := RemoteKept(cn, basedir, b, h, r, p, x); }
    if HasFile(Merge(cn, basedir, b, h, r), p, x) { var _ := Justified(cn, basedir, b, h, r, p, x); }
  }
}
