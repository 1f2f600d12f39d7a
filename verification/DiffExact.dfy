/** The diff lists exactly the changed paths, each change once; folded, only those whose
    directories are on both sides. */
module DiffExact {
  import opened Options
  import opened Strings
  import opened FsTree
  import opened Lockstep
  import opened DiffSpec

  // ------------------------------------------------------------ spelling

  /** The part of `s` before its first slash. */
  function FirstPart(s: string): string
  {
    if s == "" || s[0] == '/' then "" else [s[0]] + FirstPart(s[1..])
  }

  lemma {:induction false} FirstPartOf(n: string, rest: string)
    requires '/' !in n && (rest == "" || rest[0] == '/')
    ensures FirstPart(n + rest) == n
  {
    if n == "" {
      assert n + rest == rest;
    } else {
      assert (n + rest)[1..] == n[1..] + rest;
      FirstPartOf(n[1..], rest);
    }
  }

  ghost predicate LegalPath(p: seq<string>)
  {
    p != [] && AllComponents(p)
  }

  function Rest(p: seq<string>): string
    requires p != []
  {
    if |p| == 1 then "" else "/" + Spell(p[1..])
  }

  lemma SpellHead(p: seq<string>)
    requires LegalPath(p)
    ensures Spell(p) == p[0] + Rest(p) && FirstPart(Spell(p)) == p[0]
  {
    FirstPartOf(p[0], Rest(p));
    assert Spell(p) == p[0] + Rest(p);
  }

  lemma SameRest(p: seq<string>, q: seq<string>)
    requires LegalPath(p) && LegalPath(q) && Spell(p) == Spell(q)
    ensures p[0] == q[0] && Rest(p) == Rest(q)
  {
    SpellHead(p);
    SpellHead(q);
    assert Rest(p) == Spell(p)[|p[0]|..] == Rest(q);
  }

  /** Different paths are spelled differently. */
  lemma {:induction false} SpellInjective(p: seq<string>, q: seq<string>)
    requires LegalPath(p) && LegalPath(q) && Spell(p) == Spell(q)
    ensures p == q
    decreases |p|
  {
    SameRest(p, q);
    if |p| > 1 && |q| > 1 {
      assert Spell(p[1..]) == Rest(p)[1..] == Rest(q)[1..] == Spell(q[1..]);
      SpellInjective(p[1..], q[1..]);
      assert p == [p[0]] + p[1..] && q == [q[0]] + q[1..];
    }
  }

  lemma SpellBelow(basedir: string, p: seq<string>)
    requires |p| > 1
    ensures basedir + Spell(p) == Below(basedir, p[0]) + Spell(p[1..])
  {
  }

  // -------------------------------------------------------- completeness

  ghost predicate WfPair(t1: seq<Dirent>, t2: seq<Dirent>)
  {
    WfListing(t1) && WfListing(t2) && LegalNames(t1) && LegalNames(t2)
  }

  ghost predicate WfPairRow(w: Row)
  {
    && (w.h.Some? ==> w.h.value.name == w.name && WfEntry(w.h.value) && LegalNames([w.h.value]))
    && (w.r.Some? ==> w.r.value.name == w.name && WfEntry(w.r.value) && LegalNames([w.r.value]))
    && (w.h.Some? || w.r.Some?)
  }

  lemma PairRow(t1: seq<Dirent>, t2: seq<Dirent>, w: Row)
    requires WfPair(t1, t2) && w in Rows([], t1, t2)
    ensures w == Row(w.name, None, Find(t1, w.name), Find(t2, w.name)) && WfPairRow(w)
  {
    RowsSound([], t1, t2, w);
  }

  lemma PairSub(w: Row)
    requires WfPairRow(w)
    ensures WfPair(Sub(w.h), Sub(w.r))
  {
    if w.h.Some? { assert w.h.value in [w.h.value]; }
    if w.r.Some? { assert w.r.value in [w.r.value]; }
    LegalSub(w.h);
    LegalSub(w.r);
    WfSub(w.h);
    WfSub(w.r);
  }

  /** All directories above the path are there on both sides. */
  ghost predicate BothDirs(t1: seq<Dirent>, t2: seq<Dirent>, p: seq<string>)
    requires p != []
    decreases |p|
  {
    |p| > 1 ==>
      var d1, d2 := Find(t1, p[0]), Find(t2, p[0]);
      AsDir(d1).Some? && AsDir(d2).Some? && BothDirs(Sub(d1), Sub(d2), p[1..])
  }

  ghost predicate ChangedAt(fold: bool, basedir: string, t1: seq<Dirent>, t2: seq<Dirent>, p: seq<string>, e: DiffEntry)
  {
    && p != [] && (fold ==> BothDirs(t1, t2, p))
    && e in ChangesAt(fold, basedir + Spell(p), Lookup(t1, p), Lookup(t2, p))
  }

  lemma SameNoChange(fold: bool, name: string, o1: Option<Dirent>, o2: Option<Dirent>)
    ensures o1 == o2 || (o1.Some? && o2.Some? && DirentSame(o1.value, o2.value)) ==> ChangesAt(fold, name, o1, o2) == {}
  {
  }

  lemma {:induction false} LookupEmpty(p: seq<string>)
    ensures Lookup([], p) == None
    decreases |p|
  {
    if |p| > 1 { LookupEmpty(p[1..]); }
  }

  /** A change below a name makes the diff look inside that name. */
  lemma LooksInside(fold: bool, w: Row, p: seq<string>, e: DiffEntry, basedir: string)
    requires ChangedAt(fold, basedir, Sub(w.h), Sub(w.r), p, e)
    requires fold ==> AsDir(w.h).Some? && AsDir(w.r).Some?
    ensures !Unchanged(w) && RowRecurses(fold, w)
  {
  }

  lemma HereComplete(fold: bool, basedir: string, w: Row, e: DiffEntry)
    requires WfPairRow(w) && e in ChangesAt(fold, basedir + w.name, w.h, w.r)
    ensures e in DiffRow(fold, basedir, w)
  {
  }

  /** Every change at any path is listed, although equal subtrees are skipped. */
  lemma {:induction false} DiffComplete(fold: bool, basedir: string, t1: seq<Dirent>, t2: seq<Dirent>,
                                        p: seq<string>, e: DiffEntry)
    requires WfPair(t1, t2) && ChangedAt(fold, basedir, t1, t2, p, e)
    ensures e in DiffTrees(fold, basedir, t1, t2)
    decreases |p|
  {
    if !HasName(t1, p[0]) && !HasName(t2, p[0]) {
      if |p| > 1 { LookupEmpty(p[1..]); }
      SameNoChange(fold, basedir + Spell(p), Lookup(t1, p), Lookup(t2, p));
    }
    var w := RowAt([], t1, t2, p[0]);
    PairRow(t1, t2, w);
    if |p| == 1 {
      HereComplete(fold, basedir, w, e);
    } else {
      SpellBelow(basedir, p);
      PairSub(w);
      var below := Below(basedir, w.name);
      DiffComplete(fold, below, Sub(w.h), Sub(w.r), p[1..], e);
      LooksInside(fold, w, p[1..], e, below);
    }
    RowsKeep(fold, basedir, Rows([], t1, t2), w, e);
  }

  // ----------------------------------------------------------- soundness

  lemma HereSound(fold: bool, basedir: string, w: Row, e: DiffEntry)
    requires WfPairRow(w) && !Unchanged(w)
    requires e in DiffHere(fold, basedir, w)
    ensures e in ChangesAt(fold, basedir + w.name, w.h, w.r)
  {
  }

  /** Every listed entry is a change at the path it names. */
  lemma {:induction false} DiffSound(fold: bool, basedir: string, t1: seq<Dirent>, t2: seq<Dirent>, e: DiffEntry)
    returns (p: seq<string>)
    requires WfPair(t1, t2) && e in DiffTrees(fold, basedir, t1, t2)
    ensures LegalPath(p) && ChangedAt(fold, basedir, t1, t2, p, e)
    decreases ListSize(t1) + ListSize(t2), 2
  {
    RowsConserveSize([], t1, t2);
    var w := RowsOrigin(fold, basedir, Rows([], t1, t2), e);
    PairRow(t1, t2, w);
    RowSizeBound(Rows([], t1, t2), w);
    p := RowSound(fold, basedir, w, e);
    assert Lookup(t1, p) == if |p| == 1 then w.h else Lookup(Sub(w.h), p[1..]);
    assert Lookup(t2, p) == if |p| == 1 then w.r else Lookup(Sub(w.r), p[1..]);
  }

  lemma {:induction false} RowSizeBound(ws: seq<Row>, w: Row)
    requires w in ws
    ensures RowSize(w) <= RowsSize(ws)
  {
    if w != ws[0] { RowSizeBound(ws[1..], w); }
  }

  lemma {:induction false} RowSound(fold: bool, basedir: string, w: Row, e: DiffEntry) returns (p: seq<string>)
    requires WfPairRow(w) && e in DiffRow(fold, basedir, w)
    ensures LegalPath(p) && p[0] == w.name
    ensures e in ChangesAt(fold, basedir + Spell(p),
                           if |p| == 1 then w.h else Lookup(Sub(w.h), p[1..]),
                           if |p| == 1 then w.r else Lookup(Sub(w.r), p[1..]))
    ensures fold && |p| > 1 ==> AsDir(w.h).Some? && AsDir(w.r).Some? && BothDirs(Sub(w.h), Sub(w.r), p[1..])
    decreases RowSize(w), 0
  {
    var here := DiffHere(fold, basedir, w);
    assert w.name != "" && '/' !in w.name by {
      if w.h.Some? { assert w.h.value in [w.h.value]; } else { assert w.r.value in [w.r.value]; }
    }
    if e in here {
      p := [w.name];
      HereSound(fold, basedir, w, e);
    } else {
      PairSub(w);
      SubShrinks(w);
      var p' := DiffSound(fold, Below(basedir, w.name), Sub(w.h), Sub(w.r), e);
      p := [w.name] + p';
      assert p[1..] == p';
      SpellBelow(basedir, p);
    }
  }

  // ---------------------------------------------------------- multiplicity

  ghost predicate NoDup(es: seq<DiffEntry>)
  {
    forall i, j :: 0 <= i < j < |es| ==> es[i] != es[j]
  }

  lemma NoDupAppend(es: seq<DiffEntry>, fs: seq<DiffEntry>)
    requires NoDup(es) && NoDup(fs) && forall e :: e in es ==> e !in fs
    ensures NoDup(es + fs)
  {
    forall i, j | 0 <= i < j < |es + fs| ensures (es + fs)[i] != (es + fs)[j] {
      if i < |es| <= j { assert es[i] in es && fs[j - |es|] in fs; }
    }
  }

  lemma RowPath(fold: bool, basedir: string, w: Row, e: DiffEntry) returns (p: seq<string>)
    requires WfPairRow(w) && e in DiffRow(fold, basedir, w)
    ensures LegalPath(p) && p[0] == w.name && e.name == basedir + Spell(p)
  {
    p := RowSound(fold, basedir, w, e);
    ChangesName(fold, basedir + Spell(p), if |p| == 1 then w.h else Lookup(Sub(w.h), p[1..]),
                if |p| == 1 then w.r else Lookup(Sub(w.r), p[1..]), e);
  }

  /** The first component after the prefix tells the rows apart. */
  lemma RowNameHead(fold: bool, basedir: string, w: Row, e: DiffEntry)
    requires WfPairRow(w) && e in DiffRow(fold, basedir, w)
    ensures |e.name| >= |basedir| && FirstPart(e.name[|basedir|..]) == w.name
  {
    var p := RowPath(fold, basedir, w, e);
    SpellHead(p);
    AfterPrefix(basedir, Spell(p), e.name);
  }

  lemma AfterPrefix(prefix: string, s: string, all: string)
    requires all == prefix + s
    ensures |all| >= |prefix| && all[|prefix|..] == s
  {
  }

  lemma {:induction false} RowsNoDup(fold: bool, basedir: string, ws: seq<Row>)
    requires DistinctRows(ws) && forall w :: w in ws ==> WfPairRow(w)
    ensures NoDup(DiffRows(fold, basedir, ws))
    decreases RowsSize(ws), 1, |ws|
  {
    if ws != [] {
      assert ws[0] in ws;
      RowsNoDup(fold, basedir, ws[1..]);
      RowNoDup(fold, basedir, ws[0]);
      var rest, row := DiffRows(fold, basedir, ws[1..]), DiffRow(fold, basedir, ws[0]);
      forall e | e in rest ensures e !in row {
        var w := RowsOrigin(fold, basedir, ws[1..], e);
        RowNameHead(fold, basedir, w, e);
        if e in row { RowNameHead(fold, basedir, ws[0], e); }
      }
      NoDupAppend(rest, row);
    }
  }

  lemma {:induction false} RowNoDup(fold: bool, basedir: string, w: Row)
    requires WfPairRow(w)
    ensures NoDup(DiffRow(fold, basedir, w))
    decreases RowSize(w), 0, 0
  {
    var here := DiffHere(fold, basedir, w);
    HereNoDup(fold, basedir, w);
    if !Unchanged(w) && RowRecurses(fold, w) {
      PairSub(w);
      SubShrinks(w);
      var below := Below(basedir, w.name);
      DiffNoDup(fold, below, Sub(w.h), Sub(w.r));
      var inner := DiffTrees(fold, below, Sub(w.h), Sub(w.r));
      forall e | e in inner ensures e !in here { InnerApart(fold, basedir, w, e); }
      NoDupAppend(inner, here);
    }
  }

  lemma HereNoDup(fold: bool, basedir: string, w: Row)
    ensures NoDup(DiffHere(fold, basedir, w))
  {
  }

  lemma HereNames(fold: bool, basedir: string, w: Row, e: DiffEntry)
    requires WfPairRow(w)
    ensures e in DiffHere(fold, basedir, w) ==> e.name == basedir + w.name
  {
  }

  lemma ChangesName(fold: bool, name: string, o1: Option<Dirent>, o2: Option<Dirent>, e: DiffEntry)
    requires e in ChangesAt(fold, name, o1, o2)
    ensures e.name == name && e.newName == None
    ensures e.status != Renamed && e.status != DirRenamed
  {
  }

  lemma InnerApart(fold: bool, basedir: string, w: Row, e: DiffEntry)
    requires WfPairRow(w) && WfPair(Sub(w.h), Sub(w.r))
    requires e in DiffTrees(fold, Below(basedir, w.name), Sub(w.h), Sub(w.r))
    ensures e !in DiffHere(fold, basedir, w)
  {
    var below := Below(basedir, w.name);
    var p := DiffSound(fold, below, Sub(w.h), Sub(w.r), e);
    ChangesName(fold, below + Spell(p), Lookup(Sub(w.h), p), Lookup(Sub(w.r), p), e);
    HereNames(fold, basedir, w, e);
  }

  lemma {:induction false} DiffNoDup(fold: bool, basedir: string, t1: seq<Dirent>, t2: seq<Dirent>)
    requires WfPair(t1, t2)
    ensures NoDup(DiffTrees(fold, basedir, t1, t2))
    decreases ListSize(t1) + ListSize(t2), 2, 0
  {
    RowsConserveSize([], t1, t2);
    RowsDistinct([], t1, t2);
    forall w | w in Rows([], t1, t2) ensures WfPairRow(w) { PairRow(t1, t2, w); }
    RowsNoDup(fold, basedir, Rows([], t1, t2));
  }

  /** The diff is exact: an entry is listed once if some path changed that way, and not at
      all otherwise. */
  lemma DiffExactly(fold: bool, t1: seq<Dirent>, t2: seq<Dirent>, e: DiffEntry)
    requires WfPair(t1, t2)
    ensures multiset(DiffTrees(fold, "", t1, t2))[e] == if exists p :: ChangedAt(fold, "", t1, t2, p, e) then 1 else 0
  {
    var es := DiffTrees(fold, "", t1, t2);
    DiffNoDup(fold, "", t1, t2);
    NoDupCount(es, e);
    if p :| ChangedAt(fold, "", t1, t2, p, e) {
      DiffComplete(fold, "", t1, t2, p, e);
    } else if e in es {
      var p := DiffSound(fold, "", t1, t2, e);
    }
  }

  lemma {:induction false} NoDupCount(es: seq<DiffEntry>, e: DiffEntry)
    requires NoDup(es)
    ensures multiset(es)[e] == if e in es then 1 else 0
  {
    if es != [] {
      NoDupCount(es[1..], e);
      assert es == [es[0]] + es[1..];
    }
  }

  // -------------------------------------------------------- path by path

  /** What the diff lists under the name of a path. */
  lemma ListedAt(fold: bool, t1: seq<Dirent>, t2: seq<Dirent>, p: seq<string>, e: DiffEntry)
    requires WfPair(t1, t2) && LegalPath(p) && e.name == Spell(p)
    ensures multiset(DiffTrees(fold, "", t1, t2))[e] ==
            if (fold ==> BothDirs(t1, t2, p)) && e in ChangesAt(fold, Spell(p), Lookup(t1, p), Lookup(t2, p))
            then 1 else 0
  {
    DiffExactly(fold, t1, t2, e);
    assert "" + Spell(p) == Spell(p);
    if (fold ==> BothDirs(t1, t2, p)) && e in ChangesAt(fold, Spell(p), Lookup(t1, p), Lookup(t2, p)) {
      assert ChangedAt(fold, "", t1, t2, p, e);
    } else if e in DiffTrees(fold, "", t1, t2) {
      var q := DiffSound(fold, "", t1, t2, e);
      assert "" + Spell(q) == Spell(q);
      ChangesName(fold, Spell(q), Lookup(t1, q), Lookup(t2, q), e);
      SpellInjective(p, q);
    }
  }

  lemma {:induction false} BothFound(t1: seq<Dirent>, t2: seq<Dirent>, p: seq<string>)
    requires p != [] && Lookup(t1, p).Some? && Lookup(t2, p).Some?
    ensures BothDirs(t1, t2, p)
    decreases |p|
  {
    if |p| > 1 {
      if AsDir(Find(t1, p[0])).None? { LookupEmpty(p[1..]); }
      if AsDir(Find(t2, p[0])).None? { LookupEmpty(p[1..]); }
      BothFound(Sub(Find(t1, p[0])), Sub(Find(t2, p[0])), p[1..]);
    }
  }

  /** A file on both sides of a path gets one entry, with the new id and both sizes, if its
      id, mode or modification time differs, and none otherwise. */
  lemma FileModified(fold: bool, t1: seq<Dirent>, t2: seq<Dirent>, p: seq<string>, f1: Dirent, f2: Dirent)
    requires WfPair(t1, t2) && LegalPath(p) && Lookup(t1, p) == Some(f1) && Lookup(t2, p) == Some(f2)
    requires f1.kind.File? && f2.kind.File?
    ensures var e := DiffEntry(Modified, f2.id, Spell(p), None, f2.meta.size, f1.meta.size);
            && multiset(DiffTrees(fold, "", t1, t2))[e] ==
               (if f1.id != f2.id || f1.meta.perm != f2.meta.perm || f1.meta.mtime != f2.meta.mtime then 1 else 0)
            && forall e' :: e' in DiffTrees(fold, "", t1, t2) && e'.name == Spell(p) ==> e' == e
  {
    var e := DiffEntry(Modified, f2.id, Spell(p), None, f2.meta.size, f1.meta.size);
    BothFound(t1, t2, p);
    ListedAt(fold, t1, t2, p, e);
    forall e' | e' in DiffTrees(fold, "", t1, t2) && e'.name == Spell(p) ensures e' == e {
      ListedAt(fold, t1, t2, p, e');
      OnlyModified(fold, Spell(p), f1, f2, e');
    }
    OnlyModified(fold, Spell(p), f1, f2, e);
  }

  lemma OnlyModified(fold: bool, name: string, f1: Dirent, f2: Dirent, e: DiffEntry)
    requires f1.kind.File? && f2.kind.File?
    ensures e in ChangesAt(fold, name, Some(f1), Some(f2)) <==>
            FileDiffers(f1, f2) && e == DiffEntry(Modified, f2.id, name, None, f2.meta.size, f1.meta.size)
  {
  }

  ghost predicate Listed(es: seq<DiffEntry>, s: Status, name: string)
  {
    exists e :: e in es && e.status == s && e.name == name
  }

  predicate FileAt(o: Option<Dirent>)
  {
    o.Some? && o.value.kind.File?
  }

  predicate DirAt(o: Option<Dirent>)
  {
    o.Some? && o.value.kind.Dir?
  }

  /** The two entries of a path call for an entry of this status. */
  predicate CallsFor(fold: bool, o1: Option<Dirent>, o2: Option<Dirent>, s: Status)
  {
    match s
    case Added => !FileAt(o1) && FileAt(o2)
    case Deleted => FileAt(o1) && !FileAt(o2)
    case Modified =>
      && FileAt(o1) && FileAt(o2)
      && (|| o1.value.id != o2.value.id || o1.value.meta.perm != o2.value.meta.perm
          || o1.value.meta.mtime != o2.value.meta.mtime)
    case DirAdded => !DirAt(o1) && DirAt(o2) && (o2.value.id == Zero || fold)
    case DirDeleted => DirAt(o1) && !DirAt(o2)
    case Renamed => false
    case DirRenamed => false
  }

  /** A file came, went, or differs in id, mode or modification time. */
  predicate FileChanged(o1: Option<Dirent>, o2: Option<Dirent>)
  {
    CallsFor(false, o1, o2, Added) || CallsFor(false, o1, o2, Deleted) || CallsFor(false, o1, o2, Modified)
  }

  /** A directory went, or an empty one came. */
  predicate DirChanged(o1: Option<Dirent>, o2: Option<Dirent>)
  {
    CallsFor(false, o1, o2, DirAdded) || CallsFor(false, o1, o2, DirDeleted)
  }

  /** Which kinds of change are listed under the name of a path. */
  lemma StatusExact(fold: bool, t1: seq<Dirent>, t2: seq<Dirent>, p: seq<string>, s: Status)
    requires WfPair(t1, t2) && LegalPath(p)
    ensures Listed(DiffTrees(fold, "", t1, t2), s, Spell(p)) <==>
            (fold ==> BothDirs(t1, t2, p)) && CallsFor(fold, Lookup(t1, p), Lookup(t2, p), s)
  {
    var es := DiffTrees(fold, "", t1, t2);
    if Listed(es, s, Spell(p)) {
      var e :| e in es && e.status == s && e.name == Spell(p);
      ListedAt(fold, t1, t2, p, e);
      StatusSound(fold, Spell(p), Lookup(t1, p), Lookup(t2, p), e);
    }
    if (fold ==> BothDirs(t1, t2, p)) && CallsFor(fold, Lookup(t1, p), Lookup(t2, p), s) {
      var e := StatusComplete(fold, Spell(p), Lookup(t1, p), Lookup(t2, p), s);
      ListedAt(fold, t1, t2, p, e);
    }
  }

  lemma StatusSound(fold: bool, name: string, o1: Option<Dirent>, o2: Option<Dirent>, e: DiffEntry)
    requires e in ChangesAt(fold, name, o1, o2)
    ensures CallsFor(fold, o1, o2, e.status)
  {
  }

  lemma StatusComplete(fold: bool, name: string, o1: Option<Dirent>, o2: Option<Dirent>, s: Status)
    returns (e: DiffEntry)
    requires CallsFor(fold, o1, o2, s)
    ensures e in ChangesAt(fold, name, o1, o2) && e.status == s && e.name == name
  {
    var d := if s == Deleted || s == DirDeleted then o1.value else o2.value;
    e := DiffEntry(s, d.id, name, None, d.meta.size, if s == Modified then o1.value.meta.size else 0);
  }
}
