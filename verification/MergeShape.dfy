/** When the merged tree is again a legal tree: exactly when no two entries the
    merge emits into one directory share a name, which fresh conflict names ensure. */
module MergeShape {
  import opened Options
  import opened Strings
  import opened FsTree
  import opened Lockstep
  import opened MergeSpec
  import opened MergeTheorems

  function Names(es: seq<Dirent>): (ns: seq<string>)
    ensures |ns| == |es| && forall i :: 0 <= i < |es| ==> ns[i] == es[i].name
  {
    if es == [] then [] else [es[0].name] + Names(es[1..])
  }

  /** The names one row emits; they do not depend on what a recursive merge returns. */
  function RowNames(cn: ConflictNamer, basedir: string, w: Row): seq<string>
  {
    var step := DirStepOf(cn, basedir, w);
    (if step.Skip? then [] else [step.dent.name]) + Names(MergeFiles(cn, basedir, w).out)
  }

  function LevelNames(cn: ConflictNamer, basedir: string, ws: seq<Row>): seq<string>
  {
    if ws == [] then [] else LevelNames(cn, basedir, ws[1..]) + RowNames(cn, basedir, ws[0])
  }

  lemma {:induction false} NamesAppend(es: seq<Dirent>, fs: seq<Dirent>)
    ensures Names(es + fs) == Names(es) + Names(fs)
  {
  }

  lemma RowNamesOf(cn: ConflictNamer, basedir: string, w: Row)
    ensures Names(MergeRow(cn, basedir, w)) == RowNames(cn, basedir, w)
  {
    assert |MergeRow(cn, basedir, w)| == |RowNames(cn, basedir, w)|;
  }

  lemma {:induction false} LevelNamesOf(cn: ConflictNamer, basedir: string, ws: seq<Row>)
    ensures Names(MergeRows(cn, basedir, ws)) == LevelNames(cn, basedir, ws)
  {
    if ws != [] {
      LevelNamesOf(cn, basedir, ws[1..]);
      RowNamesOf(cn, basedir, ws[0]);
      NamesAppend(MergeRows(cn, basedir, ws[1..]), MergeRow(cn, basedir, ws[0]));
    }
  }

  // ------------------------------------------------------ names that conflict

  /** Head and remote both have the name, not both as directories, and both changed it. */
  predicate InConflict(w: Row)
  {
    w.h.Some? && w.r.Some? &&
    var b, h, r := AsFile(w.b), w.h.value, w.r.value;
    if h.kind.File? && r.kind.File? then
      h.id != r.id && (b.Some? ==> b.value.id != h.id && b.value.id != r.id)
    else if h.kind.Dir? && r.kind.File? then
      if b.Some? then b.value.id != r.id else w.b.Some? ==> w.b.value.id != h.id
    else
      h.kind.File? && if b.Some? then b.value.id != h.id else w.b.Some? ==> w.b.value.id != r.id
  }

  /** Neither side has the name, or one side left it alone and the other has it no more. */
  predicate Gone(w: Row)
  {
    if w.h.Some? && w.r.Some? then false
    else if w.h.Some? then LeftAlone(w.b, w.h.value)
    else if w.r.Some? then LeftAlone(w.b, w.r.value)
    else true
  }

  predicate LeftAlone(b: Option<Dirent>, d: Dirent)
  {
    b.Some? && b.value.kind == d.kind && b.value.id == d.id
  }

  /** The name that remote's entry gets in a conflict; its own if none can be generated. */
  function ConflictName(cn: ConflictNamer, basedir: string, w: Row): string
    requires w.r.Some?
  {
    var c := cn(basedir, w.name, w.r.value.kind);
    if c.Some? then c.value else w.name
  }

  lemma ConflictIff(cn: ConflictNamer, basedir: string, w: Row)
    ensures MergeFiles(cn, basedir, w).conflict <==> InConflict(w)
  {
  }

  /** A name emits nothing, itself, or itself and its conflict name. */
  lemma RowNamesAre(cn: ConflictNamer, basedir: string, w: Row)
    requires WfRow(w)
    ensures Gone(w) ==> RowNames(cn, basedir, w) == []
    ensures !Gone(w) && !InConflict(w) ==> RowNames(cn, basedir, w) == [w.name]
    ensures InConflict(w) ==>
      var c := ConflictName(cn, basedir, w);
      RowNames(cn, basedir, w) == [c, w.name] || RowNames(cn, basedir, w) == [w.name, c]
  {
    ConflictIff(cn, basedir, w);
  }

  /** `m` is a name that row `w` leaves. */
  ghost predicate Leaves(cn: ConflictNamer, basedir: string, w: Row, m: string)
  {
    (!Gone(w) && m == w.name) || (InConflict(w) && m == ConflictName(cn, basedir, w))
  }

  lemma RowMember(cn: ConflictNamer, basedir: string, w: Row, m: string)
    requires WfRow(w)
    ensures m in RowNames(cn, basedir, w) <==> Leaves(cn, basedir, w, m)
  {
    RowNamesAre(cn, basedir, w);
  }

  ghost predicate SelfApart(cn: ConflictNamer, basedir: string, w: Row)
  {
    InConflict(w) ==> ConflictName(cn, basedir, w) != w.name
  }

  /** The conflict name of either row is no name the other row leaves. */
  ghost predicate Apart(cn: ConflictNamer, basedir: string, w: Row, v: Row)
  {
    && (InConflict(w) && !Gone(v) ==> ConflictName(cn, basedir, w) != v.name)
    && (InConflict(v) && !Gone(w) ==> ConflictName(cn, basedir, v) != w.name)
    && (InConflict(w) && InConflict(v) ==> ConflictName(cn, basedir, w) != ConflictName(cn, basedir, v))
  }

  /** Every conflict name is generated, is no name that stays, and is given once. */
  ghost predicate ConflictNamesFree(cn: ConflictNamer, basedir: string, ws: seq<Row>)
  {
    && (forall w :: w in ws ==> SelfApart(cn, basedir, w))
    && (forall w, v :: w in ws && v in ws && w.name != v.name ==> Apart(cn, basedir, w, v))
  }

  ghost predicate Disjoint(ns: seq<string>, ms: seq<string>)
  {
    forall m :: m in ns ==> m !in ms
  }

  lemma RowDistinctIff(cn: ConflictNamer, basedir: string, w: Row)
    requires WfRow(w)
    ensures Distinct(RowNames(cn, basedir, w)) <==> SelfApart(cn, basedir, w)
  {
    RowNamesAre(cn, basedir, w);
    if InConflict(w) {
      var ns := RowNames(cn, basedir, w);
      assert |ns| == 2 && (Distinct(ns) <==> ns[0] != ns[1]);
    }
  }

  lemma ApartIff(cn: ConflictNamer, basedir: string, w: Row, v: Row)
    requires w.name != v.name
    ensures (forall m :: Leaves(cn, basedir, w, m) ==> !Leaves(cn, basedir, v, m)) <==> Apart(cn, basedir, w, v)
  {
    if forall m :: Leaves(cn, basedir, w, m) ==> !Leaves(cn, basedir, v, m) {
      if InConflict(w) { assert Leaves(cn, basedir, w, ConflictName(cn, basedir, w)); }
      if InConflict(v) { assert Leaves(cn, basedir, v, ConflictName(cn, basedir, v)); }
    }
  }

  lemma RowsApartIff(cn: ConflictNamer, basedir: string, w: Row, v: Row)
    requires WfRow(w) && WfRow(v) && w.name != v.name
    ensures Disjoint(RowNames(cn, basedir, w), RowNames(cn, basedir, v)) <==> Apart(cn, basedir, w, v)
  {
    var ns, ms := RowNames(cn, basedir, w), RowNames(cn, basedir, v);
    forall m ensures (m in ns <==> Leaves(cn, basedir, w, m)) && (m in ms <==> Leaves(cn, basedir, v, m)) {
      RowMember(cn, basedir, w, m);
      RowMember(cn, basedir, v, m);
    }
    ApartIff(cn, basedir, w, v);
  }

  lemma {:induction false} LevelMember(cn: ConflictNamer, basedir: string, ws: seq<Row>, m: string)
    ensures m in LevelNames(cn, basedir, ws) <==> exists w :: w in ws && m in RowNames(cn, basedir, w)
  {
    if ws != [] {
      LevelMember(cn, basedir, ws[1..], m);
      if w :| w in ws && m in RowNames(cn, basedir, w) {
        if w != ws[0] { assert w in ws[1..]; }
      }
    }
  }

  /** The names of a level avoid those of one more row exactly when every row does. */
  lemma LevelDisjointIff(cn: ConflictNamer, basedir: string, ws: seq<Row>, v: Row)
    ensures Disjoint(LevelNames(cn, basedir, ws), RowNames(cn, basedir, v)) <==>
      forall w :: w in ws ==> Disjoint(RowNames(cn, basedir, w), RowNames(cn, basedir, v))
  {
    forall m ensures m in LevelNames(cn, basedir, ws) <==> exists w :: w in ws && m in RowNames(cn, basedir, w) {
      LevelMember(cn, basedir, ws, m);
    }
  }

  lemma DistinctAppendIff(ns: seq<string>, ms: seq<string>)
    ensures Distinct(ns + ms) <==> Distinct(ns) && Distinct(ms) && Disjoint(ns, ms)
  {
    var all := ns + ms;
    if Distinct(ns) && Distinct(ms) && Disjoint(ns, ms) { DistinctAppend(ns, ms); }
    if Distinct(all) {
      assert forall i :: 0 <= i < |ns| ==> all[i] == ns[i];
      assert forall j :: 0 <= j < |ms| ==> all[|ns| + j] == ms[j];
      forall m | m in ns ensures m !in ms {
        var i :| 0 <= i < |ns| && ns[i] == m;
      }
    }
  }

  lemma FreeCons(cn: ConflictNamer, basedir: string, ws: seq<Row>)
    requires ws != [] && DistinctRows(ws)
    ensures ConflictNamesFree(cn, basedir, ws) <==>
      && ConflictNamesFree(cn, basedir, ws[1..]) && SelfApart(cn, basedir, ws[0])
      && forall w :: w in ws[1..] ==> Apart(cn, basedir, w, ws[0])
  {
    assert forall w :: w in ws <==> w == ws[0] || w in ws[1..];
    assert forall w :: w in ws[1..] ==> w.name != ws[0].name;
  }

  /** The emitted names are distinct exactly when the conflict names are free. */
  lemma {:induction false} LevelIff(cn: ConflictNamer, basedir: string, ws: seq<Row>)
    requires DistinctRows(ws) && forall w :: w in ws ==> WfRow(w)
    ensures Distinct(LevelNames(cn, basedir, ws)) <==> ConflictNamesFree(cn, basedir, ws)
  {
    if ws != [] {
      var rest, w0 := ws[1..], ws[0];
      LevelIff(cn, basedir, rest);
      DistinctAppendIff(LevelNames(cn, basedir, rest), RowNames(cn, basedir, w0));
      RowDistinctIff(cn, basedir, w0);
      LevelDisjointIff(cn, basedir, rest, w0);
      forall w | w in rest
        ensures Disjoint(RowNames(cn, basedir, w), RowNames(cn, basedir, w0)) <==> Apart(cn, basedir, w, w0)
      {
        RowsApartIff(cn, basedir, w, w0);
      }
      FreeCons(cn, basedir, ws);
    }
  }

  // ---------------------------------------------------------- no two alike

  ghost predicate RowNoClash(cn: ConflictNamer, basedir: string, w: Row)
    decreases RowSize(w), 0, 0
  {
    DirStepOf(cn, basedir, w).Recurse? ==>
      (RecurseShrinks(cn, basedir, w);
       NoClash(cn, Below(basedir, DirStepOf(cn, basedir, w).dent.name), Sub(w.b), Sub(w.h), Sub(w.r)))
  }

  ghost predicate RowsNoClash(cn: ConflictNamer, basedir: string, ws: seq<Row>)
    decreases RowsSize(ws), 1, |ws|
  {
    ws != [] ==> RowNoClash(cn, basedir, ws[0]) && RowsNoClash(cn, basedir, ws[1..])
  }

  /** In every directory the merge visits, the conflict names it needs are free. */
  ghost predicate NoClash(cn: ConflictNamer, basedir: string, b: seq<Dirent>, h: seq<Dirent>, r: seq<Dirent>)
    decreases ListSize(b) + ListSize(h) + ListSize(r), 2, 0
  {
    RowsConserveSize(b, h, r);
    ConflictNamesFree(cn, basedir, Rows(b, h, r)) && RowsNoClash(cn, basedir, Rows(b, h, r))
  }

  lemma DistinctNamesIff(es: seq<Dirent>)
    ensures DistinctNames(es) <==> Distinct(Names(es))
  {
  }

  /** A row emits only legal entries exactly when its recursive merge is legal. */
  lemma {:induction false} RowWf(cn: ConflictNamer, basedir: string, w: Row)
    requires WfRow(w)
    ensures (forall d :: d in MergeRow(cn, basedir, w) ==> WfEntry(d)) <==> RowNoClash(cn, basedir, w)
    decreases RowSize(w), 0, 0
  {
    RemoteAfterFiles(cn, basedir, w);
    KeptIsDir(cn, basedir, w);
    forall d | d in MergeFiles(cn, basedir, w).out ensures WfEntry(d) { FileWf(cn, basedir, w, d); }
    if DirStepOf(cn, basedir, w).Recurse? {
      WfSub(w.b);
      WfSub(w.h);
      WfSub(w.r);
      RecurseShrinks(cn, basedir, w);
      MergeWf(cn, Below(basedir, DirStepOf(cn, basedir, w).dent.name), Sub(w.b), Sub(w.h), Sub(w.r));
      WfDirIff(SubMerge(cn, basedir, w));
      MergedDirEmitted(cn, basedir, w);
      forall d | d in MergeRow(cn, basedir, w) && d != MergedDir(cn, basedir, w) ensures WfEntry(d) {
        RowParts(cn, basedir, w, d);
      }
    } else {
      forall d | d in MergeRow(cn, basedir, w) ensures WfEntry(d) {
        RowParts(cn, basedir, w, d);
      }
    }
  }

  lemma FileWf(cn: ConflictNamer, basedir: string, w: Row, d: Dirent)
    requires WfRow(w) && d in MergeFiles(cn, basedir, w).out
    ensures WfEntry(d)
  {
  }

  lemma {:induction false} RowsWf(cn: ConflictNamer, basedir: string, ws: seq<Row>)
    requires forall w :: w in ws ==> WfRow(w)
    ensures (forall d :: d in MergeRows(cn, basedir, ws) ==> WfEntry(d)) <==> RowsNoClash(cn, basedir, ws)
    decreases RowsSize(ws), 1, |ws|
  {
    if ws != [] {
      RowWf(cn, basedir, ws[0]);
      RowsWf(cn, basedir, ws[1..]);
      var rest, row := MergeRows(cn, basedir, ws[1..]), MergeRow(cn, basedir, ws[0]);
      assert MergeRows(cn, basedir, ws) == rest + row;
      assert forall d :: d in rest + row <==> d in rest || d in row;
    }
  }

  /** The merged tree is legal input to merge and diff again exactly when, in every
      directory the merge visits, the names of the entries in conflict can be generated,
      are no name that stays there, and differ. */
  lemma {:induction false} MergeWf(cn: ConflictNamer, basedir: string, b: seq<Dirent>, h: seq<Dirent>, r: seq<Dirent>)
    requires WfListing(b) && WfListing(h) && WfListing(r)
    ensures WfListing(Merge(cn, basedir, b, h, r)) <==> NoClash(cn, basedir, b, h, r)
    decreases ListSize(b) + ListSize(h) + ListSize(r), 2, 0
  {
    RowsConserveSize(b, h, r);
    var ws := Rows(b, h, r);
    forall w | w in ws ensures WfRow(w) { RowsSound(b, h, r, w); }
    RowsWf(cn, basedir, ws);
    var es := MergeRows(cn, basedir, ws);
    SortDescending(es);
    DistinctNamesIff(es);
    LevelNamesOf(cn, basedir, ws);
    RowsDistinct(b, h, r);
    LevelIff(cn, basedir, ws);
    forall d ensures d in es <==> d in SortDesc(es) { SameElements(es, SortDesc(es), d); }
    assert Merge(cn, basedir, b, h, r) == SortDesc(es);
  }

  // ------------------------------------------------------ fresh conflict names

  /** In this directory conflict names are generated, are no entry's name, and
      differ for different entries. */
  ghost predicate FreshHere(cn: ConflictNamer, basedir: string, h: seq<Dirent>, r: seq<Dirent>)
  {
    && (forall n, k :: HasName(h, n) || HasName(r, n) ==>
          && cn(basedir, n, k).Some?
          && !HasName(h, cn(basedir, n, k).value) && !HasName(r, cn(basedir, n, k).value))
    && (forall n, m, k, l :: (HasName(h, n) || HasName(r, n)) && (HasName(h, m) || HasName(r, m)) && n != m ==>
          cn(basedir, n, k) != cn(basedir, m, l))
  }

  ghost predicate RowFresh(cn: ConflictNamer, basedir: string, w: Row)
    decreases RowSize(w), 0, 0
  {
    DirStepOf(cn, basedir, w).Recurse? ==>
      (RecurseShrinks(cn, basedir, w);
       Fresh(cn, Below(basedir, DirStepOf(cn, basedir, w).dent.name), Sub(w.b), Sub(w.h), Sub(w.r)))
  }

  ghost predicate RowsFresh(cn: ConflictNamer, basedir: string, ws: seq<Row>)
    decreases RowsSize(ws), 1, |ws|
  {
    ws != [] ==> RowFresh(cn, basedir, ws[0]) && RowsFresh(cn, basedir, ws[1..])
  }

  /** Conflict names are fresh in every directory the merge visits. */
  ghost predicate Fresh(cn: ConflictNamer, basedir: string, b: seq<Dirent>, h: seq<Dirent>, r: seq<Dirent>)
    decreases ListSize(b) + ListSize(h) + ListSize(r), 2, 0
  {
    RowsConserveSize(b, h, r);
    FreshHere(cn, basedir, h, r) && RowsFresh(cn, basedir, Rows(b, h, r))
  }

  lemma DistinctAppend(ns: seq<string>, ms: seq<string>)
    requires Distinct(ns) && Distinct(ms) && Disjoint(ns, ms)
    ensures Distinct(ns + ms)
  {
    forall i, j | 0 <= i < j < |ns + ms| ensures (ns + ms)[i] != (ns + ms)[j] {
      if i < |ns| <= j { assert ns[i] in ns && ms[j - |ns|] in ms; }
    }
  }

  /** The entries of a row are those head and remote have. */
  ghost predicate RowIn(h: seq<Dirent>, r: seq<Dirent>, w: Row)
  {
    (w.h.Some? ==> HasName(h, w.name)) && (w.r.Some? ==> HasName(r, w.name))
  }

  lemma FreshApart(cn: ConflictNamer, basedir: string, h: seq<Dirent>, r: seq<Dirent>, w: Row, v: Row)
    requires FreshHere(cn, basedir, h, r) && RowIn(h, r, w) && RowIn(h, r, v) && w.name != v.name
    ensures SelfApart(cn, basedir, w) && Apart(cn, basedir, w, v)
  {
  }

  lemma FreshFree(cn: ConflictNamer, basedir: string, h: seq<Dirent>, r: seq<Dirent>, ws: seq<Row>)
    requires FreshHere(cn, basedir, h, r) && forall w :: w in ws ==> RowIn(h, r, w)
    ensures ConflictNamesFree(cn, basedir, ws)
  {
    forall w, v | w in ws && v in ws && w.name != v.name ensures Apart(cn, basedir, w, v) {
      FreshApart(cn, basedir, h, r, w, v);
    }
  }

  lemma {:induction false} RowFreshNoClash(cn: ConflictNamer, basedir: string, w: Row)
    requires WfRow(w) && RowFresh(cn, basedir, w)
    ensures RowNoClash(cn, basedir, w)
    decreases RowSize(w), 0, 0
  {
    if DirStepOf(cn, basedir, w).Recurse? {
      WfSub(w.b);
      WfSub(w.h);
      WfSub(w.r);
      RecurseShrinks(cn, basedir, w);
      FreshNoClash(cn, Below(basedir, DirStepOf(cn, basedir, w).dent.name), Sub(w.b), Sub(w.h), Sub(w.r));
    }
  }

  lemma {:induction false} RowsFreshNoClash(cn: ConflictNamer, basedir: string, ws: seq<Row>)
    requires (forall w :: w in ws ==> WfRow(w)) && RowsFresh(cn, basedir, ws)
    ensures RowsNoClash(cn, basedir, ws)
    decreases RowsSize(ws), 1, |ws|
  {
    if ws != [] {
      RowFreshNoClash(cn, basedir, ws[0]);
      RowsFreshNoClash(cn, basedir, ws[1..]);
    }
  }

  /** Fresh conflict names rule every clash out, so the merged tree is legal. */
  lemma {:induction false} FreshNoClash(cn: ConflictNamer, basedir: string, b: seq<Dirent>, h: seq<Dirent>,
                                        r: seq<Dirent>)
    requires WfListing(b) && WfListing(h) && WfListing(r) && Fresh(cn, basedir, b, h, r)
    ensures NoClash(cn, basedir, b, h, r)
    decreases ListSize(b) + ListSize(h) + ListSize(r), 2, 0
  {
    RowsConserveSize(b, h, r);
    var ws := Rows(b, h, r);
    forall w | w in ws ensures WfRow(w) && RowIn(h, r, w) { RowsSound(b, h, r, w); }
    FreshFree(cn, basedir, h, r, ws);
    RowsFreshNoClash(cn, basedir, ws);
  }

  lemma FreshMergeWf(cn: ConflictNamer, basedir: string, b: seq<Dirent>, h: seq<Dirent>, r: seq<Dirent>)
    requires WfListing(b) && WfListing(h) && WfListing(r) && Fresh(cn, basedir, b, h, r)
    ensures WfListing(Merge(cn, basedir, b, h, r)) && WfDir(DirId(Merge(cn, basedir, b, h, r)))
  {
    FreshNoClash(cn, basedir, b, h, r);
    MergeWf(cn, basedir, b, h, r);
    WfDirIff(Merge(cn, basedir, b, h, r));
  }

  // ------------------------------------------------- fresh names resurrect nothing

  lemma {:induction false} RowFreshOf(cn: ConflictNamer, basedir: string, ws: seq<Row>, w: Row)
    requires RowsFresh(cn, basedir, ws) && w in ws
    ensures RowFresh(cn, basedir, w)
  {
    if w != ws[0] { RowFreshOf(cn, basedir, ws[1..], w); }
  }

  lemma EntryLeaves(cn: ConflictNamer, basedir: string, w: Row, d: Dirent)
    requires WfRow(w) && d in MergeRow(cn, basedir, w)
    ensures Leaves(cn, basedir, w, d.name)
  {
    RowNamesOf(cn, basedir, w);
    var es := MergeRow(cn, basedir, w);
    var i :| 0 <= i < |es| && es[i] == d;
    assert Names(es)[i] == d.name;
    RowMember(cn, basedir, w, d.name);
  }

  lemma FreshKeepsName(cn: ConflictNamer, basedir: string, h: seq<Dirent>, r: seq<Dirent>, w: Row, m: string)
    requires FreshHere(cn, basedir, h, r) && RowIn(h, r, w) && Leaves(cn, basedir, w, m)
    requires HasName(h, m) || HasName(r, m)
    ensures m == w.name
  {
  }

  /** An entry under a name that head or remote has comes from the row of that name. */
  lemma FreshOwnRow(cn: ConflictNamer, basedir: string, b: seq<Dirent>, h: seq<Dirent>, r: seq<Dirent>, w: Row,
                    d: Dirent)
    requires WfListing(b) && WfListing(h) && WfListing(r) && FreshHere(cn, basedir, h, r)
    requires w in Rows(b, h, r) && d in MergeRow(cn, basedir, w) && (HasName(h, d.name) || HasName(r, d.name))
    ensures w == Row(d.name, Find(b, d.name), Find(h, d.name), Find(r, d.name)) && WfRow(w)
  {
    RowsSound(b, h, r, w);
    EntryLeaves(cn, basedir, w, d);
    FreshKeepsName(cn, basedir, h, r, w, d.name);
  }

  lemma {:induction false} RowNotBack(cn: ConflictNamer, basedir: string, w: Row, d: Dirent, p: seq<string>, x: Id)
    requires WfRow(w) && RowFresh(cn, basedir, w) && p != [] && w.name == p[0]
    requires d in MergeRow(cn, basedir, w) && d.name == p[0]
    requires Reaches(w.b, p, x) && (Reaches(w.h, p, x) != Reaches(w.r, p, x))
    ensures !ReachesFile(d, p, x)
    decreases |p|, 0
  {
    RowParts(cn, basedir, w, d);
    KeptIsDir(cn, basedir, w);
    if d in MergeFiles(cn, basedir, w).out {
      FileOrigin(cn, basedir, w, d);
      assert |p| == 1 ==> p == [w.name];
    } else if |p| > 1 {
      if DirStepOf(cn, basedir, w).Keep? {
        if ReachesFile(d, p, x) { KeptOrigin(cn, basedir, w, p, x); }
      } else {
        ReachesBelow(w.b, p, x);
        ReachesBelow(w.h, p, x);
        ReachesBelow(w.r, p, x);
        WfSub(w.b);
        WfSub(w.h);
        WfSub(w.r);
        FreshNotResurrected(cn, Below(basedir, d.name), Sub(w.b), Sub(w.h), Sub(w.r), p[1..], x);
      }
    }
  }

  /** With fresh conflict names, a file of base that one side left alone and the other
      side no longer has is not in the result at its path. */
  lemma {:induction false} FreshNotResurrected(cn: ConflictNamer, basedir: string,
                                               b: seq<Dirent>, h: seq<Dirent>, r: seq<Dirent>, p: seq<string>, x: Id)
    requires WfListing(b) && WfListing(h) && WfListing(r) && Fresh(cn, basedir, b, h, r)
    requires HasFile(b, p, x) && (HasFile(h, p, x) != HasFile(r, p, x))
    ensures !HasFile(Merge(cn, basedir, b, h, r), p, x)
    decreases |p|, 1
  {
    HasFileAt(b, p, x);
    HasFileAt(h, p, x);
    HasFileAt(r, p, x);
    forall d | d in Merge(cn, basedir, b, h, r) && d.name == p[0] ensures !ReachesFile(d, p, x) {
      var w := MergeOrigin(cn, basedir, b, h, r, d);
      FreshOwnRow(cn, basedir, b, h, r, w, d);
      RowFreshOf(cn, basedir, Rows(b, h, r), w);
      RowNotBack(cn, basedir, w, d, p, x);
    }
  }
}
