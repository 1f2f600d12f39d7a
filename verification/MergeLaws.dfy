/** Merging when one side did not change. */
module MergeLaws {
  import opened Options
  import opened FsTree
  import opened Lockstep
  import opened MergeSpec
  import opened MergeTheorems
  import opened MergeShape

  function Opt(o: Option<Dirent>): seq<Dirent>
  {
    if o.Some? then [o.value] else []
  }

  function HeadColumn(ws: seq<Row>): seq<Dirent>
  {
    if ws == [] then [] else Opt(ws[0].h) + HeadColumn(ws[1..])
  }

  function RemoteColumn(ws: seq<Row>): seq<Dirent>
  {
    if ws == [] then [] else Opt(ws[0].r) + RemoteColumn(ws[1..])
  }

  lemma ColumnsCons(w: Row, ws: seq<Row>)
    ensures HeadColumn([w] + ws) == Opt(w.h) + HeadColumn(ws)
    ensures RemoteColumn([w] + ws) == Opt(w.r) + RemoteColumn(ws)
  {
  }

  lemma TakeDrop(es: seq<Dirent>, n: string)
    ensures Opt(Take(es, n)) + Drop(es, n) == es
  {
  }

  /** The walk hands every entry of head and of remote out exactly once, in listing order. */
  lemma {:induction false} ColumnsOf(b: seq<Dirent>, h: seq<Dirent>, r: seq<Dirent>)
    ensures HeadColumn(Rows(b, h, r)) == h
    ensures RemoteColumn(Rows(b, h, r)) == r
    decreases |b| + |h| + |r|
  {
    if FirstName(b, h, r).Some? {
      var n := FirstName(b, h, r).value;
      FirstNameBounds(b, h, r, n);
      ColumnsOf(Drop(b, n), Drop(h, n), Drop(r, n));
      ColumnsCons(Row(n, Take(b, n), Take(h, n), Take(r, n)), Rows(Drop(b, n), Drop(h, n), Drop(r, n)));
      TakeDrop(h, n);
      TakeDrop(r, n);
    }
  }

  /** No row is in conflict and none is merged recursively, so no object is written. */
  ghost predicate Flat(cn: ConflictNamer, basedir: string, ws: seq<Row>)
  {
    forall w :: w in ws ==> !MergeFiles(cn, basedir, w).conflict && !DirStepOf(cn, basedir, w).Recurse?
  }

  lemma {:induction false} FlatNoConflict(cn: ConflictNamer, basedir: string, ws: seq<Row>)
    requires Flat(cn, basedir, ws)
    ensures !RowsConflict(cn, basedir, ws)
  {
    if ws != [] {
      assert ws[0] in ws;
      FlatNoConflict(cn, basedir, ws[1..]);
    }
  }

  // ------------------------------------------- remote unchanged, or the same as head

  /** The file cases keep head's file, the directory cases head's directory. */
  lemma PartsKeepHead(cn: ConflictNamer, basedir: string, w: Row)
    requires WfRow(w) && (w.b == w.r || w.h == w.r)
    ensures MergeFiles(cn, basedir, w) == FileStep(Opt(AsFile(w.h)), w.r, false)
    ensures DirStepOf(cn, basedir, w) == if AsDir(w.h).Some? then Keep(w.h.value) else Skip
  {
  }

  lemma RowKeepsHead(cn: ConflictNamer, basedir: string, w: Row)
    requires WfRow(w) && (w.b == w.r || w.h == w.r)
    ensures MergeRow(cn, basedir, w) == Opt(w.h)
    ensures !MergeFiles(cn, basedir, w).conflict && !DirStepOf(cn, basedir, w).Recurse?
  {
    PartsKeepHead(cn, basedir, w);
  }

  lemma {:induction false} RowsKeepHead(cn: ConflictNamer, basedir: string, ws: seq<Row>)
    requires forall w :: w in ws ==> WfRow(w) && (w.b == w.r || w.h == w.r)
    ensures multiset(MergeRows(cn, basedir, ws)) == multiset(HeadColumn(ws))
  {
    if ws != [] {
      RowKeepsHead(cn, basedir, ws[0]);
      RowsKeepHead(cn, basedir, ws[1..]);
    }
  }

  /** With base equal to remote, or head equal to remote, the merge is exactly
      head's listing, without conflict and without writing an object. */
  lemma UnchangedRemote(cn: ConflictNamer, basedir: string, b: seq<Dirent>, h: seq<Dirent>, r: seq<Dirent>)
    requires WfListing(b) && WfListing(h) && WfListing(r) && (b == r || h == r)
    ensures Merge(cn, basedir, b, h, r) == h
    ensures Flat(cn, basedir, Rows(b, h, r)) && !Conflicts(cn, basedir, b, h, r)
  {
    var ws := Rows(b, h, r);
    forall w | w in ws
      ensures WfRow(w) && (w.b == w.r || w.h == w.r)
      ensures !MergeFiles(cn, basedir, w).conflict && !DirStepOf(cn, basedir, w).Recurse?
    {
      RowsSound(b, h, r, w);
      RowKeepsHead(cn, basedir, w);
    }
    FlatNoConflict(cn, basedir, ws);
    RowsKeepHead(cn, basedir, ws);
    ColumnsOf(b, h, r);
    var es := MergeRows(cn, basedir, ws);
    assert multiset(SortDesc(es)) == multiset(h);
    SortedIs(es, h);
  }

  lemma SortedIs(es: seq<Dirent>, fs: seq<Dirent>)
    requires multiset(es) == multiset(fs) && Descending(fs)
    ensures SortDesc(es) == fs
  {
    forall i, j | 0 <= i < j < |es| ensures es[i].name != es[j].name {
      if es[i].name == es[j].name {
        SameElements(es, fs, es[i]);
        SameElements(es, fs, es[j]);
        DescendingUnique(fs, es[i]);
        DescendingUnique(fs, es[j]);
        TwoOccurrences(es, i, j);
        DescendingNoRepeat(fs, es[i]);
      }
    }
    SortDescending(es);
    DescendingCanonical(SortDesc(es), fs);
  }

  // -------------------------------------------------------- head unchanged

  /** Remote's entry, except that head's entry stands in when only metadata differs. */
  function Patch(mine: Option<Dirent>, theirs: Dirent): Dirent
  {
    if mine.Some? && mine.value.kind == theirs.kind && mine.value.id == theirs.id then mine.value else theirs
  }

  function Patched(h: seq<Dirent>, r: seq<Dirent>): (s: seq<Dirent>)
    ensures |s| == |r| && forall i :: 0 <= i < |r| ==> s[i] == Patch(Find(h, r[i].name), r[i])
  {
    if r == [] then [] else [Patch(Find(h, r[0].name), r[0])] + Patched(h, r[1..])
  }

  lemma PatchedCons(h: seq<Dirent>, d: Dirent, r: seq<Dirent>)
    ensures Patched(h, [d] + r) == [Patch(Find(h, d.name), d)] + Patched(h, r)
  {
  }

  lemma RowTakesRemote(cn: ConflictNamer, basedir: string, w: Row)
    requires WfRow(w) && w.b == w.h
    ensures MergeRow(cn, basedir, w) == if w.r.Some? then [Patch(w.h, w.r.value)] else []
    ensures !MergeFiles(cn, basedir, w).conflict && !DirStepOf(cn, basedir, w).Recurse?
  {
  }

  /** What the rows emit when head did not change, latest first. */
  function PatchColumn(ws: seq<Row>): seq<Dirent>
  {
    if ws == [] then []
    else PatchColumn(ws[1..]) + (if ws[0].r.Some? then [Patch(ws[0].h, ws[0].r.value)] else [])
  }

  lemma {:induction false} RowsTakeRemote(cn: ConflictNamer, basedir: string, ws: seq<Row>)
    requires forall w :: w in ws ==> WfRow(w) && w.b == w.h
    ensures MergeRows(cn, basedir, ws) == PatchColumn(ws)
  {
    if ws != [] {
      assert ws[0] in ws;
      RowTakesRemote(cn, basedir, ws[0]);
      RowsTakeRemote(cn, basedir, ws[1..]);
    }
  }

  lemma MultisetSwap(es: seq<Dirent>, fs: seq<Dirent>, d: Dirent)
    requires multiset(es) == multiset(fs)
    ensures multiset(es + [d]) == multiset([d] + fs)
  {
  }

  lemma {:induction false} PatchColumnOf(h: seq<Dirent>, ws: seq<Row>)
    requires forall w :: w in ws ==> w.h == Find(h, w.name) && (w.r.Some? ==> w.r.value.name == w.name)
    ensures multiset(PatchColumn(ws)) == multiset(Patched(h, RemoteColumn(ws)))
  {
    if ws != [] {
      var w := ws[0];
      assert w in ws;
      PatchColumnOf(h, ws[1..]);
      var tail, rest := PatchColumn(ws[1..]), RemoteColumn(ws[1..]);
      if w.r.Some? {
        var d := Patch(w.h, w.r.value);
        PatchedCons(h, w.r.value, rest);
        MultisetSwap(tail, Patched(h, rest), d);
        assert PatchColumn(ws) == tail + [d];
        assert RemoteColumn(ws) == [w.r.value] + rest;
      } else {
        assert PatchColumn(ws) == tail;
        assert RemoteColumn(ws) == rest;
      }
    }
  }

  /** With base equal to head, the merge is remote's listing entry by entry, up to
      the metadata of entries whose kind and id head already had. */
  lemma UnchangedHead(cn: ConflictNamer, basedir: string, h: seq<Dirent>, r: seq<Dirent>)
    requires WfListing(h) && WfListing(r)
    ensures Merge(cn, basedir, h, h, r) == Patched(h, r)
    ensures Flat(cn, basedir, Rows(h, h, r)) && !Conflicts(cn, basedir, h, h, r)
  {
    var ws := Rows(h, h, r);
    forall w | w in ws
      ensures WfRow(w) && w.b == w.h && w.h == Find(h, w.name)
      ensures !MergeFiles(cn, basedir, w).conflict && !DirStepOf(cn, basedir, w).Recurse?
    {
      RowsSound(h, h, r, w);
      RowTakesRemote(cn, basedir, w);
    }
    FlatNoConflict(cn, basedir, ws);
    RowsTakeRemote(cn, basedir, ws);
    PatchColumnOf(h, ws);
    ColumnsOf(h, h, r);
    SortedIs(MergeRows(cn, basedir, ws), Patched(h, r));
  }

  // ------------------------------------------------------- a name that clashes

  function Suffixed(dir: string, name: string, kind: Kind): Option<string>
  {
    Some(name + "!")
  }

  lemma ClashRows(h: seq<Dirent>, r: seq<Dirent>, w0: Row, w1: Row)
    requires |h| == 2 && |r| == 1 && h[0].name == "a!" && h[1].name == "a" && r[0].name == "a"
    requires w0 == Row("a!", None, Some(h[0]), None) && w1 == Row("a", None, Some(h[1]), Some(r[0]))
    ensures Rows([], h, r) == [w0, w1]
  {
    assert Before("a", "a!") && !Before("a!", "a");
    var h' := h[1..];
    assert Rows([], h', r) == [w1] + Rows([], h'[1..], r[1..]);
    assert Rows([], h, r) == [w0] + Rows([], h', r);
  }

  const PLAIN: Meta := Meta(0, 0, "", 0)
  const CLASH_HEAD: seq<Dirent> := [Dirent("a!", File, Blob(0), PLAIN), Dirent("a", File, Blob(1), PLAIN)]
  const CLASH_REMOTE: seq<Dirent> := [Dirent("a", File, Blob(2), PLAIN)]

  lemma ClashInput()
    ensures WfListing(CLASH_HEAD) && WfListing(CLASH_REMOTE)
  {
    assert Before("a", "a!");
  }

  /** Head already holds an entry under the conflict name of another: the merged
      listing then repeats a name and is no legal listing. */
  lemma ClashExample()
    ensures WfListing(CLASH_HEAD) && WfListing(CLASH_REMOTE) &&
            !WfListing(Merge(Suffixed, "", [], CLASH_HEAD, CLASH_REMOTE))
  {
    var w0 := Row("a!", None, Some(CLASH_HEAD[0]), None);
    var w1 := Row("a", None, Some(CLASH_HEAD[1]), Some(CLASH_REMOTE[0]));
    ClashInput();
    ClashRows(CLASH_HEAD, CLASH_REMOTE, w0, w1);
    NotFree(w0, w1);
    MergeWf(Suffixed, "", [], CLASH_HEAD, CLASH_REMOTE);
  }

  lemma NotFree(w0: Row, w1: Row)
    requires w0 == Row("a!", None, Some(CLASH_HEAD[0]), None)
    requires w1 == Row("a", None, Some(CLASH_HEAD[1]), Some(CLASH_REMOTE[0]))
    ensures !ConflictNamesFree(Suffixed, "", [w0, w1])
  {
    assert InConflict(w1) && !Gone(w0) && ConflictName(Suffixed, "", w1) == "a!";
    assert w0 in [w0, w1] && w1 in [w0, w1] && !Apart(Suffixed, "", w1, w0);
  }
}
