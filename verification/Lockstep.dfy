/** The lockstep walk over up to three sorted listings that tree merge and tree
    diff share: every round takes the largest name still pending and the entries
    that carry it.
 */
module Lockstep {
  import opened Options
  import opened FsTree

  /** One round of the walk: a name and the entries that carry it. */
  datatype Row = Row(name: string, b: Option<Dirent>, h: Option<Dirent>, r: Option<Dirent>)

  function Larger(best: Option<string>, es: seq<Dirent>): Option<string>
  {
    if es == [] then best
    else if best.None? || Before(best.value, es[0].name) then Some(es[0].name)
    else best
  }

  /** The largest of the pending first names, scanned in list order. */
  function FirstName(b: seq<Dirent>, h: seq<Dirent>, r: seq<Dirent>): Option<string>
  {
    Larger(Larger(Larger(None, b), h), r)
  }

  function Take(es: seq<Dirent>, n: string): Option<Dirent>
  {
    if es != [] && es[0].name == n then Some(es[0]) else None
  }

  function Drop(es: seq<Dirent>, n: string): seq<Dirent>
  {
    if es != [] && es[0].name == n then es[1..] else es
  }

  function Rows(b: seq<Dirent>, h: seq<Dirent>, r: seq<Dirent>): seq<Row>
    decreases |b| + |h| + |r|
  {
    var first := FirstName(b, h, r);
    if first.None? then []
    else
      var n := first.value;
      [Row(n, Take(b, n), Take(h, n), Take(r, n))] + Rows(Drop(b, n), Drop(h, n), Drop(r, n))
  }

  // --------------------------------------------------------------- lemmas

  ghost predicate AllBefore(es: seq<Dirent>, n: string)
  {
    forall d :: d in es ==> Before(d.name, n)
  }

  lemma FirstIsLargest(es: seq<Dirent>, n: string)
    requires Descending(es)
    requires es != [] ==> es[0].name == n || Before(es[0].name, n)
    ensures Take(es, n) == Find(es, n)
    ensures Descending(Drop(es, n)) && AllBefore(Drop(es, n), n)
  {
    BeforeIrreflexive(n);
    forall d | d in Drop(es, n) ensures Before(d.name, n) {
      var i :| 0 <= i < |es| && es[i] == d && (i == 0 ==> es[0].name != n);
      if i > 0 && es[0].name != n { BeforeTransitive(d.name, es[0].name, n); }
    }
  }

  lemma LargerBound(best: Option<string>, es: seq<Dirent>)
    ensures es != [] ==> var n := Larger(best, es); n.Some? && (es[0].name == n.value || Before(es[0].name, n.value))
    ensures best.Some? ==> var n := Larger(best, es); n.Some? && (best == n || Before(best.value, n.value))
  {
    if es != [] && best.Some? { BeforeTotal(best.value, es[0].name); }
  }

  lemma FirstNameBounds(b: seq<Dirent>, h: seq<Dirent>, r: seq<Dirent>, n: string)
    requires FirstName(b, h, r) == Some(n)
    ensures b != [] ==> b[0].name == n || Before(b[0].name, n)
    ensures h != [] ==> h[0].name == n || Before(h[0].name, n)
    ensures r != [] ==> r[0].name == n || Before(r[0].name, n)
    ensures Take(b, n).Some? || Take(h, n).Some? || Take(r, n).Some?
  {
    var x := Larger(None, b);
    var y := Larger(x, h);
    LargerBound(None, b);
    LargerBound(x, h);
    LargerBound(y, r);
    if b != [] && x != y && y != Some(n) { BeforeTransitive(x.value, y.value, n); }
    if b != [] && b[0].name != n && b[0].name != y.value && y.Some? && y.value != n && Before(y.value, n) {
      BeforeTransitive(b[0].name, y.value, n);
    }
    if h != [] && h[0].name != y.value && y.value != n { BeforeTransitive(h[0].name, y.value, n); }
  }

  ghost predicate SoundRow(w: Row, b: seq<Dirent>, h: seq<Dirent>, r: seq<Dirent>)
  {
    && w.b == Find(b, w.name) && w.h == Find(h, w.name) && w.r == Find(r, w.name)
    && (w.b.Some? || w.h.Some? || w.r.Some?)
  }

  lemma FindDrop(es: seq<Dirent>, n: string, m: string)
    requires n != m
    ensures Find(Drop(es, n), m) == Find(es, m)
  {
  }

  /** Each round carries exactly the entries of its name in the three listings. */
  lemma {:induction false} RowsSound(b: seq<Dirent>, h: seq<Dirent>, r: seq<Dirent>, w: Row)
    requires Descending(b) && Descending(h) && Descending(r) && w in Rows(b, h, r)
    ensures SoundRow(w, b, h, r)
    decreases |b| + |h| + |r|
  {
    var n := FirstName(b, h, r).value;
    FirstNameBounds(b, h, r, n);
    FirstIsLargest(b, n);
    FirstIsLargest(h, n);
    FirstIsLargest(r, n);
    var b', h', r' := Drop(b, n), Drop(h, n), Drop(r, n);
    if w in Rows(b', h', r') {
      RowsSound(b', h', r', w);
      BeforeIrreflexive(n);
      assert w.name != n;
      FindDrop(b, n, w.name);
      FindDrop(h, n, w.name);
      FindDrop(r, n, w.name);
    }
  }

  /** No name of any listing is skipped. */
  lemma {:induction false} RowsComplete(b: seq<Dirent>, h: seq<Dirent>, r: seq<Dirent>, n: string)
    requires HasName(b, n) || HasName(h, n) || HasName(r, n)
    ensures exists w :: w in Rows(b, h, r) && w.name == n
    decreases |b| + |h| + |r|
  {
    var first := FirstName(b, h, r);
    assert b != [] || h != [] || r != [];
    var m := first.value;
    var rest := Rows(Drop(b, m), Drop(h, m), Drop(r, m));
    if m == n {
      assert Rows(b, h, r)[0].name == n;
    } else {
      HasNameDrop(b, m, n);
      HasNameDrop(h, m, n);
      HasNameDrop(r, m, n);
      FirstNameBounds(b, h, r, m);
      RowsComplete(Drop(b, m), Drop(h, m), Drop(r, m), n);
      var w :| w in rest && w.name == n;
      assert w in Rows(b, h, r);
    }
  }

  lemma HasNameDrop(es: seq<Dirent>, m: string, n: string)
    requires m != n
    ensures HasName(es, n) <==> HasName(Drop(es, m), n)
  {
  }

  ghost predicate DistinctRows(ws: seq<Row>)
  {
    forall i, j :: 0 <= i < j < |ws| ==> ws[i].name != ws[j].name
  }

  /** No name is visited twice. */
  lemma {:induction false} RowsDistinct(b: seq<Dirent>, h: seq<Dirent>, r: seq<Dirent>)
    requires Descending(b) && Descending(h) && Descending(r)
    ensures DistinctRows(Rows(b, h, r))
    decreases |b| + |h| + |r|
  {
    if FirstName(b, h, r).Some? {
      var n := FirstName(b, h, r).value;
      FirstNameBounds(b, h, r, n);
      FirstIsLargest(b, n);
      FirstIsLargest(h, n);
      FirstIsLargest(r, n);
      var b', h', r' := Drop(b, n), Drop(h, n), Drop(r, n);
      RowsDistinct(b', h', r');
      BeforeIrreflexive(n);
      forall w | w in Rows(b', h', r') ensures w.name != n {
        RowsSound(b', h', r', w);
      }
    }
  }

  /** The row of a name that some listing has. */
  lemma RowAt(b: seq<Dirent>, h: seq<Dirent>, r: seq<Dirent>, n: string) returns (w: Row)
    requires Descending(b) && Descending(h) && Descending(r)
    requires HasName(b, n) || HasName(h, n) || HasName(r, n)
    ensures w in Rows(b, h, r) && w == Row(n, Find(b, n), Find(h, n), Find(r, n))
  {
    RowsComplete(b, h, r, n);
    w :| w in Rows(b, h, r) && w.name == n;
    RowsSound(b, h, r, w);
  }

  // ---------------------------------------------------------------- sizes

  function OptSize(o: Option<Dirent>): nat
  {
    if o.Some? then EntrySize(o.value) else 0
  }

  function RowSize(w: Row): nat
  {
    OptSize(w.b) + OptSize(w.h) + OptSize(w.r)
  }

  function RowsSize(ws: seq<Row>): nat
  {
    if ws == [] then 0 else RowSize(ws[0]) + RowsSize(ws[1..])
  }

  lemma {:induction false} RowsConserveSize(b: seq<Dirent>, h: seq<Dirent>, r: seq<Dirent>)
    ensures RowsSize(Rows(b, h, r)) == ListSize(b) + ListSize(h) + ListSize(r)
    decreases |b| + |h| + |r|
  {
    if FirstName(b, h, r).Some? {
      var n := FirstName(b, h, r).value;
      FirstNameBounds(b, h, r, n);
      RowsConserveSize(Drop(b, n), Drop(h, n), Drop(r, n));
    }
  }

  function AsFile(o: Option<Dirent>): Option<Dirent>
  {
    if o.Some? && o.value.kind.File? then o else None
  }

  function AsDir(o: Option<Dirent>): Option<Dirent>
  {
    if o.Some? && o.value.kind.Dir? then o else None
  }

  /** The listing an entry contributes when the walk descends into it. */
  function Sub(o: Option<Dirent>): seq<Dirent>
  {
    if o.Some? && o.value.kind.Dir? then Entries(o.value.id) else []
  }

  lemma SubSize(o: Option<Dirent>)
    ensures ListSize(Sub(o)) <= OptSize(o)
    ensures o.Some? && o.value.kind.Dir? ==> ListSize(Sub(o)) < OptSize(o)
  {
    if o.Some? && o.value.kind.Dir? && o.value.id.Node? {
      assert IdSize(o.value.id) == ListSize(o.value.id.entries);
    }
  }

  lemma WfSub(o: Option<Dirent>)
    requires o.Some? ==> WfEntry(o.value)
    ensures WfListing(Sub(o))
  {
  }

  /** The directory prefix inside entry `name` of `basedir`. */
  function Below(basedir: string, name: string): string
  {
    basedir + name + "/"
  }
}
