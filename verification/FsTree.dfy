/** Content-addressed directory trees: identifiers, directory entries, sorted
    listings and the meaning of a tree as a set of file paths.

    A directory id is modelled as the listing it is the digest of, so a digest is
    a function of the listing and two listings share an id only when they are
    equal.  `Zero` is the all-zero id that empty files and empty directories share.
 */
module FsTree {
  import opened Options

  datatype Kind = File | Dir

  /** Attributes of an entry other than its name, kind and id. */
  datatype Meta = Meta(perm: nat, mtime: int, modifier: string, size: int)

  datatype Id = Zero | Blob(content: nat) | Node(entries: seq<Dirent>)

  datatype Dirent = Dirent(name: string, kind: Kind, id: Id, meta: Meta)

  // ---------------------------------------------------------------- names

  /** strcmp(a, b) < 0 */
  predicate Before(a: string, b: string)
  {
    if b == "" then false
    else if a == "" then true
    else if a[0] != b[0] then a[0] < b[0]
    else Before(a[1..], b[1..])
  }

  /** The texts agree up to `i`, where `a` ends or has the smaller character. */
  predicate SmallerAt(a: string, b: string, i: nat)
  {
    i <= |a| && i < |b| && a[..i] == b[..i] && (i == |a| || a[i] < b[i])
  }

  lemma SmallerTail(a: string, b: string, i: nat)
    requires a != "" && b != "" && a[0] == b[0]
    ensures SmallerAt(a[1..], b[1..], i) <==> SmallerAt(a, b, i + 1)
  {
    if i + 1 <= |a| && i + 1 <= |b| {
      assert a[..i + 1] == [a[0]] + a[1..][..i] && b[..i + 1] == [b[0]] + b[1..][..i];
    }
  }

  /** The order of names is that of their first difference. */
  lemma {:induction false} BeforeIff(a: string, b: string)
    ensures Before(a, b) <==> exists i: nat :: SmallerAt(a, b, i)
  {
    if a != "" && b != "" && a[0] == b[0] {
      BeforeIff(a[1..], b[1..]);
      if i: nat :| SmallerAt(a[1..], b[1..], i) { SmallerTail(a, b, i); }
      if i: nat :| SmallerAt(a, b, i) { SmallerTail(a, b, i - 1); }
    } else if Before(a, b) {
      assert SmallerAt(a, b, 0);
    }
  }

  lemma {:induction false} BeforeIrreflexive(a: string)
    ensures !Before(a, a)
  {
    if a != "" { BeforeIrreflexive(a[1..]); }
  }

  lemma {:induction false} BeforeTransitive(a: string, b: string, c: string)
    requires Before(a, b) && Before(b, c)
    ensures Before(a, c)
  {
    if a != "" && a[0] == b[0] && b[0] == c[0] { BeforeTransitive(a[1..], b[1..], c[1..]); }
  }

  lemma {:induction false} BeforeTotal(a: string, b: string)
    ensures Before(a, b) || a == b || Before(b, a)
  {
    if a != "" && b != "" && a[0] == b[0] {
      BeforeTotal(a[1..], b[1..]);
      assert a[1..] == b[1..] ==> a == [a[0]] + a[1..] == b;
    }
  }

  // ------------------------------------------------------------- listings

  /** Strictly descending by name, the order every stored listing has. */
  ghost predicate Descending(es: seq<Dirent>)
  {
    forall i, j :: 0 <= i < j < |es| ==> Before(es[j].name, es[i].name)
  }

  ghost predicate HasName(es: seq<Dirent>, n: string)
  {
    exists d :: d in es && d.name == n
  }

  /** The entry called `n`; listings have at most one. */
  function Find(es: seq<Dirent>, n: string): (r: Option<Dirent>)
    ensures r.Some? ==> r.value in es && r.value.name == n
    ensures r.None? ==> !HasName(es, n)
  {
    if es == [] then None
    else if es[0].name == n then Some(es[0])
    else Find(es[1..], n)
  }

  lemma DescendingUnique(es: seq<Dirent>, d: Dirent)
    requires Descending(es) && d in es
    ensures Find(es, d.name) == Some(d)
  {
    var f := Find(es, d.name).value;
    var i :| 0 <= i < |es| && es[i] == d;
    var j :| 0 <= j < |es| && es[j] == f;
    BeforeIrreflexive(d.name);
  }

  function Entries(id: Id): seq<Dirent>
  {
    if id.Node? then id.entries else []
  }

  /** seaf_dir_new: the id of a listing; the empty directory has the all-zero id. */
  function DirId(es: seq<Dirent>): (id: Id)
    ensures Entries(id) == es
  {
    if es == [] then Zero else Node(es)
  }

  /** A directory id whose whole subtree is legal input to merge and diff. */
  ghost predicate WfDir(id: Id)
  {
    match id
    case Zero => true
    case Blob(_) => false
    case Node(es) => es != [] && Descending(es) && forall d :: d in es ==> WfEntry(d)
  }

  ghost predicate WfEntry(d: Dirent)
  {
    match d.kind
    case File => !d.id.Node?
    case Dir => WfDir(d.id)
  }

  ghost predicate WfListing(es: seq<Dirent>)
  {
    Descending(es) && forall d :: d in es ==> WfEntry(d)
  }

  lemma WfDirIff(es: seq<Dirent>)
    ensures WfDir(DirId(es)) <==> WfListing(es)
  {
  }

  // ---------------------------------------------------------------- sizes

  function IdSize(id: Id): nat
  {
    match id
    case Zero => 0
    case Blob(_) => 0
    case Node(es) => ListSize(es)
  }

  function ListSize(es: seq<Dirent>): nat
  {
    if es == [] then 0 else EntrySize(es[0]) + ListSize(es[1..])
  }

  function EntrySize(d: Dirent): nat
  {
    1 + IdSize(d.id)
  }

  // -------------------------------------------------------------- meaning

  /** Some entry chain of `es` spells path `p` and ends in a file with id `x`. */
  ghost predicate HasFile(es: seq<Dirent>, p: seq<string>, x: Id)
    decreases |p|
  {
    p != [] &&
    exists d :: d in es && d.name == p[0] && ReachesFile(d, p, x)
  }

  ghost predicate ReachesFile(d: Dirent, p: seq<string>, x: Id)
    requires p != []
    decreases |p|, 0
  {
    if |p| == 1 then d.kind.File? && d.id == x
    else d.kind.Dir? && HasFile(Entries(d.id), p[1..], x)
  }

  lemma HasFileAt(es: seq<Dirent>, p: seq<string>, x: Id)
    requires Descending(es) && p != []
    ensures HasFile(es, p, x) <==> Find(es, p[0]).Some? && ReachesFile(Find(es, p[0]).value, p, x)
  {
    if HasFile(es, p, x) {
      var d :| d in es && d.name == p[0] && ReachesFile(d, p, x);
      DescendingUnique(es, d);
    }
  }

  /** Some entry chain of `es` spells path `p` and ends in the entry `e`. */
  ghost predicate HasEntry(es: seq<Dirent>, p: seq<string>, e: Dirent)
    decreases |p|
  {
    p != [] && exists d :: d in es && d.name == p[0] && ReachesEntry(d, p, e)
  }

  ghost predicate ReachesEntry(d: Dirent, p: seq<string>, e: Dirent)
    requires p != []
    decreases |p|, 0
  {
    if |p| == 1 then d == e else d.kind.Dir? && HasEntry(Entries(d.id), p[1..], e)
  }

  lemma {:induction false} FileEntry(es: seq<Dirent>, p: seq<string>, x: Id) returns (e: Dirent)
    requires HasFile(es, p, x)
    ensures HasEntry(es, p, e) && e.kind.File? && e.id == x
    decreases |p|
  {
    var d :| d in es && d.name == p[0] && ReachesFile(d, p, x);
    e := d;
    if |p| > 1 { e := FileEntry(Entries(d.id), p[1..], x); }
    assert ReachesEntry(d, p, e);
  }

  lemma {:induction false} EntryFile(es: seq<Dirent>, p: seq<string>, e: Dirent)
    requires HasEntry(es, p, e) && e.kind.File?
    ensures HasFile(es, p, e.id)
    decreases |p|
  {
    var d :| d in es && d.name == p[0] && ReachesEntry(d, p, e);
    if |p| > 1 { EntryFile(Entries(d.id), p[1..], e); }
    assert ReachesFile(d, p, e.id);
  }

  lemma HasEntryAt(es: seq<Dirent>, p: seq<string>, e: Dirent)
    requires Descending(es) && p != []
    ensures HasEntry(es, p, e) <==> Find(es, p[0]).Some? && ReachesEntry(Find(es, p[0]).value, p, e)
  {
    if HasEntry(es, p, e) {
      var d :| d in es && d.name == p[0] && ReachesEntry(d, p, e);
      DescendingUnique(es, d);
    }
  }

  /** Every directory object of the tree can be read back from the store. */
  ghost predicate Closed(store: set<Id>, id: Id)
  {
    match id
    case Zero => true
    case Blob(_) => false
    case Node(es) => id in store && forall d :: d in es && d.kind.Dir? ==> Closed(store, d.id)
  }

  ghost predicate ListClosed(store: set<Id>, es: seq<Dirent>)
  {
    forall d :: d in es && d.kind.Dir? ==> Closed(store, d.id)
  }

  /** seaf_fs_manager_get_seafdir: the empty directory needs no object. */
  function ReadDir(store: set<Id>, id: Id): (r: Option<seq<Dirent>>)
    ensures r.Some? ==> r.value == Entries(id) && (id == Zero || id in store)
    ensures Closed(store, id) ==> r.Some?
  {
    if id == Zero then Some([])
    else if id in store && id.Node? then Some(id.entries)
    else None
  }

  lemma {:induction false} ClosedMonotone(s: set<Id>, t: set<Id>, id: Id)
    requires s <= t && Closed(s, id)
    ensures Closed(t, id)
  {
    if id.Node? {
      forall d | d in id.entries && d.kind.Dir? ensures Closed(t, d.id) {
        ClosedMonotone(s, t, d.id);
      }
    }
  }

  // -------------------------------------------------------------- sorting

  function Insert(d: Dirent, es: seq<Dirent>): (r: seq<Dirent>)
    ensures multiset(r) == multiset(es) + multiset{d}
  {
    if es == [] then [d]
    else if Before(d.name, es[0].name) then
      assert es == [es[0]] + es[1..];
      [es[0]] + Insert(d, es[1..])
    else [d] + es
  }

  /** g_list_sort with compare_dirents: a stable sort, largest name first. */
  function SortDesc(es: seq<Dirent>): (r: seq<Dirent>)
    ensures multiset(r) == multiset(es)
  {
    if es == [] then []
    else
      assert es == [es[0]] + es[1..];
      Insert(es[0], SortDesc(es[1..]))
  }

  /** The entries with one name, in order. */
  function OfName(es: seq<Dirent>, n: string): seq<Dirent>
  {
    if es == [] then [] else (if es[0].name == n then [es[0]] else []) + OfName(es[1..], n)
  }

  lemma OfNameCons(d: Dirent, es: seq<Dirent>, n: string)
    ensures OfName([d] + es, n) == (if d.name == n then [d] else []) + OfName(es, n)
  {
    assert ([d] + es)[1..] == es;
  }

  lemma InsertStableSwap(d: Dirent, e: Dirent, rest: seq<Dirent>, n: string)
    requires d.name != e.name
    ensures var x, y := if d.name == n then [d] else [], if e.name == n then [e] else [];
            y + (x + rest) == x + (y + rest)
  {
  }

  lemma {:induction false} InsertStable(d: Dirent, es: seq<Dirent>, n: string)
    ensures OfName(Insert(d, es), n) == (if d.name == n then [d] else []) + OfName(es, n)
  {
    BeforeIrreflexive(d.name);
    if es != [] && Before(d.name, es[0].name) {
      InsertStable(d, es[1..], n);
      OfNameCons(es[0], Insert(d, es[1..]), n);
      InsertStableSwap(d, es[0], OfName(es[1..], n), n);
    } else {
      OfNameCons(d, es, n);
    }
  }

  /** Sorting keeps entries with one name in their order. */
  lemma {:induction false} SortStable(es: seq<Dirent>, n: string)
    ensures OfName(SortDesc(es), n) == OfName(es, n)
  {
    if es != [] {
      SortStable(es[1..], n);
      InsertStable(es[0], SortDesc(es[1..]), n);
    }
  }

  ghost predicate DistinctNames(es: seq<Dirent>)
  {
    forall i, j :: 0 <= i < j < |es| ==> es[i].name != es[j].name
  }

  lemma SameElements(es: seq<Dirent>, fs: seq<Dirent>, d: Dirent)
    requires multiset(es) == multiset(fs)
    ensures d in es <==> d in fs
  {
    assert d in es <==> d in multiset(es);
  }

  lemma DescendingFront(d: Dirent, es: seq<Dirent>)
    requires Descending(es) && forall e :: e in es ==> Before(e.name, d.name)
    ensures Descending([d] + es)
  {
    forall i | 0 <= i < |es| ensures Before(es[i].name, d.name) { assert es[i] in es; }
  }

  lemma {:induction false} InsertDescending(d: Dirent, es: seq<Dirent>)
    requires Descending(es) && !HasName(es, d.name)
    ensures Descending(Insert(d, es))
  {
    if es != [] {
      BeforeTotal(d.name, es[0].name);
      assert es[0] in es;
      if Before(d.name, es[0].name) {
        InsertDescending(d, es[1..]);
        var r := Insert(d, es[1..]);
        forall e | e in r ensures Before(e.name, es[0].name) {
          assert e in multiset(r);
          if e != d { assert e in es[1..]; }
        }
        DescendingFront(es[0], r);
      } else {
        forall e | e in es ensures Before(e.name, d.name) {
          var i :| 0 <= i < |es| && es[i] == e;
          if i > 0 { BeforeTransitive(es[i].name, es[0].name, d.name); }
        }
        DescendingFront(d, es);
      }
    }
  }

  /** Sorting gives a legal listing exactly when no two entries share a name. */
  lemma {:induction false} SortDescending(es: seq<Dirent>)
    ensures Descending(SortDesc(es)) <==> DistinctNames(es)
  {
    if DistinctNames(es) {
      SortDistinct(es);
    } else {
      var i, j :| 0 <= i < j < |es| && es[i].name == es[j].name;
      TwoOccurrences(es, i, j);
      var s := SortDesc(es);
      if Descending(s) {
        SameElements(es, s, es[i]);
        SameElements(es, s, es[j]);
        DescendingUnique(s, es[i]);
        DescendingUnique(s, es[j]);
        assert es[i] == es[j];
        assert multiset(s)[es[i]] >= 2;
        DescendingNoRepeat(s, es[i]);
      }
    }
  }

  lemma {:induction false} SortDistinct(es: seq<Dirent>)
    requires DistinctNames(es)
    ensures Descending(SortDesc(es))
  {
    if es != [] {
      SortDistinct(es[1..]);
      var s := SortDesc(es[1..]);
      forall d | d in s ensures d.name != es[0].name {
        SameElements(es[1..], s, d);
      }
      InsertDescending(es[0], s);
    }
  }

  lemma TwoOccurrences(es: seq<Dirent>, i: nat, j: nat)
    requires i < j < |es|
    ensures es[i] == es[j] ==> multiset(es)[es[i]] >= 2
  {
    assert es == es[..j] + [es[j]] + es[j+1..];
    assert es[i] in es[..j];
    assert es[i] in multiset(es[..j]);
  }

  lemma {:induction false} DescendingNoRepeat(es: seq<Dirent>, d: Dirent)
    requires Descending(es)
    ensures multiset(es)[d] <= 1
  {
    if es != [] {
      DescendingNoRepeat(es[1..], d);
      assert es == [es[0]] + es[1..];
      if d == es[0] {
        BeforeIrreflexive(d.name);
        assert d !in es[1..];
        assert d !in multiset(es[1..]);
      }
    }
  }

  lemma SameFirst(es: seq<Dirent>, fs: seq<Dirent>)
    requires es != [] && fs != [] && Descending(es) && Descending(fs)
    requires es[0] in fs && fs[0] in es
    ensures es[0] == fs[0]
  {
    var i :| 0 <= i < |fs| && fs[i] == es[0];
    var j :| 0 <= j < |es| && es[j] == fs[0];
    if i != 0 && j != 0 {
      BeforeTransitive(es[0].name, fs[0].name, es[0].name);
      BeforeIrreflexive(es[0].name);
    }
  }

  lemma MultisetTail(es: seq<Dirent>)
    requires es != []
    ensures multiset(es[1..]) == multiset(es) - multiset{es[0]}
  {
    assert es == [es[0]] + es[1..];
  }

  /** A descending listing is the only descending arrangement of its entries. */
  lemma {:induction false} DescendingCanonical(es: seq<Dirent>, fs: seq<Dirent>)
    requires Descending(es) && Descending(fs) && multiset(es) == multiset(fs)
    ensures es == fs
  {
    assert |es| == |multiset(es)| == |fs|;
    if es != [] {
      SameElements(es, fs, es[0]);
      SameElements(es, fs, fs[0]);
      SameFirst(es, fs);
      MultisetTail(es);
      MultisetTail(fs);
      DescendingCanonical(es[1..], fs[1..]);
      assert es == [es[0]] + es[1..];
      assert fs == [fs[0]] + fs[1..];
    }
  }
}
