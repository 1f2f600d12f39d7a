/** diff_resolve_renames: pair deleted with added entries of the same content. */
module Renames {
  import opened Options
  import opened FsTree
  import opened DiffSpec

  /** A cell of the linked list; the address is its identity. */
  datatype Link = Link(addr: nat, entry: DiffEntry)

  // --------------------------------------------------------------- meaning

  datatype Atom = Atom(status: Status, id: Id, name: string)

  function NewName(e: DiffEntry): string
  {
    if e.newName.Some? then e.newName.value else ""
  }

  /** A rename stands for a deletion and an addition of the same content. */
  function Expand1(e: DiffEntry): multiset<Atom>
  {
    match e.status
    case Renamed => multiset{Atom(Deleted, e.id, e.name), Atom(Added, e.id, NewName(e))}
    case DirRenamed => multiset{Atom(DirDeleted, e.id, e.name), Atom(DirAdded, e.id, NewName(e))}
    case _ => multiset{Atom(e.status, e.id, e.name)}
  }

  function Expand(es: seq<DiffEntry>): multiset<Atom>
  {
    if es == [] then multiset{} else Expand1(es[0]) + Expand(es[1..])
  }

  /** How many entries of one status have one id. */
  function Count(es: seq<DiffEntry>, s: Status, x: Id): nat
  {
    if es == [] then 0 else (if es[0].status == s && es[0].id == x then 1 else 0) + Count(es[1..], s, x)
  }

  function Contents(ls: seq<Link>): (es: seq<DiffEntry>)
    ensures |es| == |ls| && forall i :: 0 <= i < |ls| ==> es[i] == ls[i].entry
  {
    if ls == [] then [] else [ls[0].entry] + Contents(ls[1..])
  }

  /** g_list_delete_link */
  function Unlink(ls: seq<Link>, l: Link): seq<Link>
  {
    if ls == [] then []
    else if ls[0] == l then ls[1..]
    else [ls[0]] + Unlink(ls[1..], l)
  }

  lemma {:induction false} UnlinkExpand(ls: seq<Link>, l: Link)
    requires l in ls
    ensures Expand(Contents(ls)) == Expand1(l.entry) + Expand(Contents(Unlink(ls, l)))
  {
    if ls[0] != l {
      UnlinkExpand(ls[1..], l);
      var rest := Unlink(ls[1..], l);
      assert ([ls[0]] + rest)[1..] == rest;
    }
  }

  lemma {:induction false} UnlinkCount(ls: seq<Link>, l: Link, s: Status, x: Id)
    requires l in ls
    ensures Count(Contents(ls), s, x) ==
            Count(Contents(Unlink(ls, l)), s, x) + if l.entry.status == s && l.entry.id == x then 1 else 0
  {
    if ls[0] != l {
      UnlinkCount(ls[1..], l, s, x);
      var rest := Unlink(ls[1..], l);
      assert ([ls[0]] + rest)[1..] == rest;
    }
  }

  lemma {:induction false} UnlinkKeeps(ls: seq<Link>, l: Link, m: Link)
    requires m in ls && m != l
    ensures m in Unlink(ls, l)
  {
    if ls[0] != l && ls[0] != m { UnlinkKeeps(ls[1..], l, m); }
  }

  lemma {:induction false} LinkCount(ls: seq<Link>, s: Status, x: Id)
    ensures Count(Contents(ls), s, x) > 0 <==> exists l :: l in ls && l.entry.status == s && l.entry.id == x
  {
    if ls != [] {
      LinkCount(ls[1..], s, x);
      assert Contents(ls)[1..] == Contents(ls[1..]);
      if l :| l in ls && l.entry.status == s && l.entry.id == x {
        if l != ls[0] { assert l in ls[1..]; }
      }
    }
  }

  // ------------------------------------------------- what may be paired

  /** Deleted and added entries of one kind and id, and whether they are paired:
      any non-empty content, but empty content only when it is unambiguous. */
  predicate Paired(es: seq<DiffEntry>, del: Status, add: Status, x: Id)
  {
    if x == Zero then Count(es, del, x) == 1 && Count(es, add, x) == 1
    else Count(es, del, x) > 0 && Count(es, add, x) > 0
  }

  function DelStatus(k: Kind): Status
  {
    if k.File? then Deleted else DirDeleted
  }

  function AddStatus(k: Kind): Status
  {
    if k.File? then Added else DirAdded
  }

  function RenStatus(k: Kind): Status
  {
    if k.File? then Renamed else DirRenamed
  }

  /** The contract of rename resolution. */
  ghost predicate Resolves(input: seq<DiffEntry>, output: seq<DiffEntry>)
  {
    && Expand(output) == Expand(input) && (forall k, x :: OneRename(input, output, k, x))
    && AllFrom(input, output)
  }

  /** Every entry was there before, or joins a deletion and an addition that were. */
  ghost predicate AllFrom(input: seq<DiffEntry>, output: seq<DiffEntry>)
  {
    forall e :: e in output ==> FromEntry(input, e)
  }

  ghost predicate FromEntry(input: seq<DiffEntry>, e: DiffEntry)
  {
    e in input || Joins(input, e)
  }

  /** A rename from the name of a deleted entry to that of an added one with the same id. */
  ghost predicate Joins(es: seq<DiffEntry>, e: DiffEntry)
  {
    exists del, add :: JoinOf(es, e, del, add)
  }

  ghost predicate JoinOf(es: seq<DiffEntry>, e: DiffEntry, del: DiffEntry, add: DiffEntry)
  {
    && del in es && add in es && del.id == add.id
    && (|| (del.status == Deleted && add.status == Added && e.status == Renamed)
        || (del.status == DirDeleted && add.status == DirAdded && e.status == DirRenamed))
    && e == DiffEntry(e.status, del.id, del.name, Some(add.name), 0, 0)
  }

  lemma FromStep(input: seq<DiffEntry>, es: seq<DiffEntry>, es': seq<DiffEntry>)
    requires AllFrom(input, es) && AllFrom(es, es')
    ensures AllFrom(input, es')
  {
    forall e | e in es' ensures FromEntry(input, e) {
      assert FromEntry(es, e);
      if e !in es {
        var del, add :| JoinOf(es, e, del, add);
        assert FromEntry(input, del) && FromEntry(input, add);
        assert JoinOf(input, e, del, add);
      }
    }
  }

  /** One rename of the content more if it was deleted and added, none otherwise. */
  ghost predicate OneRename(input: seq<DiffEntry>, output: seq<DiffEntry>, k: Kind, x: Id)
  {
    Count(output, RenStatus(k), x) ==
    Count(input, RenStatus(k), x) + if Paired(input, DelStatus(k), AddStatus(k), x) then 1 else 0
  }

  // ------------------------------------------------------------ the algorithm

  type Index = map<Id, Link>

  function Pick(k: Kind, files: Index, dirs: Index): Index
  {
    if k.File? then files else dirs
  }

  function KindOf(e: DiffEntry): Kind
  {
    if e.status == Added then File else Dir
  }

  /** The hash table of one kind points at cells of the list that are deletions of its key. */
  ghost predicate Points(ls: seq<Link>, m: Index, s: Status)
  {
    forall x :: x in m ==> m[x] in ls && m[x].entry.status == s && m[x].entry.id == x
  }

  /** ... and holds every deleted id, the empty id only if it may be paired. */
  ghost predicate Collected(ls: seq<Link>, m: Index, s: Status, checkEmpty: bool)
  {
    && Points(ls, m, s)
    && (forall x :: x in m ==> x != Zero || checkEmpty)
    && (forall l :: l in ls && l.entry.status == s && (l.entry.id != Zero || checkEmpty) ==> l.entry.id in m)
  }

  predicate Wanted(e: DiffEntry, checkFile: bool, checkDir: bool)
  {
    (e.status == Added && (e.id != Zero || checkFile)) || (e.status == DirAdded && (e.id != Zero || checkDir))
  }

  method CountEmpty(ls: seq<Link>) returns (checkFile: bool, checkDir: bool)
    ensures checkFile == (Count(Contents(ls), Deleted, Zero) == 1 && Count(Contents(ls), Added, Zero) == 1)
    ensures checkDir == (Count(Contents(ls), DirDeleted, Zero) == 1 && Count(Contents(ls), DirAdded, Zero) == 1)
  {
    var deletedEmpty, deletedEmptyDir, addedEmpty, addedEmptyDir := 0, 0, 0, 0;
    var p := ls;
    while p != []
      invariant deletedEmpty + Count(Contents(p), Deleted, Zero) == Count(Contents(ls), Deleted, Zero)
      invariant deletedEmptyDir + Count(Contents(p), DirDeleted, Zero) == Count(Contents(ls), DirDeleted, Zero)
      invariant addedEmpty + Count(Contents(p), Added, Zero) == Count(Contents(ls), Added, Zero)
      invariant addedEmptyDir + Count(Contents(p), DirAdded, Zero) == Count(Contents(ls), DirAdded, Zero)
      decreases |p|
    {
      var de := p[0].entry;
      if de.id == Zero {
        if de.status == Deleted { deletedEmpty := deletedEmpty + 1; }
        if de.status == DirDeleted { deletedEmptyDir := deletedEmptyDir + 1; }
        if de.status == Added { addedEmpty := addedEmpty + 1; }
        if de.status == DirAdded { addedEmptyDir := addedEmptyDir + 1; }
      }
      assert Contents(p)[1..] == Contents(p[1..]);
      p := p[1..];
    }
    checkDir := deletedEmptyDir == 1 && addedEmptyDir == 1;
    checkFile := deletedEmpty == 1 && addedEmpty == 1;
  }

  method CollectDeleted(ls: seq<Link>, checkFile: bool, checkDir: bool) returns (files: Index, dirs: Index)
    ensures Collected(ls, files, Deleted, checkFile) && Collected(ls, dirs, DirDeleted, checkDir)
  {
    files, dirs := map[], map[];
    for i := 0 to |ls|
      invariant Collected(ls[..i], files, Deleted, checkFile) && Collected(ls[..i], dirs, DirDeleted, checkDir)
    {
      var de := ls[i].entry;
      assert ls[..i + 1] == ls[..i] + [ls[i]];
      if de.status == Deleted {
        if de.id == Zero && !checkFile {
          continue;
        }
        files := files[de.id := ls[i]];
      }
      if de.status == DirDeleted {
        if de.id == Zero && !checkDir {
          continue;
        }
        dirs := dirs[de.id := ls[i]];
      }
    }
    assert ls[..|ls|] == ls;
  }

  ghost predicate DistinctLinks(ls: seq<Link>)
  {
    forall i, j :: 0 <= i < j < |ls| ==> ls[i] != ls[j]
  }

  method CollectAdded(ls: seq<Link>, checkFile: bool, checkDir: bool) returns (added: seq<Link>)
    requires DistinctLinks(ls)
    ensures DistinctLinks(added)
    ensures forall l :: l in added <==> l in ls && Wanted(l.entry, checkFile, checkDir)
  {
    added := [];
    for i := 0 to |ls|
      invariant DistinctLinks(added)
      invariant forall l :: l in added <==> l in ls[..i] && Wanted(l.entry, checkFile, checkDir)
    {
      var de := ls[i].entry;
      assert ls[..i + 1] == ls[..i] + [ls[i]];
      assert ls[i] !in ls[..i];
      if de.status == Added {
        if de.id == Zero && !checkFile {
          continue;
        }
        added := [ls[i]] + added;
      }
      if de.status == DirAdded {
        if de.id == Zero && !checkDir {
          continue;
        }
        added := [ls[i]] + added;
      }
    }
    assert ls[..|ls|] == ls;
  }

  predicate IsAdd(e: DiffEntry)
  {
    e.status == Added || e.status == DirAdded
  }

  function RenameLink(addr: nat, add: DiffEntry, del: DiffEntry): Link
  {
    Link(addr, DiffEntry(RenStatus(KindOf(add)), del.id, del.name, Some(add.name), 0, 0))
  }

  /** `del` is a deletion with the content and kind of the addition `add`. */
  ghost predicate Mates(ls: seq<Link>, add: Link, del: Link)
  {
    && add in ls && del in ls && IsAdd(add.entry)
    && del.entry.id == add.entry.id && del.entry.status == DelStatus(KindOf(add.entry))
  }

  function Replaced(ls: seq<Link>, add: Link, del: Link, addr: nat): seq<Link>
  {
    [RenameLink(addr, add.entry, del.entry)] + Unlink(Unlink(ls, add), del)
  }

  lemma ContentsCons(l: Link, ls: seq<Link>)
    ensures Contents([l] + ls) == [l.entry] + Contents(ls)
  {
  }

  lemma ExpandCons(e: DiffEntry, es: seq<DiffEntry>)
    ensures Expand([e] + es) == Expand1(e) + Expand(es)
  {
  }

  lemma CountCons(e: DiffEntry, es: seq<DiffEntry>, s: Status, x: Id)
    ensures Count([e] + es, s, x) == (if e.status == s && e.id == x then 1 else 0) + Count(es, s, x)
  {
  }

  lemma RenameMeans(add: DiffEntry, del: DiffEntry, addr: nat)
    requires IsAdd(add) && del.id == add.id && del.status == DelStatus(KindOf(add))
    ensures Expand1(RenameLink(addr, add, del).entry) == Expand1(add) + Expand1(del)
  {
  }

  /** Replacing an addition and its mate by one rename keeps the meaning ... */
  lemma ReplacedExpand(ls: seq<Link>, add: Link, del: Link, addr: nat)
    requires Mates(ls, add, del)
    ensures Expand(Contents(Replaced(ls, add, del, addr))) == Expand(Contents(ls))
  {
    var mid := Unlink(ls, add);
    var end := Unlink(mid, del);
    UnlinkKeeps(ls, add, del);
    UnlinkExpand(ls, add);
    UnlinkExpand(mid, del);
    var ren := RenameLink(addr, add.entry, del.entry);
    ContentsCons(ren, end);
    ExpandCons(ren.entry, Contents(end));
    RenameMeans(add.entry, del.entry, addr);
    var a, d, y := Expand1(add.entry), Expand1(del.entry), Expand(Contents(end));
    assert (a + d) + y == a + (d + y);
  }

  /** ... adds one rename of that kind and id ... */
  lemma ReplacedCount(ls: seq<Link>, add: Link, del: Link, addr: nat, k: Kind, x: Id)
    requires Mates(ls, add, del)
    ensures Count(Contents(Replaced(ls, add, del, addr)), RenStatus(k), x) ==
            Count(Contents(ls), RenStatus(k), x) + if k == KindOf(add.entry) && x == add.entry.id then 1 else 0
  {
    var mid := Unlink(ls, add);
    var end := Unlink(mid, del);
    UnlinkKeeps(ls, add, del);
    UnlinkCount(ls, add, RenStatus(k), x);
    UnlinkCount(mid, del, RenStatus(k), x);
    var ren := RenameLink(addr, add.entry, del.entry);
    ContentsCons(ren, end);
    CountCons(ren.entry, Contents(end), RenStatus(k), x);
  }

  /** ... and touches no other cell. */
  lemma ReplacedKeeps(ls: seq<Link>, add: Link, del: Link, addr: nat, m: Link)
    requires Mates(ls, add, del) && m in ls && m != add && m != del
    ensures m in Replaced(ls, add, del, addr)
  {
    UnlinkKeeps(ls, add, m);
    UnlinkKeeps(Unlink(ls, add), del, m);
  }

  lemma PointsAfter(ls: seq<Link>, add: Link, del: Link, addr: nat, m: Index, s: Status)
    requires Mates(ls, add, del) && Points(ls, m, s) && (s == Deleted || s == DirDeleted)
    requires forall x :: x in m ==> m[x] != del
    ensures Points(Replaced(ls, add, del, addr), m, s)
  {
    forall x | x in m ensures m[x] in Replaced(ls, add, del, addr) {
      ReplacedKeeps(ls, add, del, addr, m[x]);
    }
  }

  ghost predicate OneMore(es: seq<DiffEntry>, es': seq<DiffEntry>, k: Kind, x: Id, made: bool)
  {
    forall j, y :: Count(es', RenStatus(j), y) ==
      Count(es, RenStatus(j), y) + if made && j == k && y == x then 1 else 0
  }

  ghost predicate KeepsAdditions(ls: seq<Link>, ls': seq<Link>, add: Link)
  {
    forall m :: m in ls && m != add && IsAdd(m.entry) ==> m in ls'
  }

  lemma ReplacedAll(ls: seq<Link>, add: Link, del: Link, addr: nat)
    requires Mates(ls, add, del)
    ensures Expand(Contents(Replaced(ls, add, del, addr))) == Expand(Contents(ls))
    ensures OneMore(Contents(ls), Contents(Replaced(ls, add, del, addr)), KindOf(add.entry), add.entry.id, true)
    ensures KeepsAdditions(ls, Replaced(ls, add, del, addr), add)
  {
    ReplacedExpand(ls, add, del, addr);
    forall j, y { ReplacedCount(ls, add, del, addr, j, y); }
    forall m | m in ls && m != add && IsAdd(m.entry) ensures m in Replaced(ls, add, del, addr) {
      ReplacedKeeps(ls, add, del, addr, m);
    }
  }

  /** The new list has cells of the old one and the rename. */
  lemma ReplacedFrom(ls: seq<Link>, add: Link, del: Link, addr: nat)
    requires Mates(ls, add, del)
    ensures AllFrom(Contents(ls), Contents(Replaced(ls, add, del, addr)))
  {
    var mid := Unlink(ls, add);
    var end := Unlink(mid, del);
    var ren := RenameLink(addr, add.entry, del.entry);
    ContentsCons(ren, end);
    UnlinkFrom(ls, add);
    UnlinkFrom(mid, del);
    InContents(ls, add);
    InContents(ls, del);
    assert JoinOf(Contents(ls), ren.entry, del.entry, add.entry);
  }

  lemma {:induction false} UnlinkMembers(ls: seq<Link>, l: Link)
    ensures forall m :: m in Unlink(ls, l) ==> m in ls
  {
    if ls != [] && ls[0] != l { UnlinkMembers(ls[1..], l); }
  }

  lemma UnlinkFrom(ls: seq<Link>, l: Link)
    ensures forall e :: e in Contents(Unlink(ls, l)) ==> e in Contents(ls)
  {
    UnlinkMembers(ls, l);
    forall e | e in Contents(Unlink(ls, l)) ensures e in Contents(ls) {
      var i :| 0 <= i < |Unlink(ls, l)| && Contents(Unlink(ls, l))[i] == e;
      InContents(ls, Unlink(ls, l)[i]);
    }
  }

  lemma InContents(ls: seq<Link>, l: Link)
    requires l in ls
    ensures l.entry in Contents(ls)
  {
    var i :| 0 <= i < |ls| && ls[i] == l;
    assert Contents(ls)[i] == l.entry;
  }

  /** The tables without the key of an addition. */
  function LessFiles(files: Index, add: DiffEntry): Index
  {
    if KindOf(add).File? then files - {add.id} else files
  }

  function LessDirs(dirs: Index, add: DiffEntry): Index
  {
    if KindOf(add).Dir? then dirs - {add.id} else dirs
  }

  lemma PointsWithout(ls: seq<Link>, m: Index, s: Status, x: Id)
    requires Points(ls, m, s)
    ensures Points(ls, m - {x}, s) && forall y :: y in m - {x} ==> (m - {x})[y] == m[y] && m[y].entry.id != x
  {
  }

  /** Pairing an addition with the deletion its table points at. */
  lemma FoundPoints(ls: seq<Link>, files: Index, dirs: Index, add: Link, next: nat)
    requires add in ls && IsAdd(add.entry) && Points(ls, files, Deleted) && Points(ls, dirs, DirDeleted)
    requires add.entry.id in Pick(KindOf(add.entry), files, dirs)
    ensures var del := Pick(KindOf(add.entry), files, dirs)[add.entry.id];
            && Mates(ls, add, del)
            && Points(Replaced(ls, add, del, next), LessFiles(files, add.entry), Deleted)
            && Points(Replaced(ls, add, del, next), LessDirs(dirs, add.entry), DirDeleted)
  {
    var x := add.entry.id;
    var del := Pick(KindOf(add.entry), files, dirs)[x];
    PointsWithout(ls, files, Deleted, x);
    PointsWithout(ls, dirs, DirDeleted, x);
    PointsAfter(ls, add, del, next, LessFiles(files, add.entry), Deleted);
    PointsAfter(ls, add, del, next, LessDirs(dirs, add.entry), DirDeleted);
  }

  /** One round of the pairing loop. */
  method PairOne(ls: seq<Link>, files: Index, dirs: Index, add: Link, next: nat)
    returns (ls': seq<Link>, files': Index, dirs': Index)
    requires add in ls && IsAdd(add.entry) && Points(ls, files, Deleted) && Points(ls, dirs, DirDeleted)
    ensures files' == LessFiles(files, add.entry) && dirs' == LessDirs(dirs, add.entry)
    ensures OneMore(Contents(ls), Contents(ls'), KindOf(add.entry), add.entry.id,
                    add.entry.id in Pick(KindOf(add.entry), files, dirs))
    ensures Expand(Contents(ls')) == Expand(Contents(ls)) && AllFrom(Contents(ls), Contents(ls'))
    ensures Points(ls', files', Deleted) && Points(ls', dirs', DirDeleted)
    ensures KeepsAdditions(ls, ls', add)
  {
    ls', files', dirs' := ls, files, dirs;
    var x := add.entry.id;
    var found := if add.entry.status == Added then files else dirs;
    if x in found {
      var del := found[x];
      FoundPoints(ls, files, dirs, add, next);
      ReplacedAll(ls, add, del, next);
      ReplacedFrom(ls, add, del, next);
      var status := if add.entry.status == DirAdded then DirRenamed else Renamed;
      var ren := Link(next, DiffEntry(status, del.entry.id, del.entry.name, Some(add.entry.name), 0, 0));
      ls' := Unlink(ls', add);
      ls' := Unlink(ls', del);
      ls' := [ren] + ls';
      if del.entry.status == DirDeleted {
        dirs' := dirs' - {x};
      } else {
        files' := files' - {x};
      }
      assert ls' == Replaced(ls, add, del, next);
    } else {
      assert found - {x} == found;
    }
  }

  function Number(es: seq<DiffEntry>, from: nat): (ls: seq<Link>)
    ensures |ls| == |es| && forall i :: 0 <= i < |es| ==> ls[i] == Link(from + i, es[i])
  {
    if es == [] then [] else [Link(from, es[0])] + Number(es[1..], from + 1)
  }

  /** The keys paired so far are those of the additions already visited. */
  ghost predicate Progress(start: Index, now: Index, visited: seq<Link>, k: Kind)
  {
    && (forall x :: x in now ==> x in start)
    && (forall x :: x in start ==>
          (x !in now <==> AddsId(visited, k, x)))
  }

  lemma ProgressStep(start: Index, now: Index, visited: seq<Link>, l: Link, k: Kind)
    requires IsAdd(l.entry) && Progress(start, now, visited, k)
    ensures Progress(start, if KindOf(l.entry) == k then now - {l.entry.id} else now, visited + [l], k)
  {
  }

  /** One rename was made for every key that is no longer in the table. */
  ghost predicate Made(input: seq<DiffEntry>, es: seq<DiffEntry>, start: Index, now: Index, k: Kind)
  {
    forall x :: Count(es, RenStatus(k), x) == Count(input, RenStatus(k), x) + if x in start && x !in now then 1 else 0
  }

  lemma MadeStep(input: seq<DiffEntry>, es: seq<DiffEntry>, es': seq<DiffEntry>, start: Index, now: Index, e: DiffEntry,
                 k: Kind, files: Index, dirs: Index)
    requires Made(input, es, start, now, k) && now == Pick(k, files, dirs) && (forall x :: x in now ==> x in start)
    requires OneMore(es, es', KindOf(e), e.id, e.id in Pick(KindOf(e), files, dirs))
    ensures Made(input, es', start, if KindOf(e) == k then now - {e.id} else now, k)
  {
  }

  /** At the end a rename was made exactly for the ids that may be paired. */
  lemma PairedIff(ls: seq<Link>, es: seq<DiffEntry>, start: Index, now: Index, added: seq<Link>,
                  checkFile: bool, checkDir: bool, k: Kind, x: Id)
    requires Collected(ls, start, DelStatus(k), if k.File? then checkFile else checkDir)
    requires forall l :: l in added <==> l in ls && Wanted(l.entry, checkFile, checkDir)
    requires (if k.File? then checkFile else checkDir) ==
             (Count(Contents(ls), DelStatus(k), Zero) == 1 && Count(Contents(ls), AddStatus(k), Zero) == 1)
    requires KindState(Contents(ls), es, start, now, added, k)
    ensures OneRename(Contents(ls), es, k, x)
  {
    var check := if k.File? then checkFile else checkDir;
    StartIff(ls, start, DelStatus(k), check, x);
    AddedIff(ls, added, checkFile, checkDir, k, x);
  }

  ghost predicate AddsId(added: seq<Link>, k: Kind, x: Id)
  {
    exists l :: l in added && IsAdd(l.entry) && KindOf(l.entry) == k && l.entry.id == x
  }

  lemma StartIff(ls: seq<Link>, start: Index, s: Status, check: bool, x: Id)
    requires Collected(ls, start, s, check)
    ensures x in start <==> Count(Contents(ls), s, x) > 0 && (x != Zero || check)
  {
    LinkCount(ls, s, x);
  }

  lemma AddedIff(ls: seq<Link>, added: seq<Link>, checkFile: bool, checkDir: bool, k: Kind, x: Id)
    requires forall l :: l in added <==> l in ls && Wanted(l.entry, checkFile, checkDir)
    ensures AddsId(added, k, x) <==>
      Count(Contents(ls), AddStatus(k), x) > 0 && (x != Zero || if k.File? then checkFile else checkDir)
  {
    LinkCount(ls, AddStatus(k), x);
    var check := if k.File? then checkFile else checkDir;
    if l :| l in ls && l.entry.status == AddStatus(k) && l.entry.id == x && (x != Zero || check) {
      assert l in added;
    }
  }

  lemma NotAgain(visited: seq<Link>, added: seq<Link>)
    requires DistinctLinks(visited + added) && added != []
    ensures added[0] !in added[1..]
    ensures (visited + [added[0]]) + added[1..] == visited + added
  {
    var n := |visited|;
    forall i | 1 <= i < |added| ensures added[i] != added[0] {
      assert (visited + added)[n] == added[0] && (visited + added)[n + i] == added[i];
    }
  }

  /** Where the pairing of one kind stands. */
  ghost predicate KindState(input: seq<DiffEntry>, es: seq<DiffEntry>, start: Index, now: Index, visited: seq<Link>,
                            k: Kind)
  {
    Progress(start, now, visited, k) && Made(input, es, start, now, k)
  }

  lemma KindStep(input: seq<DiffEntry>, es: seq<DiffEntry>, es': seq<DiffEntry>, start: Index, now: Index,
                 visited: seq<Link>, l: Link, k: Kind, files: Index, dirs: Index)
    requires KindState(input, es, start, now, visited, k) && now == Pick(k, files, dirs) && IsAdd(l.entry)
    requires OneMore(es, es', KindOf(l.entry), l.entry.id, l.entry.id in Pick(KindOf(l.entry), files, dirs))
    ensures KindState(input, es', start, if KindOf(l.entry) == k then now - {l.entry.id} else now, visited + [l], k)
  {
    ProgressStep(start, now, visited, l, k);
    MadeStep(input, es, es', start, now, l.entry, k, files, dirs);
  }

  /** The list and the two tables after some additions were looked up. */
  ghost predicate PairState(input: seq<DiffEntry>, es: seq<DiffEntry>, filesIn: Index, files: Index,
                            dirsIn: Index, dirs: Index, visited: seq<Link>)
  {
    && Expand(es) == Expand(input) && AllFrom(input, es)
    && KindStates(input, es, filesIn, files, dirsIn, dirs, visited)
  }

  ghost predicate KindStates(input: seq<DiffEntry>, es: seq<DiffEntry>, filesIn: Index, files: Index,
                             dirsIn: Index, dirs: Index, visited: seq<Link>)
  {
    KindState(input, es, filesIn, files, visited, File) && KindState(input, es, dirsIn, dirs, visited, Dir)
  }

  lemma KindsStep(input: seq<DiffEntry>, es: seq<DiffEntry>, es': seq<DiffEntry>, filesIn: Index, files: Index,
                  dirsIn: Index, dirs: Index, visited: seq<Link>, l: Link)
    requires KindStates(input, es, filesIn, files, dirsIn, dirs, visited) && IsAdd(l.entry)
    requires OneMore(es, es', KindOf(l.entry), l.entry.id, l.entry.id in Pick(KindOf(l.entry), files, dirs))
    ensures KindStates(input, es', filesIn, LessFiles(files, l.entry), dirsIn, LessDirs(dirs, l.entry), visited + [l])
  {
    KindStep(input, es, es', filesIn, files, visited, l, File, files, dirs);
    KindStep(input, es, es', dirsIn, dirs, visited, l, Dir, files, dirs);
  }

  lemma PairStep(input: seq<DiffEntry>, es: seq<DiffEntry>, es': seq<DiffEntry>, filesIn: Index, files: Index,
                 dirsIn: Index, dirs: Index, visited: seq<Link>, l: Link)
    requires PairState(input, es, filesIn, files, dirsIn, dirs, visited) && IsAdd(l.entry)
    requires OneMore(es, es', KindOf(l.entry), l.entry.id, l.entry.id in Pick(KindOf(l.entry), files, dirs))
    requires Expand(es') == Expand(es) && AllFrom(es, es')
    ensures PairState(input, es', filesIn, LessFiles(files, l.entry), dirsIn, LessDirs(dirs, l.entry), visited + [l])
  {
    FromStep(input, es, es');
    KindsStep(input, es, es', filesIn, files, dirsIn, dirs, visited, l);
  }

  /** The pairing loop: every collected addition is looked up once. */
  method PairAll(lsIn: seq<Link>, filesIn: Index, dirsIn: Index, queue: seq<Link>)
    returns (ls: seq<Link>, ghost files: Index, ghost dirs: Index)
    requires DistinctLinks(queue) && forall l :: l in queue ==> l in lsIn && IsAdd(l.entry)
    requires Points(lsIn, filesIn, Deleted) && Points(lsIn, dirsIn, DirDeleted)
    ensures Expand(Contents(ls)) == Expand(Contents(lsIn))
    ensures PairState(Contents(lsIn), Contents(ls), filesIn, files, dirsIn, dirs, queue)
  {
    ls := lsIn;
    var deletedFiles, deletedDirs := filesIn, dirsIn;
    var next: nat := |lsIn|;
    var added := queue;
    ghost var visited: seq<Link> := [];
    while added != []
      invariant queue == visited + added
      invariant forall l :: l in added ==> l in ls && IsAdd(l.entry)
      invariant Points(ls, deletedFiles, Deleted) && Points(ls, deletedDirs, DirDeleted)
      invariant PairState(Contents(lsIn), Contents(ls), filesIn, deletedFiles, dirsIn, deletedDirs, visited)
      decreases |added|
    {
      var add := added[0];
      NotAgain(visited, added);
      ghost var before, wasFiles, wasDirs := Contents(ls), deletedFiles, deletedDirs;
      ls, deletedFiles, deletedDirs := PairOne(ls, deletedFiles, deletedDirs, add, next);
      PairStep(Contents(lsIn), before, Contents(ls), filesIn, wasFiles, dirsIn, wasDirs, visited, add);
      next := next + 1;
      visited, added := visited + [add], added[1..];
    }
    assert visited == queue;
    files, dirs := deletedFiles, deletedDirs;
  }

  lemma AllRenamed(ls: seq<Link>, es: seq<DiffEntry>, filesIn: Index, files: Index, dirsIn: Index, dirs: Index,
                   added: seq<Link>, checkFile: bool, checkDir: bool)
    requires Collected(ls, filesIn, Deleted, checkFile) && Collected(ls, dirsIn, DirDeleted, checkDir)
    requires forall l :: l in added <==> l in ls && Wanted(l.entry, checkFile, checkDir)
    requires checkFile == (Count(Contents(ls), Deleted, Zero) == 1 && Count(Contents(ls), Added, Zero) == 1)
    requires checkDir == (Count(Contents(ls), DirDeleted, Zero) == 1 && Count(Contents(ls), DirAdded, Zero) == 1)
    requires PairState(Contents(ls), es, filesIn, files, dirsIn, dirs, added)
    ensures Resolves(Contents(ls), es)
  {
    forall k, x ensures OneRename(Contents(ls), es, k, x) {
      PairedIff(ls, es, Pick(k, filesIn, dirsIn), Pick(k, files, dirs), added, checkFile, checkDir, k, x);
    }
  }

  /** Rename resolution keeps the meaning of the diff and makes exactly one rename
      per kind and non-empty id that was both deleted and added; empty content is
      paired only when exactly one such entry was deleted and one added. */
  method ResolveRenames(input: seq<DiffEntry>) returns (output: seq<DiffEntry>)
    ensures Resolves(input, output)
  {
    var ls := Number(input, 0);
    assert Contents(ls) == input;
    var checkFile, checkDir := CountEmpty(ls);
    var files, dirs := CollectDeleted(ls, checkFile, checkDir);
    var added := CollectAdded(ls, checkFile, checkDir);
    var paired;
    ghost var filesLeft, dirsLeft;
    paired, filesLeft, dirsLeft := PairAll(ls, files, dirs, added);
    output := Contents(paired);
    AllRenamed(ls, output, files, filesLeft, dirs, dirsLeft, added, checkFile, checkDir);
  }
}
