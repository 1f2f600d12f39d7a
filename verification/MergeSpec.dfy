/** What a three-way tree merge computes, name by name.

    The base, head and remote entries of one name decide which entries the merged
    directory gets for that name; a directory changed on both sides is merged
    recursively.  The conflict name of an entry is a parameter: it depends on the
    remote commit, its author and the clock.
 */
module MergeSpec {
  import opened Options
  import opened FsTree
  import opened Lockstep

  /** Conflict name for (directory prefix, entry name, kind of the renamed entry). */
  type ConflictNamer = (string, string, Kind) -> Option<string>

  function Renamed(cn: ConflictNamer, basedir: string, d: Dirent): Dirent
  {
    match cn(basedir, d.name, d.kind)
    case Some(c) => d.(name := c)
    case None => d
  }

  /** What the file cases of one name emit, the remote entry afterwards (a remote
      directory may have been renamed), and whether they are in conflict. */
  datatype FileStep = FileStep(out: seq<Dirent>, remote: Option<Dirent>, conflict: bool)

  function MergeFiles(cn: ConflictNamer, basedir: string, w: Row): FileStep
  {
    var b, h, r := AsFile(w.b), AsFile(w.h), AsFile(w.r);
    if h.Some? && r.Some? then
      if h.value.id == r.value.id then FileStep([h.value], w.r, false)
      else if b.Some? && b.value.id == h.value.id then FileStep([r.value], w.r, false)
      else if b.Some? && b.value.id == r.value.id then FileStep([h.value], w.r, false)
      else
        var c := Renamed(cn, basedir, r.value);
        FileStep([c, h.value], Some(c), true)
    else if b.Some? && r.Some? then
      if b.value.id == r.value.id then FileStep([], w.r, false)
      else if w.h.None? then FileStep([r.value], w.r, false)
      else
        var c := Renamed(cn, basedir, r.value);
        FileStep([c], Some(c), true)
    else if b.Some? && h.Some? then
      if b.value.id == h.value.id then FileStep([], w.r, false)
      else if w.r.None? then FileStep([h.value], w.r, false)
      else FileStep([h.value], Some(Renamed(cn, basedir, w.r.value)), true)
    else if r.Some? then
      if w.h.None? || (w.b.Some? && w.b.value.id == w.h.value.id) then FileStep([r.value], w.r, false)
      else
        var c := Renamed(cn, basedir, r.value);
        FileStep([c], Some(c), true)
    else if h.Some? then
      if w.r.None? || (w.b.Some? && w.b.value.id == w.r.value.id) then FileStep([h.value], w.r, false)
      else FileStep([h.value], Some(Renamed(cn, basedir, w.r.value)), true)
    else FileStep([], w.r, false)
  }

  /** What happens to the directories of one name. */
  datatype DirStep = Skip | Keep(dent: Dirent) | Recurse(dent: Dirent)

  function MergeDirs(wb: Option<Dirent>, wh: Option<Dirent>, wr: Option<Dirent>): DirStep
  {
    var b, h, r := AsDir(wb), AsDir(wh), AsDir(wr);
    if h.Some? && r.Some? then
      if h.value.id == r.value.id then Keep(h.value)
      else if wb.Some? && wb.value.id == h.value.id then Keep(r.value)
      else if wb.Some? && wb.value.id == r.value.id then Keep(h.value)
      else Recurse(h.value)
    else if h.Some? then
      if b.None? then Keep(h.value)
      else if b.value.id == h.value.id then Skip
      else Recurse(h.value)
    else if r.Some? then
      if b.None? then Keep(r.value)
      else if b.value.id == r.value.id then Skip
      else Recurse(r.value)
    else Skip
  }

  function DirStepOf(cn: ConflictNamer, basedir: string, w: Row): DirStep
  {
    MergeDirs(w.b, w.h, MergeFiles(cn, basedir, w).remote)
  }

  lemma RecurseShrinks(cn: ConflictNamer, basedir: string, w: Row)
    requires DirStepOf(cn, basedir, w).Recurse?
    ensures ListSize(Sub(w.b)) + ListSize(Sub(w.h)) + ListSize(Sub(w.r)) < RowSize(w)
  {
    SubSize(w.b);
    SubSize(w.h);
    SubSize(w.r);
  }

  /** The entries one name contributes, most recently emitted first. */
  function MergeRow(cn: ConflictNamer, basedir: string, w: Row): seq<Dirent>
    decreases RowSize(w), 0, 0
  {
    var files := MergeFiles(cn, basedir, w).out;
    match DirStepOf(cn, basedir, w)
    case Skip => files
    case Keep(d) => [d] + files
    case Recurse(d) =>
      RecurseShrinks(cn, basedir, w);
      var merged := Merge(cn, Below(basedir, d.name), Sub(w.b), Sub(w.h), Sub(w.r));
      [d.(id := DirId(merged))] + files
  }

  function MergeRows(cn: ConflictNamer, basedir: string, ws: seq<Row>): seq<Dirent>
    decreases RowsSize(ws), 1, |ws|
  {
    if ws == [] then []
    else MergeRows(cn, basedir, ws[1..]) + MergeRow(cn, basedir, ws[0])
  }

  /** The merged listing. */
  function Merge(cn: ConflictNamer, basedir: string,
                 b: seq<Dirent>, h: seq<Dirent>, r: seq<Dirent>): seq<Dirent>
    decreases ListSize(b) + ListSize(h) + ListSize(r), 2, 0
  {
    RowsConserveSize(b, h, r);
    SortDesc(MergeRows(cn, basedir, Rows(b, h, r)))
  }

  /** Some name, at this level or below, is in conflict. */
  predicate RowConflicts(cn: ConflictNamer, basedir: string, w: Row)
    decreases RowSize(w), 0, 0
  {
    || MergeFiles(cn, basedir, w).conflict
    || (DirStepOf(cn, basedir, w).Recurse? &&
        (RecurseShrinks(cn, basedir, w);
         Conflicts(cn, Below(basedir, DirStepOf(cn, basedir, w).dent.name), Sub(w.b), Sub(w.h), Sub(w.r))))
  }

  predicate RowsConflict(cn: ConflictNamer, basedir: string, ws: seq<Row>)
    decreases RowsSize(ws), 1, |ws|
  {
    ws != [] && (RowConflicts(cn, basedir, ws[0]) || RowsConflict(cn, basedir, ws[1..]))
  }

  predicate Conflicts(cn: ConflictNamer, basedir: string,
                      b: seq<Dirent>, h: seq<Dirent>, r: seq<Dirent>)
    decreases ListSize(b) + ListSize(h) + ListSize(r), 2, 0
  {
    RowsConserveSize(b, h, r);
    RowsConflict(cn, basedir, Rows(b, h, r))
  }

  /** A conflict name could be generated for every entry in conflict. */
  predicate RowNamed(cn: ConflictNamer, basedir: string, w: Row)
    decreases RowSize(w), 0, 0
  {
    && FilesNamed(cn, basedir, w)
    && (DirStepOf(cn, basedir, w).Recurse? ==>
          (RecurseShrinks(cn, basedir, w);
           Named(cn, Below(basedir, DirStepOf(cn, basedir, w).dent.name), Sub(w.b), Sub(w.h), Sub(w.r))))
  }

  predicate FilesNamed(cn: ConflictNamer, basedir: string, w: Row)
  {
    MergeFiles(cn, basedir, w).conflict ==> w.r.Some? && cn(basedir, w.r.value.name, w.r.value.kind).Some?
  }

  predicate RowsNamed(cn: ConflictNamer, basedir: string, ws: seq<Row>)
    decreases RowsSize(ws), 1, |ws|
  {
    ws != [] ==> RowNamed(cn, basedir, ws[0]) && RowsNamed(cn, basedir, ws[1..])
  }

  predicate Named(cn: ConflictNamer, basedir: string, b: seq<Dirent>, h: seq<Dirent>, r: seq<Dirent>)
    decreases ListSize(b) + ListSize(h) + ListSize(r), 2, 0
  {
    RowsConserveSize(b, h, r);
    RowsNamed(cn, basedir, Rows(b, h, r))
  }

  // ------------------------------------------------------- membership facts

  lemma {:induction false} RowsKeep(cn: ConflictNamer, basedir: string, ws: seq<Row>, w: Row, d: Dirent)
    requires w in ws && d in MergeRow(cn, basedir, w)
    ensures d in MergeRows(cn, basedir, ws)
  {
    if w != ws[0] { RowsKeep(cn, basedir, ws[1..], w, d); }
  }

  lemma {:induction false} RowsOrigin(cn: ConflictNamer, basedir: string, ws: seq<Row>, d: Dirent) returns (w: Row)
    requires d in MergeRows(cn, basedir, ws)
    ensures w in ws && d in MergeRow(cn, basedir, w)
  {
    if d in MergeRow(cn, basedir, ws[0]) {
      w := ws[0];
    } else {
      w := RowsOrigin(cn, basedir, ws[1..], d);
    }
  }

  /** Everything a name emits is in the merged listing. */
  lemma MergeKeeps(cn: ConflictNamer, basedir: string, b: seq<Dirent>, h: seq<Dirent>, r: seq<Dirent>, w: Row,
                   d: Dirent)
    requires w in Rows(b, h, r) && d in MergeRow(cn, basedir, w)
    ensures d in Merge(cn, basedir, b, h, r)
  {
    var rows := MergeRows(cn, basedir, Rows(b, h, r));
    RowsKeep(cn, basedir, Rows(b, h, r), w, d);
    SameElements(rows, SortDesc(rows), d);
  }

  /** The merged listing holds nothing else. */
  lemma MergeOrigin(cn: ConflictNamer, basedir: string, b: seq<Dirent>, h: seq<Dirent>, r: seq<Dirent>, d: Dirent)
    returns (w: Row)
    requires d in Merge(cn, basedir, b, h, r)
    ensures w in Rows(b, h, r) && d in MergeRow(cn, basedir, w)
  {
    var rows := MergeRows(cn, basedir, Rows(b, h, r));
    SameElements(rows, SortDesc(rows), d);
    w := RowsOrigin(cn, basedir, Rows(b, h, r), d);
  }

  lemma {:induction false} RowsConflictOf(cn: ConflictNamer, basedir: string, ws: seq<Row>, w: Row)
    requires w in ws && RowConflicts(cn, basedir, w)
    ensures RowsConflict(cn, basedir, ws)
  {
    if w != ws[0] { RowsConflictOf(cn, basedir, ws[1..], w); }
  }

  lemma ConflictsOf(cn: ConflictNamer, basedir: string, b: seq<Dirent>, h: seq<Dirent>, r: seq<Dirent>, w: Row)
    requires w in Rows(b, h, r) && RowConflicts(cn, basedir, w)
    ensures Conflicts(cn, basedir, b, h, r)
  {
    RowsConflictOf(cn, basedir, Rows(b, h, r), w);
  }
}
