/** Nested groups: each structured group stores the decimal ids of its parent chain as
    text, and the ancestor and descendant queries search that text.
 */
module Groups {
  import opened Strings
  import opened Like

  // --------------------------------------------------------------- decimals

  function Digit(d: nat): char
    requires d < 10
  {
    '0' + d as char
  }

  predicate IsDigit(c: char)
  {
    '0' <= c <= '9'
  }

  function DigitValue(c: char): nat
    requires IsDigit(c)
  {
    (c - '0') as nat
  }

  /** The text %d prints for a positive id. */
  function Decimal(n: nat): (s: string)
    ensures s != "" && forall i :: 0 <= i < |s| ==> IsDigit(s[i])
  {
    if n < 10 then [Digit(n)] else Decimal(n / 10) + [Digit(n % 10)]
  }

  lemma {:induction false} DecimalInjective(m: nat, n: nat)
    requires Decimal(m) == Decimal(n)
    ensures m == n
  {
    ParseDecimal(m, "");
    ParseDecimal(n, "");
  }

  /** The ids the database reads in `IN(text)`. */
  function ParseList(s: string, current: nat): seq<nat>
  {
    if s == "" then [current]
    else if IsDigit(s[0]) then ParseList(s[1..], 10 * current + DigitValue(s[0]))
    else if s[0] == ',' then [current] + ParseList(s[1..], 0)
    else ParseList(s[1..], current)
  }

  lemma {:induction false} ParseDecimal(n: nat, rest: string)
    ensures ParseList(Decimal(n) + rest, 0) == ParseList(rest, n)
  {
    var d := Digit(n % 10);
    assert IsDigit(d) && DigitValue(d) == n % 10;
    if n < 10 {
      assert (Decimal(n) + rest)[1..] == rest;
    } else {
      assert Decimal(n) + rest == Decimal(n / 10) + ([d] + rest);
      ParseDecimal(n / 10, [d] + rest);
      assert ([d] + rest)[1..] == rest;
    }
  }

  // ------------------------------------------------------------ stored paths

  /** Every id preceded by the separator. */
  function Listed(ids: seq<nat>): string
  {
    if ids == [] then "" else ", " + Decimal(ids[0]) + Listed(ids[1..])
  }

  /** The stored path of a chain of ids, root first. */
  function PathText(ids: seq<nat>): string
    requires ids != []
  {
    Decimal(ids[0]) + Listed(ids[1..])
  }

  lemma {:induction false} ListedAppend(ids: seq<nat>, id: nat)
    ensures Listed(ids + [id]) == Listed(ids) + ", " + Decimal(id)
  {
    if ids == [] {
      assert ids + [id] == [id];
      assert [id][1..] == [];
    } else {
      assert (ids + [id])[1..] == ids[1..] + [id];
      ListedAppend(ids[1..], id);
    }
  }

  lemma PathTextAppend(ids: seq<nat>, id: nat)
    requires ids != []
    ensures PathText(ids + [id]) == PathText(ids) + ", " + Decimal(id)
  {
    assert (ids + [id])[1..] == ids[1..] + [id];
    ListedAppend(ids[1..], id);
  }

  lemma {:induction false} ParseListed(n: nat, ids: seq<nat>)
    ensures ParseList(Decimal(n) + Listed(ids), 0) == [n] + ids
    decreases |ids|
  {
    ParseDecimal(n, Listed(ids));
    if ids != [] {
      var tail := Decimal(ids[0]) + Listed(ids[1..]);
      assert Listed(ids)[1..] == " " + tail;
      assert (" " + tail)[1..] == tail;
      ParseListed(ids[0], ids[1..]);
    }
  }

  /** Reading a stored path back gives the chain. */
  lemma ParsePath(ids: seq<nat>)
    requires ids != []
    ensures ParseList(PathText(ids), 0) == ids
  {
    ParseListed(ids[0], ids[1..]);
  }

  // ------------------------------------------------------------ LIKE on paths

  predicate Plain(s: string)
  {
    forall i :: 0 <= i < |s| ==> !Special(s[i])
  }

  /** Two numbers ended by a comma are compared digit by digit: no shared-digit match. */
  lemma {:induction false} SameNumber(a: string, b: string, restA: string, restB: string)
    requires forall i :: 0 <= i < |a| ==> IsDigit(a[i])
    requires forall i :: 0 <= i < |b| ==> IsDigit(b[i])
    requires restA != "" && restA[0] == ',' && (restB == "" || restB[0] == ',')
    requires StartsWith(b + restB, a + restA)
    ensures a == b && StartsWith(restB, restA)
  {
    var s, p := b + restB, a + restA;
    assert forall i :: 0 <= i < |p| ==> s[i] == s[..|p|][i] == p[i];
    assert s[|a|] == ',';
    assert forall i :: 0 <= i < |a| ==> s[i] == a[i];
    assert |b| < |s| ==> s[|b|] == ',';
    assert |a| == |b|;
    assert a == s[..|a|] == b;
    assert restB[..|restA|] == s[..|p|][|a|..] == restA;
  }

  lemma NoComma(id: nat, rest: string, k: nat)
    requires 0 < k < 2 + |Decimal(id)|
    ensures (", " + Decimal(id) + rest)[k] != ','
  {
  }

  /** `, a, ` occurs in the separated list exactly when `a` is listed before the last id. */
  lemma {:induction false} Occurs(ids: seq<nat>, a: nat, k: nat)
    requires k <= |Listed(ids)| && StartsWith(Listed(ids)[k..], ", " + Decimal(a) + ", ")
    ensures ids != [] && a in ids[..|ids| - 1]
  {
    var s := Listed(ids);
    var w := ", " + Decimal(a) + ", ";
    assert s[k..][0] == w[0];
    var n := 2 + |Decimal(ids[0])|;
    var rest := Listed(ids[1..]);
    assert s == (", " + Decimal(ids[0])) + rest;
    if k == 0 {
      assert s[k..] == s;
      assert StartsWith(Decimal(ids[0]) + rest, Decimal(a) + ", ") by {
        assert s[2..] == Decimal(ids[0]) + rest;
        assert w[2..] == Decimal(a) + ", ";
        assert s[..|w|][2..] == w[2..];
        assert s[2..][..|w| - 2] == s[..|w|][2..];
      }
      SameNumber(Decimal(a), Decimal(ids[0]), ", ", rest);
      DecimalInjective(a, ids[0]);
      assert ids[1..] != [];
      assert ids[..|ids| - 1][0] == a;
    } else {
      if k < n { NoComma(ids[0], rest, k); }
      assert s[k..] == rest[k - n..];
      Occurs(ids[1..], a, k - n);
      assert ids[..|ids| - 1] == [ids[0]] + ids[1..][..|ids| - 2];
    }
  }

  lemma {:induction false} OccursAt(ids: seq<nat>, i: nat) returns (k: nat)
    requires i < |ids| - 1
    ensures k <= |Listed(ids)| && StartsWith(Listed(ids)[k..], ", " + Decimal(ids[i]) + ", ")
    ensures k == 0 <==> i == 0
    ensures i > 0 ==> k >= 2 + |Decimal(ids[0])|
  {
    var s := Listed(ids);
    var n := 2 + |Decimal(ids[0])|;
    var rest := Listed(ids[1..]);
    assert s == (", " + Decimal(ids[0])) + rest;
    if i == 0 {
      k := 0;
      assert s[0..] == s;
      assert rest == ", " + Decimal(ids[1]) + Listed(ids[1..][1..]);
      assert s[..n + 2] == ", " + Decimal(ids[0]) + ", ";
    } else {
      var j := OccursAt(ids[1..], i - 1);
      k := n + j;
      assert s[k..] == rest[j..];
    }
  }

  /** The descendant query's test on a stored path. */
  predicate PathMatches(path: string, a: nat)
  {
    Matches(path, Decimal(a) + ", %") || Matches(path, "%, " + Decimal(a) + ", %")
  }

  /** As a search of the separated list, in which every id has a separator before it. */
  lemma PathMatchesSearch(path: string, a: nat)
    ensures PathMatches(path, a) <==>
      exists k :: 0 <= k <= |path| + 2 && k != 1 && StartsWith((", " + path)[k..], ", " + Decimal(a) + ", ")
  {
    var all, w := ", " + path, Decimal(a) + ", ";
    var v := ", " + Decimal(a) + ", ";
    assert Plain(w) && Plain(v) && v == ", " + w;
    assert Decimal(a) + ", %" == w + "%" && "%, " + Decimal(a) + ", %" == "%" + v + "%";
    EscapePlain(w);
    EscapedPrefix(path, w);
    Contains(path, v);
    FrontSearch(path, w);
    forall k | 0 <= k <= |path| ensures all[k + 2..] == path[k..] {}
    if k :| 0 <= k <= |path| && StartsWith(path[k..], v) {
      assert StartsWith(all[k + 2..], v);
    }
    if k :| 0 <= k <= |path| + 2 && k != 1 && StartsWith(all[k..], v) {
      if k > 0 { assert StartsWith(path[k - 2..], v); }
    }
  }

  lemma FrontSearch(path: string, w: string)
    ensures StartsWith(path, w) <==> StartsWith((", " + path)[0..], ", " + w)
  {
    var all := (", " + path)[0..];
    if |w| <= |path| {
      assert all[..2 + |w|] == ", " + path[..|w|];
      assert all[..2 + |w|][2..] == path[..|w|];
    }
  }

  /** It finds exactly the ids before the last one of the chain. */
  lemma PathMatchesExact(ids: seq<nat>, a: nat)
    requires ids != []
    ensures PathMatches(PathText(ids), a) <==> a in ids[..|ids| - 1]
  {
    var path := PathText(ids);
    assert Listed(ids) == ", " + path;
    PathMatchesSearch(path, a);
    if k :| 0 <= k <= |path| + 2 && k != 1 && StartsWith((", " + path)[k..], ", " + Decimal(a) + ", ") {
      Occurs(ids, a, k);
    }
    if a in ids[..|ids| - 1] {
      var i :| 0 <= i < |ids| - 1 && ids[i] == a;
      var k := OccursAt(ids, i);
    }
  }

  // ---------------------------------------------------------------- hierarchy

  type Parents = map<nat, int>

  const ROOT := -1
  const MAX_PATH := 1024

  predicate Structured(parent: int)
  {
    parent == ROOT || parent > 0
  }

  /** A line of live groups, each the parent of the next. */
  predicate IsLine(parents: Parents, c: seq<nat>)
  {
    && c != [] && (forall i :: 0 <= i < |c| ==> c[i] in parents)
    && forall i :: 0 < i < |c| ==> parents[c[i]] == c[i - 1]
  }

  /** A line from a top-level group. */
  predicate IsChain(parents: Parents, c: seq<nat>)
  {
    IsLine(parents, c) && parents[c[0]] == ROOT
  }

  ghost predicate AncestorOrSelf(parents: Parents, a: nat, g: nat)
  {
    exists c :: IsLine(parents, c) && c[0] == a && c[|c| - 1] == g
  }

  /** The stored path of `g` is its parent chain, ending in `g`. */
  ghost predicate PathOk(parents: Parents, g: nat, path: string)
  {
    exists c :: IsChain(parents, c) && c[|c| - 1] == g && path == PathText(c)
  }

  /** Ids are positive, and exactly the top-level groups and their descendants have a path. */
  ghost predicate RowsOk(parents: Parents, structure: map<nat, string>)
  {
    && (forall g :: g in parents ==> g > 0 && (parents[g] > 0 ==> parents[g] in structure))
    && (forall g :: g in structure <==> g in parents && Structured(parents[g]))
  }

  ghost predicate PathsOk(parents: Parents, structure: map<nat, string>)
  {
    forall g :: g in structure ==> PathOk(parents, g, structure[g])
  }

  ghost predicate Consistent(parents: Parents, structure: map<nat, string>)
  {
    RowsOk(parents, structure) && PathsOk(parents, structure)
  }

  lemma LinePrefix(parents: Parents, c: seq<nat>, i: nat)
    requires IsLine(parents, c) && i < |c|
    ensures IsLine(parents, c[i..])
  {
  }

  /** Two lines to the same group overlap, so the chain holds every ancestor and nothing else. */
  lemma {:induction false} LineInChain(parents: Parents, chain: seq<nat>, c: seq<nat>)
    requires IsChain(parents, chain) && IsLine(parents, c) && c[|c| - 1] == chain[|chain| - 1]
    ensures c[0] in chain
    decreases |c|
  {
    if |c| > 1 {
      assert parents[c[|c| - 1]] == c[|c| - 2];
      assert |chain| > 1;
      assert parents[chain[|chain| - 1]] == chain[|chain| - 2];
      LineInChain(parents, chain[..|chain| - 1], c[..|c| - 1]);
    }
  }

  /** A structured group's chain is exactly its ancestors and itself. */
  lemma ChainIsAncestors(parents: Parents, chain: seq<nat>, a: nat)
    requires IsChain(parents, chain)
    ensures a in chain <==> AncestorOrSelf(parents, a, chain[|chain| - 1])
  {
    if a in chain {
      var i :| 0 <= i < |chain| && chain[i] == a;
      LinePrefix(parents, chain, i);
      assert chain[i..][0] == a && chain[i..][|chain| - i - 1] == chain[|chain| - 1];
    }
    if AncestorOrSelf(parents, a, chain[|chain| - 1]) {
      var c :| IsLine(parents, c) && c[0] == a && c[|c| - 1] == chain[|chain| - 1];
      LineInChain(parents, chain, c);
    }
  }

  lemma LongLineStructured(parents: Parents, structure: map<nat, string>, c: seq<nat>)
    requires Consistent(parents, structure) && IsLine(parents, c) && |c| > 1
    ensures c[|c| - 1] in structure
  {
    assert parents[c[|c| - 1]] == c[|c| - 2] && c[|c| - 2] in parents;
  }

  /** A group outside the structure has no ancestor but itself. */
  lemma Unstructured(parents: Parents, structure: map<nat, string>, g: nat, a: nat)
    requires Consistent(parents, structure) && g !in structure
    ensures AncestorOrSelf(parents, a, g) <==> a == g && g in parents
  {
    if AncestorOrSelf(parents, a, g) {
      var c :| IsLine(parents, c) && c[0] == a && c[|c| - 1] == g;
      if |c| > 1 { LongLineStructured(parents, structure, c); }
    }
    if a == g && g in parents {
      assert IsLine(parents, [g]);
      assert [g][0] == g;
    }
  }

  /** `IN(path)` over the live groups. */
  lemma AncestorQueryExact(parents: Parents, structure: map<nat, string>, g: nat, a: nat)
    requires Consistent(parents, structure) && g in structure
    ensures a in parents && a in ParseList(structure[g], 0) <==> AncestorOrSelf(parents, a, g)
  {
    var c :| IsChain(parents, c) && c[|c| - 1] == g && structure[g] == PathText(c);
    ParsePath(c);
    ChainIsAncestors(parents, c, a);
    if a in c { assert exists i :: 0 <= i < |c| && c[i] == a; }
  }

  /** The LIKE query over the structured groups. */
  lemma DescendantQueryExact(parents: Parents, structure: map<nat, string>, g: nat, a: nat)
    requires Consistent(parents, structure) && g in structure
    ensures PathMatches(structure[g], a) || g == a <==> AncestorOrSelf(parents, a, g)
  {
    var c :| IsChain(parents, c) && c[|c| - 1] == g && structure[g] == PathText(c);
    PathMatchesExact(c, a);
    ChainIsAncestors(parents, c, a);
    LastOrBefore(c, a);
  }

  lemma LastOrBefore(c: seq<nat>, a: nat)
    requires c != []
    ensures a in c <==> a in c[..|c| - 1] || a == c[|c| - 1]
  {
  }

  lemma PathKept(parents: Parents, more: Parents, g: nat, path: string)
    requires PathOk(parents, g, path)
    requires forall x :: x in parents ==> x in more && more[x] == parents[x]
    ensures PathOk(more, g, path)
  {
  }

  lemma PathKeptByRemoval(parents: Parents, gone: nat, g: nat, path: string)
    requires PathOk(parents, g, path) && g != gone && forall x :: x in parents ==> parents[x] != gone
    ensures PathOk(parents - {gone}, g, path)
  {
    var c :| IsChain(parents, c) && c[|c| - 1] == g && path == PathText(c);
    forall i | 0 <= i < |c| ensures c[i] != gone {
      if i + 1 < |c| { assert parents[c[i + 1]] == c[i]; }
    }
    assert IsChain(parents - {gone}, c);
  }

  lemma RootPath(parents: Parents, id: nat)
    ensures PathOk(parents[id := ROOT], id, Decimal(id))
  {
    assert IsChain(parents[id := ROOT], [id]);
    assert [id][|[id]| - 1] == id;
    assert PathText([id]) == Decimal(id) + "";
  }

  lemma ChildPath(parents: Parents, parent: nat, id: nat, path: string)
    requires PathOk(parents, parent, path) && id !in parents
    ensures PathOk(parents[id := parent], id, path + ", " + Decimal(id))
  {
    var c :| IsChain(parents, c) && c[|c| - 1] == parent && path == PathText(c);
    var d := c + [id];
    PathTextAppend(c, id);
    assert IsChain(parents[id := parent], d);
    assert d[|d| - 1] == id && PathText(d) == path + ", " + Decimal(id);
  }

  /** The path text stored for a new group. */
  function NewPath(structure: map<nat, string>, parent: int, id: nat): string
    requires parent > 0 ==> parent in structure
  {
    if parent == ROOT then Decimal(id)
    else if parent > 0 then structure[parent] + ", " + Decimal(id)
    else ""
  }

  lemma NewPathOk(parents: Parents, structure: map<nat, string>, parent: int, id: nat)
    requires Consistent(parents, structure) && id !in parents && Structured(parent)
    requires parent > 0 ==> parent in structure
    ensures PathOk(parents[id := parent], id, NewPath(structure, parent, id))
  {
    if parent == ROOT {
      RootPath(parents, id);
    } else {
      ChildPath(parents, parent, id, structure[parent]);
    }
  }

  function WithGroup(structure: map<nat, string>, parent: int, id: nat): map<nat, string>
    requires parent > 0 ==> parent in structure
  {
    if Structured(parent) then structure[id := NewPath(structure, parent, id)] else structure
  }

  lemma CreationRows(parents: Parents, structure: map<nat, string>, parent: int, id: nat)
    requires RowsOk(parents, structure) && id > 0 && id !in parents && (parent > 0 ==> parent in structure)
    ensures RowsOk(parents[id := parent], WithGroup(structure, parent, id))
  {
  }

  lemma CreationPaths(parents: Parents, structure: map<nat, string>, parent: int, id: nat)
    requires Consistent(parents, structure) && id !in parents && (parent > 0 ==> parent in structure)
    ensures PathsOk(parents[id := parent], WithGroup(structure, parent, id))
  {
    var added := WithGroup(structure, parent, id);
    forall g | g in added ensures PathOk(parents[id := parent], g, added[g]) {
      if g == id {
        NewPathOk(parents, structure, parent, id);
      } else {
        PathKept(parents, parents[id := parent], g, structure[g]);
      }
    }
  }

  lemma CreationConsistent(parents: Parents, structure: map<nat, string>, parent: int, id: nat)
    requires Consistent(parents, structure) && id > 0 && id !in parents && (parent > 0 ==> parent in structure)
    ensures Consistent(parents[id := parent], WithGroup(structure, parent, id))
  {
    CreationRows(parents, structure, parent, id);
    CreationPaths(parents, structure, parent, id);
  }

  // ------------------------------------------------------------- the manager

  class GroupManager {
    var parents: Parents
    var structure: map<nat, string>

    ghost predicate Valid()
      reads this
    {
      Consistent(parents, structure)
    }

    constructor ()
      ensures Valid() && parents == map[]
    {
      parents, structure := map[], map[];
    }

    /** create_group_common; `newId` is the id the database gives the new row, and
        `inserted` whether its inserts succeed. The result of the commit is not looked at:
        the id is returned also when nothing was `committed`. */
    method Create(parent: int, newId: nat, inserted: bool, committed: bool) returns (id: int)
      requires Valid() && newId > 0 && newId !in parents
      modifies this
      ensures Valid() && (id == -1 || id == newId)
      ensures id == -1 || !committed ==> parents == old(parents) && structure == old(structure)
      ensures id != -1 && committed ==>
        && (parent > 0 ==> parent in old(structure))
        && parents == old(parents)[newId := parent]
        && structure == (if parent == -1 then old(structure)[newId := Decimal(newId)]
                         else if parent > 0 then
                           old(structure)[newId := old(structure)[parent] + ", " + Decimal(newId)]
                         else old(structure))
      ensures id == -1 <==>
        || !inserted || (parent > 0 && parent !in old(structure))
        || |NewPath(old(structure), parent, newId)| > 1024
    {
      if !inserted {
        return -1;
      }
      if parent > 0 && parent !in structure {
        return -1;
      }
      var path := if parent == ROOT then Decimal(newId)
                  else if parent > 0 then structure[parent] + ", " + Decimal(newId)
                  else "";
      if |path| > MAX_PATH {
        return -1;
      }
      if committed {
        CreationConsistent(parents, structure, parent, newId);
        parents := parents[newId := parent];
        if parent == ROOT || parent > 0 {
          structure := structure[newId := path];
        }
      }
      id := newId;
    }

    /** ccnet_group_manager_remove_group, not forced. */
    method Remove(id: nat) returns (ok: bool)
      requires Valid()
      modifies this
      ensures Valid()
      ensures ok <==> forall x :: x in old(parents) ==> old(parents)[x] != id
      ensures ok ==> parents == old(parents) - {id} && structure == old(structure) - {id}
      ensures !ok ==> parents == old(parents) && structure == old(structure)
    {
      if exists x :: x in parents && parents[x] == id {
        return false;
      }
      forall g | g in structure && g != id ensures PathOk(parents - {id}, g, structure[g]) {
        PathKeptByRemoval(parents, id, g, structure[g]);
      }
      parents := parents - {id};
      structure := structure - {id};
      ok := true;
    }

    /** ccnet_group_manager_get_ancestor_groups */
    method Ancestors(id: nat) returns (r: set<nat>)
      requires Valid()
      ensures forall a :: a in r <==> AncestorOrSelf(parents, a, id)
    {
      if id in structure {
        var ids := ParseList(structure[id], 0);
        r := set g | g in parents && g in ids;
        forall a ensures a in r <==> AncestorOrSelf(parents, a, id) {
          AncestorQueryExact(parents, structure, id, a);
        }
      } else {
        r := if id in parents then {id} else {};
        forall a ensures a in r <==> AncestorOrSelf(parents, a, id) {
          Unstructured(parents, structure, id, a);
        }
      }
    }

    /** ccnet_group_manager_get_descendants_groups */
    method Descendants(id: nat) returns (r: set<nat>)
      requires Valid()
      ensures forall g :: g in r <==> g in structure && AncestorOrSelf(parents, id, g)
    {
      r := set g | g in parents && g in structure && (PathMatches(structure[g], id) || g == id);
      forall g | g in structure ensures g in r <==> AncestorOrSelf(parents, id, g) {
        DescendantQueryExact(parents, structure, g, id);
      }
    }
  }
}
