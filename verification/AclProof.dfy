/** The proof a publication takes of the ACL rows in force: one digest over the
    repository id, its rows, and for a virtual library its origin and that one's rows. */
module AclProof {
  import opened Options

  /** The columns of a rule that the proof covers; the path hash is in hex. */
  datatype AclRow = AclRow(pathHash: string, subjectType: string, provider: string, namespace: string,
                           externalId: string, revision: string)

  const NUL: char := '\0'
  const MAX_ROWS := 4096
  const ID_LENGTH := 36
  const HASH_LENGTH := 64

  function Columns(row: AclRow): seq<string>
  {
    [row.pathHash, row.subjectType, row.provider, row.namespace, row.externalId, row.revision]
  }

  /** What is read of one repository and of its origin. */
  datatype Scope = Scope(repo: string, rows: seq<AclRow>, origin: Option<string>, originRows: seq<AclRow>)

  predicate Protected(s: Scope)
  {
    s.rows != [] || (s.origin.Some? && s.originRows != [])
  }

  // --------------------------------------------------------------- encoding

  function RowTokens(rows: seq<AclRow>): seq<string>
  {
    if rows == [] then [] else Columns(rows[0]) + RowTokens(rows[1..])
  }

  function Tokens(s: Scope): seq<string>
  {
    [s.repo] + RowTokens(s.rows) + OriginTokens(s)
  }

  /** Every token is followed by a NUL. */
  function Terminated(ts: seq<string>): string
  {
    if ts == [] then "" else ts[0] + [NUL] + Terminated(ts[1..])
  }

  /** The bytes the digest runs over. */
  function Encode(s: Scope): string
  {
    Terminated(Tokens(s))
  }

  // -------------------------------------------------------------- injective

  ghost predicate NulFree(ts: seq<string>)
  {
    forall i :: 0 <= i < |ts| ==> NUL !in ts[i]
  }

  lemma FirstNul(a: string, b: string, x: string, y: string)
    requires NUL !in a && NUL !in b && a + [NUL] + x == b + [NUL] + y
    ensures a == b && x == y
  {
    var s := a + [NUL] + x;
    var t := b + [NUL] + y;
    assert s[|a|] == NUL && t[|b|] == NUL;
    assert forall i :: 0 <= i < |a| ==> s[i] == a[i] && a[i] in a;
    assert forall i :: 0 <= i < |b| ==> t[i] == b[i] && b[i] in b;
    assert |a| == |b|;
    assert a == s[..|a|] == b && x == s[|a| + 1..] == y;
  }

  lemma {:induction false} TerminatedInjective(ts: seq<string>, us: seq<string>)
    requires NulFree(ts) && NulFree(us) && Terminated(ts) == Terminated(us)
    ensures ts == us
  {
    if ts != [] && us != [] {
      FirstNul(ts[0], us[0], Terminated(ts[1..]), Terminated(us[1..]));
      TerminatedInjective(ts[1..], us[1..]);
      assert ts == [ts[0]] + ts[1..] && us == [us[0]] + us[1..];
    }
  }

  /** Rows as the database returns them: no NUL in a column, a 32-byte hash in hex. */
  ghost predicate WfRows(rows: seq<AclRow>)
  {
    forall i :: 0 <= i < |rows| ==> NulFree(Columns(rows[i])) && |rows[i].pathHash| == HASH_LENGTH
  }

  ghost predicate WfScope(s: Scope)
  {
    && NUL !in s.repo && WfRows(s.rows) && WfRows(s.originRows)
    && (s.origin.Some? ==> |s.origin.value| == ID_LENGTH && NUL !in s.origin.value)
    && (s.origin.None? ==> s.originRows == [])
  }

  lemma {:induction false} RowTokensNulFree(rows: seq<AclRow>)
    requires WfRows(rows)
    ensures NulFree(RowTokens(rows))
  {
    if rows != [] { RowTokensNulFree(rows[1..]); }
  }

  /** What may follow the rows of the repository: nothing, or an origin id. */
  ghost predicate Tail(ts: seq<string>)
  {
    ts != [] ==> |ts[0]| == ID_LENGTH
  }

  lemma ColumnsInjective(r: AclRow, s: AclRow)
    requires Columns(r) == Columns(s)
    ensures r == s
  {
  }

  lemma FirstRow(rows: seq<AclRow>, ts: seq<string>)
    requires rows != []
    ensures var a := RowTokens(rows) + ts;
            |a| >= 6 && a[..6] == Columns(rows[0]) && a[6..] == RowTokens(rows[1..]) + ts && a[0] == rows[0].pathHash
  {
    var c := Columns(rows[0]);
    assert RowTokens(rows) + ts == c + (RowTokens(rows[1..]) + ts);
  }

  lemma {:induction false} RowsCut(rows: seq<AclRow>, rows': seq<AclRow>, ts: seq<string>, us: seq<string>)
    requires WfRows(rows) && WfRows(rows') && Tail(ts) && Tail(us)
    requires RowTokens(rows) + ts == RowTokens(rows') + us
    ensures rows == rows' && ts == us
  {
    if rows != [] { FirstRow(rows, ts); } else { assert RowTokens(rows) + ts == ts; }
    if rows' != [] { FirstRow(rows', us); } else { assert RowTokens(rows') + us == us; }
    if rows != [] && rows' != [] {
      ColumnsInjective(rows[0], rows'[0]);
      RowsCut(rows[1..], rows'[1..], ts, us);
      assert rows == [rows[0]] + rows[1..] && rows' == [rows'[0]] + rows'[1..];
    }
  }

  function OriginTokens(s: Scope): seq<string>
  {
    if s.origin.Some? then [s.origin.value] + RowTokens(s.originRows) else []
  }

  lemma {:induction false} TokensNulFree(s: Scope)
    requires WfScope(s)
    ensures NulFree(Tokens(s))
  {
    RowTokensNulFree(s.rows);
    RowTokensNulFree(s.originRows);
  }

  lemma OriginInjective(s: Scope, t: Scope)
    requires WfScope(s) && WfScope(t) && OriginTokens(s) == OriginTokens(t)
    ensures s.origin == t.origin && s.originRows == t.originRows
  {
    if s.origin.Some? {
      var a, b := OriginTokens(s), OriginTokens(t);
      assert a[0] == s.origin.value && b[0] == t.origin.value;
      assert RowTokens(s.originRows) + [] == a[1..] == b[1..] == RowTokens(t.originRows) + [];
      RowsCut(s.originRows, t.originRows, [], []);
    }
  }

  /** Scopes with the same bytes are the same: repository, rows, origin and its rows. */
  lemma EncodeInjective(s: Scope, t: Scope)
    requires WfScope(s) && WfScope(t) && Encode(s) == Encode(t)
    ensures s == t
  {
    TokensNulFree(s);
    TokensNulFree(t);
    TerminatedInjective(Tokens(s), Tokens(t));
    TokensInjective(s, t);
  }

  lemma TokensCut(s: Scope)
    requires WfScope(s)
    ensures Tokens(s)[0] == s.repo && Tokens(s)[1..] == RowTokens(s.rows) + OriginTokens(s) && Tail(OriginTokens(s))
  {
  }

  lemma TokensInjective(s: Scope, t: Scope)
    requires WfScope(s) && WfScope(t) && Tokens(s) == Tokens(t)
    ensures s == t
  {
    TokensCut(s);
    TokensCut(t);
    RowsCut(s.rows, t.rows, OriginTokens(s), OriginTokens(t));
    OriginInjective(s, t);
  }

  // ------------------------------------------------------- computing the proof

  /** A row as the database returns it: six columns, any of which may be NULL. */
  datatype DbRow = DbRow(columns: seq<Option<string>>)

  predicate Complete(row: DbRow)
  {
    |row.columns| == 6 && forall i :: 0 <= i < 6 ==> row.columns[i].Some?
  }

  function Parse(row: DbRow): AclRow
    requires Complete(row)
  {
    var c := row.columns;
    AclRow(c[0].value, c[1].value, c[2].value, c[3].value, c[4].value, c[5].value)
  }

  function ParseAll(rows: seq<DbRow>): (rs: seq<AclRow>)
    requires forall i :: 0 <= i < |rows| ==> Complete(rows[i])
    ensures |rs| == |rows|
  {
    if rows == [] then [] else [Parse(rows[0])] + ParseAll(rows[1..])
  }

  ghost predicate AllComplete(rows: seq<DbRow>)
  {
    forall i :: 0 <= i < |rows| ==> Complete(rows[i])
  }

  lemma {:induction false} TerminatedAppend(ts: seq<string>, us: seq<string>)
    ensures Terminated(ts + us) == Terminated(ts) + Terminated(us)
  {
    if ts == [] {
      assert ts + us == us;
    } else {
      TerminatedAppend(ts[1..], us);
      assert (ts + us)[1..] == ts[1..] + us;
    }
  }

  lemma {:induction false} RowTokensSnoc(rows: seq<AclRow>, row: AclRow)
    ensures RowTokens(rows + [row]) == RowTokens(rows) + Columns(row)
  {
    if rows == [] {
      assert rows + [row] == [row] && [row][1..] == [];
    } else {
      RowTokensSnoc(rows[1..], row);
      assert (rows + [row])[1..] == rows[1..] + [row];
    }
  }

  lemma {:induction false} ParseSnoc(rows: seq<DbRow>, row: DbRow)
    requires AllComplete(rows) && Complete(row)
    ensures AllComplete(rows + [row]) && ParseAll(rows + [row]) == ParseAll(rows) + [Parse(row)]
  {
    if rows == [] {
      assert rows + [row] == [row] && [row][1..] == [];
    } else {
      ParseSnoc(rows[1..], row);
      assert (rows + [row])[1..] == rows[1..] + [row];
    }
  }

  lemma RowFed(rows: seq<DbRow>, n: nat)
    requires n < |rows| && AllComplete(rows[..n]) && Complete(rows[n])
    ensures AllComplete(rows[..n + 1])
    ensures Terminated(RowTokens(ParseAll(rows[..n + 1]))) ==
            Terminated(RowTokens(ParseAll(rows[..n]))) + Terminated(Columns(Parse(rows[n])))
  {
    var before := rows[..n];
    assert rows[..n + 1] == before + [rows[n]];
    ParseSnoc(before, rows[n]);
    RowTokensSnoc(ParseAll(before), Parse(rows[n]));
    TerminatedAppend(RowTokens(ParseAll(before)), Columns(Parse(rows[n])));
  }

  /** proof_row: feed the six columns, each with its separator; stop at a NULL. */
  method ProofRow(row: DbRow, digestIn: string) returns (valid: bool, digest: string)
    requires |row.columns| == 6
    ensures valid <==> Complete(row)
    ensures valid ==> digest == digestIn + Terminated(Columns(Parse(row)))
  {
    digest := digestIn;
    ghost var fed: seq<string> := [];
    for i := 0 to 6
      invariant |fed| == i && forall j :: 0 <= j < i ==> row.columns[j] == Some(fed[j])
      invariant digest == digestIn + Terminated(fed)
    {
      var value := row.columns[i];
      if value.None? {
        return false, digest;
      }
      digest := digest + value.value;
      digest := digest + [NUL];
      TerminatedAppend(fed, [value.value]);
      assert Terminated([value.value]) == value.value + [NUL];
      fed := fed + [value.value];
    }
    assert fed == Columns(Parse(row));
    valid := true;
  }

  /** proof_repo: the repository id, then every row, at most MAX_ROWS of them. */
  method ProofRepo(repo: string, rows: Option<seq<DbRow>>, digestIn: string)
    returns (ok: bool, digest: string, hasRules: bool)
    requires rows.Some? ==> forall i :: 0 <= i < |rows.value| ==> |rows.value[i].columns| == 6
    ensures ok <==> rows.Some? && |rows.value| <= 4096 && AllComplete(rows.value)
    ensures ok ==> digest == digestIn + Terminated([repo] + RowTokens(ParseAll(rows.value)))
    ensures ok ==> hasRules == (rows.value != [])
  {
    digest := digestIn + repo;
    digest := digest + [NUL];
    hasRules := false;
    if rows.None? {
      return false, digest, false;
    }
    ghost var start := digest;
    assert Terminated([repo]) == repo + [NUL];
    var count := 0;
    while count < |rows.value| && count < MAX_ROWS + 1
      invariant count <= |rows.value| && AllComplete(rows.value[..count])
      invariant digest == start + Terminated(RowTokens(ParseAll(rows.value[..count])))
    {
      var valid;
      var fed := digest;
      valid, digest := ProofRow(rows.value[count], fed);
      if !valid {
        return false, digest, false;
      }
      RowFed(rows.value, count);
      count := count + 1;
    }
    if count > MAX_ROWS {
      return false, digest, false;
    }
    assert rows.value[..count] == rows.value;
    TerminatedAppend([repo], RowTokens(ParseAll(rows.value)));
    ok, hasRules := true, count != 0;
  }

  lemma EncodeOwn(repo: string, rows: seq<AclRow>)
    ensures Encode(Scope(repo, rows, None, [])) == Terminated([repo] + RowTokens(rows))
  {
    var own := [repo] + RowTokens(rows);
    assert own + [] == own;
  }

  lemma EncodeBoth(repo: string, rows: seq<AclRow>, origin: string, originRows: seq<AclRow>)
    ensures Encode(Scope(repo, rows, Some(origin), originRows)) ==
            Terminated([repo] + RowTokens(rows)) + Terminated([origin] + RowTokens(originRows))
  {
    TerminatedAppend([repo] + RowTokens(rows), [origin] + RowTokens(originRows));
  }

  /** cf_v2_acl_proof: the digest input and whether any rule is in force. `origins`
      is the answer of the VirtualRepo lookup, None when it failed. */
  method Proof(repo: string, rows: Option<seq<DbRow>>, origins: Option<seq<string>>, originRows: Option<seq<DbRow>>)
    returns (ok: bool, bytes: string, isProtected: bool)
    requires rows.Some? ==> forall i :: 0 <= i < |rows.value| ==> |rows.value[i].columns| == 6
    requires originRows.Some? ==> forall i :: 0 <= i < |originRows.value| ==> |originRows.value[i].columns| == 6
    ensures ok <==>
      && |repo| == ID_LENGTH
      && rows.Some? && |rows.value| <= 4096 && AllComplete(rows.value)
      && origins.Some? && |origins.value| <= 1
      && (origins.value != [] ==>
            && |origins.value[0]| == ID_LENGTH && origins.value[0] != repo
            && originRows.Some? && |originRows.value| <= 4096 && AllComplete(originRows.value))
    ensures ok ==>
      var scope := if origins.value == [] then Scope(repo, ParseAll(rows.value), None, [])
                   else Scope(repo, ParseAll(rows.value), Some(origins.value[0]), ParseAll(originRows.value));
      bytes == Encode(scope) && isProtected == Protected(scope)
    ensures ok ==> (isProtected <==> rows.value != [] || (origins.value != [] && originRows.value != []))
  {
    bytes, isProtected := "", false;
    if |repo| != ID_LENGTH {
      return false, bytes, false;
    }
    var hasRules;
    ok, bytes, hasRules := ProofRepo(repo, rows, bytes);
    if !ok { return; }
    isProtected := hasRules;
    if origins.None? || |origins.value| > 1 {
      return false, bytes, false;
    }
    if |origins.value| == 1 {
      var origin := origins.value[0];
      if |origin| != ID_LENGTH || origin == repo {
        return false, bytes, false;
      }
      var first := bytes;
      ok, bytes, hasRules := ProofRepo(origin, originRows, first);
      if !ok { return; }
      EncodeBoth(repo, ParseAll(rows.value), origin, ParseAll(originRows.value));
      isProtected := isProtected || hasRules;
    } else {
      EncodeOwn(repo, ParseAll(rows.value));
    }
  }
}
