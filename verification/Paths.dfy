/** Library paths, the early lock barrier and its agreement with the edit fence. */
module Paths {
  import opened Options
  import opened Strings
  import opened Like
  import EditFence

  // ------------------------------------------------------------- components

  /** Length of the leading run without a slash. */
  function RunLength(p: string): (n: nat)
    ensures n <= |p| && forall i :: 0 <= i < n ==> p[i] != '/'
    ensures n < |p| ==> p[n] == '/'
  {
    if p == "" || p[0] == '/' then 0 else 1 + RunLength(p[1..])
  }

  /** The non-empty runs between slashes. */
  function Components(p: string): seq<string>
    decreases |p|
  {
    if p == "" then []
    else if p[0] == '/' then Components(p[1..])
    else var n := RunLength(p); [p[..n]] + Components(p[n..])
  }

  function Slashed(cs: seq<string>): string
  {
    if cs == [] then "" else "/" + cs[0] + Slashed(cs[1..])
  }

  /** The normalized path of a component list. */
  function Render(cs: seq<string>): string
  {
    if cs == [] then "/" else Slashed(cs)
  }

  lemma {:induction false} ComponentsLegal(p: string)
    ensures AllComponents(Components(p))
    decreases |p|
  {
    if p != "" {
      if p[0] == '/' {
        ComponentsLegal(p[1..]);
      } else {
        ComponentsLegal(p[RunLength(p)..]);
      }
    }
  }

  lemma {:induction false} RunUnique(p: string, n: nat)
    requires n <= |p| && (forall i :: 0 <= i < n ==> p[i] != '/') && (n < |p| ==> p[n] == '/')
    ensures RunLength(p) == n
  {
  }

  lemma RunJoin(a: string, b: string)
    ensures var n, p := RunLength(a), a + "/" + b;
            RunLength(p) == n && p[..n] == a[..n] && p[n..] == a[n..] + "/" + b
  {
    RunUnique(a + "/" + b, RunLength(a));
  }

  /** Splitting at any slash splits the component list. */
  lemma {:induction false} ComponentsJoin(a: string, b: string)
    ensures Components(a + "/" + b) == Components(a) + Components(b)
    decreases |a|
  {
    if a == "" || a[0] == '/' {
      JoinSlash(a, b);
      if a != "" { ComponentsJoin(a[1..], b); }
    } else {
      JoinFirst(a, b);
      ComponentsJoin(a[RunLength(a)..], b);
    }
  }

  lemma JoinSlash(a: string, b: string)
    requires a == "" || a[0] == '/'
    ensures Components(a + "/" + b) == if a == "" then Components(b) else Components(a[1..] + "/" + b)
  {
    var p := a + "/" + b;
    assert p[1..] == if a == "" then b else a[1..] + "/" + b;
  }

  lemma JoinFirst(a: string, b: string)
    requires a != "" && a[0] != '/'
    ensures var n := RunLength(a); Components(a + "/" + b) == [a[..n]] + Components(a[n..] + "/" + b)
  {
    RunJoin(a, b);
  }

  lemma {:induction false} ComponentOf(c: string)
    requires IsComponent(c)
    ensures Components(c) == [c]
  {
    RunUnique(c, |c|);
    assert c[..|c|] == c && c[|c|..] == "";
  }

  lemma {:induction false} SlashedSnoc(init: seq<string>, last: string)
    ensures Slashed(init + [last]) == Slashed(init) + "/" + last
  {
    SlashedAppend(init, [last]);
    assert [last][1..] == [];
    assert Slashed([last]) == "/" + last;
  }

  lemma {:induction false} SlashedAppend(a: seq<string>, b: seq<string>)
    ensures Slashed(a + b) == Slashed(a) + Slashed(b)
  {
    if a == [] {
      assert a + b == b;
    } else {
      assert (a + b)[1..] == a[1..] + b;
      SlashedAppend(a[1..], b);
    }
  }

  /** Rendering loses nothing. */
  lemma {:induction false} ComponentsOfSlashed(cs: seq<string>)
    requires AllComponents(cs)
    ensures Components(Slashed(cs)) == cs
  {
    if cs != [] {
      var init := cs[..|cs| - 1];
      assert cs == init + [cs[|cs| - 1]];
      SlashedSnoc(init, cs[|cs| - 1]);
      ComponentsOfSlashed(init);
      ComponentsJoin(Slashed(init), cs[|cs| - 1]);
      ComponentOf(cs[|cs| - 1]);
    }
  }

  lemma ComponentsOfRender(cs: seq<string>)
    requires AllComponents(cs)
    ensures Components(Render(cs)) == cs
  {
    if cs != [] {
      ComponentsOfSlashed(cs);
    } else {
      assert "/"[1..] == "";
    }
  }

  function Normal(p: string): string
  {
    Render(Components(p))
  }

  /** Normalizing twice changes nothing, and paths have one normal form per component list. */
  lemma NormalIdempotent(p: string, q: string)
    ensures Normal(Normal(p)) == Normal(p)
    ensures Normal(p) == Normal(q) <==> Components(p) == Components(q)
  {
    ComponentsLegal(p);
    ComponentsLegal(q);
    ComponentsOfRender(Components(p));
    ComponentsOfRender(Components(q));
  }

  // ------------------------------------------------------------- operations

  /** Skip a run of slashes from position `i`. */
  method SkipSlashes(path: string, i: nat) returns (j: nat)
    requires i <= |path|
    ensures i <= j <= |path| && (j < |path| ==> path[j] != '/')
    ensures Components(path[j..]) == Components(path[i..])
  {
    j := i;
    while j < |path| && path[j] == '/'
      invariant i <= j <= |path|
      invariant Components(path[j..]) == Components(path[i..])
    {
      assert path[j..][1..] == path[j + 1..];
      j := j + 1;
    }
  }

  /** Scan one component from position `i`. */
  method ScanComponent(path: string, i: nat) returns (j: nat)
    requires i < |path| && path[i] != '/'
    ensures i < j <= |path|
    ensures Components(path[i..]) == [path[i..j]] + Components(path[j..])
  {
    j := i;
    while j < |path| && path[j] != '/'
      invariant i <= j <= |path| && forall k :: i <= k < j ==> path[k] != '/'
    {
      j := j + 1;
    }
    var p := path[i..];
    RunUnique(p, j - i);
    assert p[..j - i] == path[i..j] && p[j - i..] == path[j..];
  }

  /** The components before `i` are `done`. */
  ghost predicate Cut(p: string, i: nat, done: seq<string>)
    requires i <= |p|
  {
    Components(p) == done + Components(p[i..])
  }

  lemma CutStep(p: string, i: nat, j: nat, done: seq<string>)
    requires i <= j <= |p| && Cut(p, i, done) && Components(p[i..]) == [p[i..j]] + Components(p[j..])
    ensures Cut(p, j, done + [p[i..j]]) && Slashed(done + [p[i..j]]) == Slashed(done) + "/" + p[i..j]
  {
    SlashedSnoc(done, p[i..j]);
  }

  lemma CutEnd(p: string, done: seq<string>)
    requires Cut(p, |p|, done)
    ensures done == Components(p)
  {
    assert p[|p|..] == "";
  }

  /** cf_path_normalize */
  method Normalize(path: Option<string>) returns (r: string)
    ensures r == Normal(if path.Some? then path.value else "")
  {
    if path.None? || path.value == "" {
      return "/";
    }
    var p := path.value;
    var buf := "";
    var i := 0;
    ghost var done: seq<string> := [];
    while i < |p|
      invariant i <= |p| && buf == Slashed(done) && Cut(p, i, done)
    {
      i := SkipSlashes(p, i);
      if i == |p| {
        break;
      }
      var start := i;
      i := ScanComponent(p, start);
      CutStep(p, start, i, done);
      done := done + [p[start..i]];
      buf := buf + "/" + p[start..i];
    }
    CutEnd(p, done);
    r := if buf == "" then "/" else buf;
  }

  /** cf_path_join: the components of one after the components of the other. */
  method Join(dir: Option<string>, entry: Option<string>) returns (r: string)
    ensures r == Render(Components(if dir.Some? then dir.value else "") +
                        Components(if entry.Some? then entry.value else ""))
  {
    if entry.None? || entry.value == "" {
      r := Normalize(dir);
      assert forall cs: seq<string> :: cs + Components("") == cs;
      return;
    }
    var joined := (if dir.Some? then dir.value else "") + "/" + entry.value;
    ComponentsJoin(if dir.Some? then dir.value else "", entry.value);
    r := Normalize(Some(joined));
  }

  /** cf_path_has_component */
  method HasComponent(path: Option<string>, component: Option<string>) returns (found: bool)
    ensures found <==> path.Some? && component.Some? && component.value in Components(path.value)
  {
    if path.None? || component.None? {
      return false;
    }
    var p := path.value;
    if component.value == "" {
      ComponentsLegal(p);
      assert "" !in Components(p);
      return false;
    }
    var i := 0;
    while i < |p|
      invariant i <= |p|
      invariant component.value in Components(p) <==> component.value in Components(p[i..])
    {
      i := SkipSlashes(p, i);
      if i == |p| {
        break;
      }
      var start := i;
      i := ScanComponent(p, start);
      if p[start..i] == component.value {
        return true;
      }
    }
    assert p[i..] == "";
    found := false;
  }

  // -------------------------------------------------------- barrier and fence

  function DescendantPattern(path: string): string
  {
    if path == "/" then "/%" else Escape(path) + "/%"
  }

  /** like_descendant_pattern */
  method LikeDescendantPattern(path: string) returns (pattern: string)
    ensures pattern == DescendantPattern(path)
  {
    if path == "/" {
      return "/%";
    }
    pattern := "";
    for i := 0 to |path|
      invariant pattern == Escape(path[..i])
    {
      EscapeAppend(path[..i], path[i]);
      assert path[..i + 1] == path[..i] + [path[i]];
      if path[i] == '\\' || path[i] == '%' || path[i] == '_' {
        pattern := pattern + "\\";
      }
      pattern := pattern + [path[i]];
    }
    assert path[..|path|] == path;
    pattern := pattern + "/%";
  }

  /** The pattern matches exactly the paths below `path`, whatever characters it has. */
  lemma PatternExact(path: string, text: string)
    ensures Matches(text, DescendantPattern(path)) <==> StartsWith(text, if path == "/" then "/" else path + "/")
  {
    if path == "/" {
      assert Escape("/") == "/" by { EscapePlain("/"); }
      EscapedPrefix(text, "/");
      assert "/" + "%" == "/%";
    } else {
      EscapeAppend(path, '/');
      EscapedPrefix(text, path + "/");
      assert Escape(path + "/") + "%" == Escape(path) + "/%";
    }
  }

  /** A guard row on `guarded` stops an operation on `path` at the barrier. */
  predicate BarrierHits(path: string, guarded: string)
  {
    guarded == path || Matches(guarded, DescendantPattern(path))
  }

  /** Text prefix up to a slash is prefix of component lists. */
  lemma PrefixOfComponents(a: seq<string>, b: seq<string>)
    requires AllComponents(a) && AllComponents(b) && a != []
    ensures Render(b) == Render(a) || StartsWith(Render(b), Render(a) + "/") <==> a <= b
  {
    ComponentsOfRender(a);
    ComponentsOfRender(b);
    if StartsWith(Render(b), Render(a) + "/") {
      ComponentsOfPrefix(Render(a), Render(b));
    }
    if a <= b && a != b {
      RenderOfPrefix(a, b);
    }
  }

  lemma ComponentsOfPrefix(p: string, q: string)
    requires StartsWith(q, p + "/")
    ensures Components(p) <= Components(q)
  {
    assert q == p + "/" + q[|p| + 1..];
    ComponentsJoin(p, q[|p| + 1..]);
  }

  lemma RenderOfPrefix(a: seq<string>, b: seq<string>)
    requires a != [] && a < b
    ensures StartsWith(Render(b), Render(a) + "/")
  {
    var rest := b[|a|..];
    assert b == a + rest && rest != [];
    SlashedAppend(a, rest);
    assert Slashed(rest)[0] == '/';
    assert Render(b)[..|Render(a)| + 1] == Render(a) + [Slashed(rest)[0]];
  }

  lemma RenderStarts(cs: seq<string>)
    ensures Render(cs) != "" && Render(cs)[0] == '/'
  {
  }

  lemma {:induction false} RenderNotRoot(cs: seq<string>)
    requires AllComponents(cs) && cs != []
    ensures |Render(cs)| > 1 && Render(cs)[1] != '/'
  {
  }

  /** The barrier stops an operation exactly when its path is the guarded path or an ancestor. */
  lemma BarrierExact(a: seq<string>, b: seq<string>)
    requires AllComponents(a) && AllComponents(b)
    ensures BarrierHits(Render(a), Render(b)) <==> a <= b
  {
    PatternExact(Render(a), Render(b));
    RenderStarts(b);
    if a != [] {
      RenderNotRoot(a);
      PrefixOfComponents(a, b);
    } else {
      assert Render(b)[..1] == "/";
    }
  }

  lemma TouchesPrefix(path: string, guarded: string)
    requires path != "" && path[0] == '/'
    ensures EditFence.Touches(Some(path), guarded) <==> path == guarded || StartsWith(guarded, path + "/")
  {
  }

  /** The fence has the same relation except at the root, where it stops only a guard on the root. */
  lemma FenceExact(a: seq<string>, b: seq<string>)
    requires AllComponents(a) && AllComponents(b)
    ensures EditFence.Touches(Some(Render(a)), Render(b)) <==> a <= b && (a == [] ==> b == [])
  {
    RenderStarts(a);
    TouchesPrefix(Render(a), Render(b));
    if a != [] {
      PrefixOfComponents(a, b);
    } else if b != [] {
      RenderNotRoot(b);
      assert StartsWith(Render(b), "//") ==> Render(b)[..2][1] == '/';
    }
  }

  /** Barrier and fence agree on every pair of normalized paths but the root against a path below it. */
  lemma BarrierIsFence(path: string, guarded: string)
    ensures BarrierHits(Normal(path), Normal(guarded)) == EditFence.Touches(Some(Normal(path)), Normal(guarded))
      <==> Normal(path) != "/" || Normal(guarded) == "/"
  {
    var a, b := Components(path), Components(guarded);
    ComponentsLegal(path);
    ComponentsLegal(guarded);
    BarrierExact(a, b);
    FenceExact(a, b);
    if a != [] { RenderNotRoot(a); }
    if b != [] { RenderNotRoot(b); }
  }

  datatype Verdict = Allowed | Unavailable | Locked

  /** check_path; a query that failed is None, `guards` are the paths with an active guard. */
  method CheckPath(policy: EditFence.Policy, database: bool, exactOk: bool, descendantOk: bool,
                   guards: set<string>, path: string) returns (verdict: Verdict)
    ensures policy.Off? ==> verdict == Allowed
    ensures policy.Invalid? || (policy.Optional? && (!database || !exactOk)) ==> verdict == Unavailable
    ensures policy.Optional? && database && exactOk && descendantOk ==>
      && (verdict == Locked <==> exists g :: g in guards && BarrierHits(path, g))
      && (verdict == Allowed <==> forall g :: g in guards ==> !BarrierHits(path, g))
    ensures policy.Optional? && database && exactOk && !descendantOk ==>
      verdict == if path in guards then Locked else Unavailable
  {
    if policy.Off? {
      return Allowed;
    }
    if policy.Invalid? || !database || !exactOk {
      return Unavailable;
    }
    if path in guards {
      assert BarrierHits(path, path);
      return Locked;
    }
    if !descendantOk {
      return Unavailable;
    }
    var pattern := LikeDescendantPattern(path);
    verdict := if exists g :: g in guards && Matches(g, pattern) then Locked else Allowed;
  }
}
