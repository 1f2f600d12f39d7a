/** SQL LIKE matching, shared by the group and the lock queries. */
module Like {
  import opened Strings

  /** `text LIKE pattern ESCAPE '\'` with a bytewise collation. */
  predicate Matches(text: string, pattern: string)
    decreases |pattern|
  {
    if pattern == "" then text == ""
    else if pattern[0] == '%' then exists k :: 0 <= k <= |text| && Matches(text[k..], pattern[1..])
    else if text == "" then false
    else if pattern[0] == '_' then Matches(text[1..], pattern[1..])
    else if pattern[0] == '\\' && |pattern| > 1 then text[0] == pattern[1] && Matches(text[1..], pattern[2..])
    else text[0] == pattern[0] && Matches(text[1..], pattern[1..])
  }

  predicate Special(c: char)
  {
    c == '\\' || c == '%' || c == '_'
  }

  function EscapeChar(c: char): string
  {
    if Special(c) then ['\\', c] else [c]
  }

  function Escape(s: string): string
  {
    if s == "" then "" else EscapeChar(s[0]) + Escape(s[1..])
  }

  lemma {:induction false} EscapeAppend(s: string, c: char)
    ensures Escape(s + [c]) == Escape(s) + EscapeChar(c)
  {
    if s != "" {
      assert (s + [c])[1..] == s[1..] + [c];
      EscapeAppend(s[1..], c);
    } else {
      assert s + [c] == [c];
    }
  }

  lemma {:induction false} EscapePlain(s: string)
    requires forall i :: 0 <= i < |s| ==> !Special(s[i])
    ensures Escape(s) == s
  {
    if s != "" {
      EscapePlain(s[1..]);
      assert s == [s[0]] + s[1..];
    }
  }

  lemma EscapedChar(text: string, c: char, tail: string)
    ensures Matches(text, EscapeChar(c) + tail) <==> text != "" && text[0] == c && Matches(text[1..], tail)
  {
  }

  /** Escaped text matches itself, whatever characters it has. */
  lemma {:induction false} EscapedLiteral(text: string, s: string, rest: string)
    ensures Matches(text, Escape(s) + rest) <==> StartsWith(text, s) && Matches(text[|s|..], rest)
  {
    if s == "" {
      assert Escape(s) + rest == rest;
      assert text[|s|..] == text;
    } else {
      var tail := Escape(s[1..]) + rest;
      assert Escape(s) + rest == EscapeChar(s[0]) + tail;
      EscapedChar(text, s[0], tail);
      if text != "" && text[0] == s[0] {
        EscapedLiteral(text[1..], s[1..], rest);
        if |s| <= |text| { assert text[1..][|s| - 1..] == text[|s|..]; }
        PrefixStep(text, s);
      }
    }
  }

  lemma PrefixStep(text: string, s: string)
    requires text != "" && s != "" && text[0] == s[0]
    ensures StartsWith(text, s) <==> StartsWith(text[1..], s[1..])
  {
  }

  lemma MatchesAnything(text: string)
    ensures Matches(text, "%")
  {
    assert "%"[1..] == "";
    assert text[|text|..] == "";
    assert Matches(text[|text|..], "%"[1..]);
  }

  /** Escaped text followed by `%` matches exactly the texts that start with it. */
  lemma EscapedPrefix(text: string, s: string)
    ensures Matches(text, Escape(s) + "%") <==> StartsWith(text, s)
  {
    EscapedLiteral(text, s, "%");
    if StartsWith(text, s) { MatchesAnything(text[|s|..]); }
  }

  /** `%` before and after plain text matches exactly the texts that contain it. */
  lemma Contains(text: string, s: string)
    requires forall i :: 0 <= i < |s| ==> !Special(s[i])
    ensures Matches(text, "%" + s + "%") <==> exists k :: 0 <= k <= |text| && StartsWith(text[k..], s)
  {
    EscapePlain(s);
    var pattern := "%" + s + "%";
    assert pattern[1..] == Escape(s) + "%";
    forall k | 0 <= k <= |text| ensures Matches(text[k..], pattern[1..]) <==> StartsWith(text[k..], s) {
      EscapedPrefix(text[k..], s);
    }
  }
}
