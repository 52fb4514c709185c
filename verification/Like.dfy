/**
 Match targets (pkg/sqlcache/informer/listoption_indexer.go, `formatMatchTargetWithFormatter`)
 and what SQLite's `LIKE ... ESCAPE '\'` makes of them.
 */
module Like {

  /** LIKE ignores the case of ASCII letters only. */
  function Fold(c: char): char {
    if 'A' <= c <= 'Z' then ((c as int) + 32) as char else c
  }

  /** SQLite's LIKE with the backslash as the escape character. */
  predicate LikeMatch(p: string, s: string)
    decreases |p| + |s|
  {
    if p == "" then s == ""
    else if p[0] == '%' then LikeMatch(p[1..], s) || (s != "" && LikeMatch(p, s[1..]))
    else if s == "" then false
    else if p[0] == '_' then LikeMatch(p[1..], s[1..])
    else if p[0] == '\\' then |p| > 1 && Fold(p[1]) == Fold(s[0]) && LikeMatch(p[2..], s[1..])
    else Fold(p[0]) == Fold(s[0]) && LikeMatch(p[1..], s[1..])
  }

  /** strings.ReplaceAll for a one-character pattern. */
  function ReplaceAll(s: string, old_: char, new_: string): string {
    if s == "" then "" else (if s[0] == old_ then new_ else [s[0]]) + ReplaceAll(s[1..], old_, new_)
  }

  /** The three successive replacements; the backslash goes first. */
  function Escape(t: string): string {
    ReplaceAll(ReplaceAll(ReplaceAll(t, '\\', "\\\\"), '_', "\\_"), '%', "\\%")
  }

  function FormatMatchTarget(t: string, partial: bool): string {
    if partial then "%" + Escape(t) + "%" else Escape(t)
  }

  predicate Special(c: char) { c in {'\\', '_', '%'} }

  /** A target without characters that the formatting changes. */
  predicate Plain(t: string) {
    forall i :: 0 <= i < |t| ==> !Special(t[i])
  }

  predicate FoldEqual(a: string, b: string) {
    |a| == |b| && forall i :: 0 <= i < |a| ==> Fold(a[i]) == Fold(b[i])
  }

  /** Two characters are the same up to case: equal, or a capital ASCII letter and its small form. */
  lemma FoldIff(c: char, d: char)
    ensures Fold(c) == Fold(d) <==>
            || c == d
            || ('A' <= c <= 'Z' && d as int == c as int + 32)
            || ('A' <= d <= 'Z' && c as int == d as int + 32)
  {
  }

  /** `t` stands in `s` at position `k`, up to the case of ASCII letters. */
  predicate StandsAt(t: string, s: string, k: nat) {
    k + |t| <= |s| && FoldEqual(t, s[k..k + |t|])
  }

  ghost predicate Occurs(t: string, s: string) {
    exists k: nat :: StandsAt(t, s, k)
  }

  lemma {:induction false} ReplaceAppend(a: string, b: string, old_: char, new_: string)
    ensures ReplaceAll(a + b, old_, new_) == ReplaceAll(a, old_, new_) + ReplaceAll(b, old_, new_)
  {
    if a == "" {
      assert a + b == b;
    } else {
      var head := if a[0] == old_ then new_ else [a[0]];
      ReplaceAppend(a[1..], b, old_, new_);
      assert (a + b)[1..] == a[1..] + b && (a + b)[0] == a[0];
      assert ReplaceAll(a + b, old_, new_) == head + (ReplaceAll(a[1..], old_, new_) + ReplaceAll(b, old_, new_));
    }
  }

  lemma ReplaceOne(c: char, old_: char, new_: string)
    ensures ReplaceAll([c], old_, new_) == if c == old_ then new_ else [c]
  {
    assert [c][1..] == "";
  }

  lemma ReplaceTwo(c: char, d: char, old_: char, new_: string)
    ensures ReplaceAll([c, d], old_, new_) ==
            (if c == old_ then new_ else [c]) + (if d == old_ then new_ else [d])
  {
    assert [c, d] == [c] + [d];
    ReplaceAppend([c], [d], old_, new_);
    ReplaceOne(c, old_, new_);
    ReplaceOne(d, old_, new_);
  }

  /** The characters that stand for `c` in an escaped target. */
  function EscapeChar(c: char): string {
    if Special(c) then ['\\', c] else [c]
  }

  /** The replacements never touch each other's output: each character is escaped on its own. */
  lemma EscapeCons(t: string)
    requires t != ""
    ensures Escape(t) == EscapeChar(t[0]) + Escape(t[1..])
  {
    var c := t[0];
    var r1 := ReplaceAll(t[1..], '\\', "\\\\");
    var r2 := ReplaceAll(r1, '_', "\\_");
    var h1 := if c == '\\' then "\\\\" else [c];
    var h2 := if c == '_' then "\\_" else h1;
    assert ReplaceAll(t, '\\', "\\\\") == h1 + r1;
    ReplaceAppend(h1, r1, '_', "\\_");
    assert ReplaceAll(h1, '_', "\\_") == h2 by {
      ReplaceOne(c, '_', "\\_");
      ReplaceTwo('\\', '\\', '_', "\\_");
    }
    ReplaceAppend(h2, r2, '%', "\\%");
    assert ReplaceAll(h2, '%', "\\%") == EscapeChar(c) by {
      ReplaceOne(c, '%', "\\%");
      ReplaceTwo('\\', '\\', '%', "\\%");
      ReplaceTwo('\\', '_', '%', "\\%");
    }
  }

  /** The text with each special character escaped on its own. */
  function Escaped(t: string): string { if t == "" then "" else EscapeChar(t[0]) + Escaped(t[1..]) }

  lemma {:induction false} EscapeIsEscaped(t: string)
    ensures Escape(t) == Escaped(t)
  {
    if t != "" {
      EscapeCons(t);
      EscapeIsEscaped(t[1..]);
    }
  }

  lemma EscapedCharMatches(c: char, rest: string, s: string)
    ensures LikeMatch(EscapeChar(c) + rest, s) <==> s != "" && Fold(c) == Fold(s[0]) && LikeMatch(rest, s[1..])
  {
    var p := EscapeChar(c) + rest;
    if Special(c) {
      assert p[2..] == rest;
    } else {
      assert p[1..] == rest;
    }
  }

  /** An escaped target matches itself, up to case, and nothing else. */
  lemma {:induction false} EscapeMatchesLiterally(t: string, q: string, s: string)
    ensures LikeMatch(Escape(t) + q, s) <==> StandsAt(t, s, 0) && LikeMatch(q, s[|t|..])
  {
    hide LikeMatch, Escape, FoldEqual, EscapeChar;
    if t == "" {
      EmptyTarget(q, s);
    } else {
      EscapeCons(t);
      var rest := Escape(t[1..]) + q;
      assert Escape(t) + q == EscapeChar(t[0]) + rest;
      EscapedCharMatches(t[0], rest, s);
      if s != "" {
        EscapeMatchesLiterally(t[1..], q, s[1..]);
        if |t| <= |s| {
          assert s[1..][|t| - 1..] == s[|t|..];
          FoldEqualCons(t, s[0..|t|]);
          assert s[0..|t|][1..] == s[1..][0..|t| - 1];
        }
      }
    }
  }

  lemma EmptyTarget(q: string, s: string)
    ensures Escape("") + q == q && s[0..] == s && StandsAt("", s, 0)
  {
  }

  lemma FoldEqualCons(a: string, b: string)
    requires |a| == |b| > 0
    ensures FoldEqual(a, b) <==> Fold(a[0]) == Fold(b[0]) && FoldEqual(a[1..], b[1..])
  {
    if Fold(a[0]) == Fold(b[0]) && FoldEqual(a[1..], b[1..]) {
      forall i | 0 <= i < |a| ensures Fold(a[i]) == Fold(b[i]) {
        if i > 0 {
          assert a[i] == a[1..][i - 1] && b[i] == b[1..][i - 1];
        }
      }
    }
  }

  lemma {:induction false} PercentMatchesAll(s: string)
    ensures LikeMatch("%", s)
  {
    if s != "" {
      PercentMatchesAll(s[1..]);
    }
  }

  lemma {:induction false} PercentSkips(p: string, s: string)
    ensures LikeMatch("%" + p, s) <==> exists k :: 0 <= k <= |s| && LikeMatch(p, s[k..])
  {
    assert ("%" + p)[1..] == p;
    assert s[0..] == s;
    if s != "" {
      PercentSkips(p, s[1..]);
      assert forall k :: 0 <= k <= |s| - 1 ==> s[1..][k..] == s[k + 1..];
      if k :| 0 <= k <= |s| && LikeMatch(p, s[k..]) {
        if k > 0 {
          assert s[1..][k - 1..] == s[k..];
        }
      }
    }
  }

  /** A partial match target selects exactly the values in which the given text occurs. */
  lemma PartialMatchIsOccurrence(t: string, s: string)
    ensures LikeMatch(FormatMatchTarget(t, true), s) <==> Occurs(t, s)
  {
    hide LikeMatch, Escape, FoldEqual;
    var p := Escape(t) + "%";
    assert FormatMatchTarget(t, true) == "%" + p;
    PercentSkips(p, s);
    forall k: nat | k <= |s| ensures LikeMatch(p, s[k..]) <==> StandsAt(t, s, k) {
      EscapeMatchesLiterally(t, "%", s[k..]);
      if k + |t| <= |s| {
        PercentMatchesAll(s[k..][|t|..]);
        assert s[k..][0..|t|] == s[k..k + |t|];
      }
    }
  }

  lemma {:induction false} EscapeLength(t: string)
    ensures |Escape(t)| >= |t|
    ensures |Escape(t)| == |t| <==> Plain(t)
    ensures Plain(t) ==> Escape(t) == t
  {
    if t != "" {
      EscapeCons(t);
      EscapeLength(t[1..]);
      assert Plain(t) <==> !Special(t[0]) && Plain(t[1..]) by {
        assert forall i :: 0 < i < |t| ==> t[i] == t[1..][i - 1];
        assert forall i :: 0 <= i < |t| - 1 ==> t[1..][i] == t[i + 1];
      }
    }
  }

  /** A strict comparison uses the formatted target too, so it means equality with the given text
      if and only if that text has no character the formatting changes. */
  lemma StrictMatchIffPlain(t: string)
    ensures Plain(t) <==> FormatMatchTarget(t, false) == t
  {
    EscapeLength(t);
  }
}
