/**
 Which column a field path stands for (`toColumnName` and `getValidFieldEntry` in
 pkg/sqlcache/informer/listoption_indexer.go), said of the text of the column.
 */
module ColumnNames {
  import opened Prelude
  import opened Sql
  import opened QueryBuilder
  import Like

  /** Where part k of a path starts when the parts stand one after the other with one character in between. */
  function Place(parts: seq<string>, k: nat): nat
    requires k <= |parts|
  {
    if k == 0 then 0 else Place(parts, k - 1) + |parts[k - 1]| + 1
  }

  /** The parts stand in the text at their places, and there is a dot between neighbours. */
  ghost predicate Dotted(parts: seq<string>, text: string) {
    && |text| + 1 == Place(parts, |parts|)
    && (forall k :: 0 <= k < |parts| ==> StandsAt(text, parts[k], Place(parts, k)))
    && (forall k :: 0 < k < |parts| ==> StandsAt(text, ".", Place(parts, k) - 1))
  }

  predicate StandsAt(text: string, part: string, at: int) {
    0 <= at && at + |part| <= |text| && text[at..at + |part|] == part
  }

  /** Letters, digits and underscores, and no digit in front. */
  predicate IsWord(s: string) {
    && s != "" && !IsNumeral(s[..1])
    && forall c :: c in s ==> c == '_' || 'a' <= c <= 'z' || 'A' <= c <= 'Z' || '0' <= c <= '9'
  }

  predicate IsNumeral(s: string) { forall c :: c in s ==> '0' <= c <= '9' }

  /** The text without its double quotes. */
  function Unquoted(s: string): string {
    if s == "" then ""
    else Unquoted(s[..|s| - 1]) + if s[|s| - 1] == '"' then "" else s[|s| - 1..]
  }

  /** A path of several parts is written with dots or, if its last part is not a word, with that part in brackets. */
  ghost predicate Written(path: seq<string>, text: string)
    requires |path| > 1
  {
    var last := path[|path| - 1];
    if IsWord(last) then Dotted(path, text)
    else |text| > |last| + 1 && text[|text| - |last| - 2..] == "[" + last + "]"
         && Dotted(path[..|path| - 1], text[..|text| - |last| - 2])
  }

  /** The path stands for the column. */
  ghost predicate Names(path: seq<string>, column: string) {
    if path == [] then column == ""
    else if |path| == 1 then column == Unquoted(path[0])
    else exists text :: Written(path, text) && column == Unquoted(text)
  }

  /** What a path stands for: an indexed column or, if there is none, the element of an indexed column that the last
      numeral after the first part says, where the other parts stand for the column. */
  ghost predicate EntryFor(indexed: seq<string>, path: seq<string>, entry: Entry) {
    match entry
    case Column(name) => name in indexed && Names(path, name)
    case Element(name, index) =>
      && name in indexed && (forall c :: c in indexed ==> !Names(path, c))
      && |path| > 2
      && exists i: nat :: IsIndex(path, i) && path[i] == index && Names(path[..i] + path[i + 1..], name)
  }

  predicate IsIndex(path: seq<string>, i: nat) {
    0 < i < |path| && IsNumeral(path[i]) && forall j :: i < j < |path| ==> !IsNumeral(path[j])
  }

  // ----- The builder's columns -----

  lemma {:induction false} PlaceSame(parts: seq<string>, n: nat, k: nat)
    requires k <= n <= |parts|
    ensures Place(parts[..n], k) == Place(parts, k)
    decreases k
  {
    if k > 0 {
      PlaceSame(parts, n, k - 1);
    }
  }

  lemma {:induction false} PlaceGrows(parts: seq<string>, k: nat, n: nat)
    requires k < n <= |parts|
    ensures Place(parts, k) + |parts[k]| + 1 <= Place(parts, n)
    decreases n
  {
    if k < n - 1 {
      PlaceGrows(parts, k, n - 1);
    }
  }

  /** Only one text is dotted so. */
  lemma {:induction false} DottedIff(parts: seq<string>, text: string)
    requires parts != []
    ensures Dotted(parts, text) <==> text == JoinWith(parts, ".")
    decreases |parts|
  {
    var n := |parts| - 1;
    if n == 0 {
      assert Place(parts, 1) == |parts[0]| + 1;
      if Dotted(parts, text) {
        assert StandsAt(text, parts[0], Place(parts, 0));
      }
    } else {
      LastPart(parts, text);
      var cut := Place(parts, n) - 1;
      DottedIff(parts[..n], JoinWith(parts[..n], "."));
      if 0 <= cut <= |text| {
        DottedIff(parts[..n], text[..cut]);
      }
      PlaceSame(parts, n, n);
      var head := JoinWith(parts[..n], ".");
      assert |head| + 1 == Place(parts, n);
      if text == JoinWith(parts, ".") {
        assert text == head + "." + parts[n];
        assert text[..cut] == head && text[cut] == '.' && text[cut + 1..] == parts[n];
      }
    }
  }

  /** A dotted text is the dotted text of all parts but the last, a dot, and the last. */
  lemma LastPart(parts: seq<string>, text: string)
    requires |parts| > 1
    ensures var n := |parts| - 1;
            var cut := Place(parts, n) - 1;
            Dotted(parts, text) <==>
              0 <= cut < |text| && text[cut] == '.' && text[cut + 1..] == parts[n] && Dotted(parts[..n], text[..cut])
  {
    hide Dotted;
    var n := |parts| - 1;
    var cut := Place(parts, n) - 1;
    PlaceGrows(parts, 0, n);
    PlaceSame(parts, n, n);
    forall k | 0 <= k < n
      ensures Place(parts[..n], k) == Place(parts, k) && Place(parts, k) + |parts[k]| <= cut
    {
      PlaceSame(parts, n, k);
      PlaceGrows(parts, k, n);
    }
    if Dotted(parts, text) {
      LastStands(parts, text, n, cut);
      InnerParts(parts, text, n, cut);
    }
    if 0 <= cut < |text| && text[cut] == '.' && text[cut + 1..] == parts[n] && Dotted(parts[..n], text[..cut]) {
      assert StandsAt(text, ".", cut) && StandsAt(text, parts[n], cut + 1);
      OuterParts(parts, text, n, cut);
    }
  }

  lemma LastStands(parts: seq<string>, text: string, n: nat, cut: nat)
    requires n + 1 == |parts| && n > 0 && cut + 1 == Place(parts, n) && Dotted(parts, text)
    ensures cut < |text| && text[cut] == '.' && text[cut + 1..] == parts[n]
  {
    assert StandsAt(text, parts[n], Place(parts, n)) && StandsAt(text, ".", Place(parts, n) - 1);
    assert Place(parts, n + 1) == Place(parts, n) + |parts[n]| + 1;
  }

  /** What stands before the cut stands in the text cut there, and the other way round. */
  lemma StandsBefore(text: string, part: string, at: int, cut: nat)
    requires cut <= |text| && at + |part| <= cut
    ensures StandsAt(text[..cut], part, at) <==> StandsAt(text, part, at)
  {
    if at >= 0 {
      assert text[..cut][at..at + |part|] == text[at..at + |part|];
    }
  }

  lemma InnerParts(parts: seq<string>, text: string, n: nat, cut: nat)
    requires n + 1 == |parts| && n > 0 && cut < |text| && cut + 1 == Place(parts, n) == Place(parts[..n], n) && Dotted(parts, text)
    requires forall k :: 0 <= k < n ==> Place(parts[..n], k) == Place(parts, k) && Place(parts, k) + |parts[k]| <= cut
    ensures Dotted(parts[..n], text[..cut])
  {
    hide StandsAt, Place;
    forall k | 0 <= k < n ensures StandsAt(text[..cut], parts[..n][k], Place(parts[..n], k)) {
      assert StandsAt(text, parts[k], Place(parts, k));
      StandsBefore(text, parts[k], Place(parts, k), cut);
    }
    forall k | 0 < k < n ensures StandsAt(text[..cut], ".", Place(parts[..n], k) - 1) {
      assert StandsAt(text, ".", Place(parts, k) - 1);
      StandsBefore(text, ".", Place(parts, k) - 1, cut);
    }
  }

  lemma OuterParts(parts: seq<string>, text: string, n: nat, cut: nat)
    requires n + 1 == |parts| && n > 0 && cut < |text| && cut + 1 == Place(parts, n) && Place(parts, n + 1) == |text| + 1
    requires StandsAt(text, ".", cut) && StandsAt(text, parts[n], cut + 1) && Dotted(parts[..n], text[..cut])
    requires forall k :: 0 <= k < n ==> Place(parts[..n], k) == Place(parts, k) && Place(parts, k) + |parts[k]| <= cut
    ensures Dotted(parts, text)
  {
    hide StandsAt, Place;
    forall k | 0 <= k < |parts| ensures StandsAt(text, parts[k], Place(parts, k)) {
      if k < n {
        assert StandsAt(text[..cut], parts[..n][k], Place(parts[..n], k));
        StandsBefore(text, parts[k], Place(parts, k), cut);
      }
    }
    forall k | 0 < k < |parts| ensures StandsAt(text, ".", Place(parts, k) - 1) {
      if k < n {
        assert StandsAt(text[..cut], ".", Place(parts[..n], k) - 1);
        StandsBefore(text, ".", Place(parts, k) - 1, cut);
      }
    }
  }

  lemma {:induction false} UnquotedIs(s: string)
    ensures Like.ReplaceAll(s, '"', "") == Unquoted(s)
  {
    if s != "" {
      var n := |s| - 1;
      UnquotedIs(s[..n]);
      assert s == s[..n] + s[n..] && s[n..] == [s[n]];
      Like.ReplaceAppend(s[..n], s[n..], '"', "");
      Like.ReplaceOne(s[n], '"', "");
    }
  }

  lemma WordIs(s: string)
    ensures IsSimpleName(s) <==> IsWord(s)
    ensures AllDigits(s) <==> IsNumeral(s)
  {
    assert forall i :: 0 <= i < |s| ==> s[i] in s;
    if s != "" {
      FirstIs(s);
    }
  }

  lemma FirstIs(s: string)
    requires s != ""
    ensures IsNumeral(s[..1]) <==> '0' <= s[0] <= '9'
  {
    assert s[..1] == [s[0]] && s[0] in s[..1];
  }

  lemma WrittenIff(path: seq<string>, text: string)
    requires |path| > 1
    ensures Written(path, text) <==> text == SmartJoin(path)
  {
    var n := |path| - 1;
    var last := path[n];
    WordIs(last);
    if IsWord(last) {
      DottedIff(path, text);
    } else {
      var head := JoinWith(path[..n], ".");
      var at := |text| - |last| - 2;
      if at >= 0 {
        DottedIff(path[..n], text[..at]);
        assert text == text[..at] + text[at..];
      }
      assert (head + "[" + last + "]")[|head|..] == "[" + last + "]";
    }
  }

  /** Each path stands for one column, the one the builder takes. */
  lemma NamesIff(path: seq<string>, column: string)
    ensures Names(path, column) <==> column == ToColumnName(path)
  {
    hide SmartJoin, Unquoted, Like.ReplaceAll, Written;
    if |path| > 1 {
      WrittenIff(path, SmartJoin(path));
      UnquotedIs(SmartJoin(path));
      if text :| Written(path, text) && column == Unquoted(text) {
        WrittenIff(path, text);
      }
    } else {
      ShortPath(path);
    }
  }

  lemma ShortPath(path: seq<string>)
    requires |path| <= 1
    ensures ToColumnName(path) == if path == [] then "" else Unquoted(path[0])
  {
    UnquotedIs(SmartJoin(path));
  }

  lemma {:induction false} NumericIndexIs(path: seq<string>, n: nat)
    requires n <= |path|
    ensures var i := NumericIndex(path, n);
            if i == 0 then forall j :: 0 < j < n ==> !IsNumeral(path[j])
            else i < n && IsNumeral(path[i]) && forall j :: i < j < n ==> !IsNumeral(path[j])
  {
    hide IsNumeral, AllDigits;
    if n > 1 {
      WordIs(path[n - 1]);
      NumericIndexIs(path, n - 1);
    }
  }

  /** The builder takes exactly what the path stands for, and refuses a path that stands for nothing. */
  lemma EntryForIff(indexed: seq<string>, path: seq<string>, entry: Entry)
    ensures ValidFieldEntry(indexed, path) == Ok(entry) <==> EntryFor(indexed, path, entry)
  {
    hide Names, ToColumnName, IsNumeral, NumericIndex;
    forall c ensures Names(path, c) <==> c == ToColumnName(path) {
      NamesIff(path, c);
    }
    var i := NumericIndex(path, |path|);
    NumericIndexIs(path, |path|);
    if i > 0 {
      assert IsIndex(path, i);
      var others := path[..i] + path[i + 1..];
      forall c ensures Names(others, c) <==> c == ToColumnName(others) {
        NamesIff(others, c);
      }
    }
    OneIndex(path, i);
  }

  lemma OneIndex(path: seq<string>, i: nat)
    requires if i == 0 then forall j :: 0 < j < |path| ==> !IsNumeral(path[j]) else IsIndex(path, i)
    ensures forall j: nat :: IsIndex(path, j) ==> i > 0 && j == i
  {
  }

  // ----- Different paths, different columns -----

  ghost predicate AllWords(path: seq<string>) { path != [] && forall k :: 0 <= k < |path| ==> IsWord(path[k]) }

  /** The text ends in the word, and a dot comes before it if anything does. */
  predicate EndsIn(t: string, word: string) {
    && |word| <= |t| && t[|t| - |word|..] == word
    && (|word| < |t| ==> t[|t| - |word| - 1] == '.')
  }

  lemma DotInside(t: string, a: string, b: string)
    requires EndsIn(t, a) && EndsIn(t, b) && |a| < |b|
    ensures '.' in b
  {
    assert b[|b| - |a| - 1] == t[|t| - |a| - 1];
  }

  lemma SameEnd(t: string, a: string, b: string)
    requires EndsIn(t, a) && EndsIn(t, b) && IsWord(a) && IsWord(b)
    ensures a == b
  {
    if |a| < |b| {
      DotInside(t, a, b);
    } else if |b| < |a| {
      DotInside(t, b, a);
    }
  }

  lemma JoinEnds(p: seq<string>)
    requires p != []
    ensures EndsIn(JoinWith(p, "."), p[|p| - 1])
    ensures |p| > 1 <==> |p[|p| - 1]| < |JoinWith(p, ".")|
    ensures |p| > 1 ==> var t := JoinWith(p, "."); t[..|t| - |p[|p| - 1]| - 1] == JoinWith(p[..|p| - 1], ".")
  {
    var t, m := JoinWith(p, "."), |p| - 1;
    if m > 0 {
      var head := JoinWith(p[..m], ".");
      assert t == head + "." + p[m];
      assert t[|head|] == '.' && t[|head| + 1..] == p[m] && t[..|head|] == head;
    }
  }

  lemma {:induction false} JoinInjective(p: seq<string>, q: seq<string>)
    requires AllWords(p) && AllWords(q) && JoinWith(p, ".") == JoinWith(q, ".")
    ensures p == q
    decreases |p|
  {
    hide IsWord, JoinWith, EndsIn;
    var t, m, n := JoinWith(p, "."), |p| - 1, |q| - 1;
    JoinEnds(p);
    JoinEnds(q);
    SameEnd(t, p[m], q[n]);
    if m > 0 {
      JoinInjective(p[..m], q[..n]);
      assert p == p[..m] + [p[m]] && q == q[..n] + [q[n]];
    }
  }

  lemma {:induction false} WordsUnquoted(p: seq<string>)
    requires AllWords(p)
    ensures '"' !in JoinWith(p, ".")
  {
    var n := |p| - 1;
    assert IsWord(p[n]) && '"' !in p[n];
    if n > 0 {
      WordsUnquoted(p[..n]);
    }
  }

  lemma {:induction false} NoQuotes(s: string)
    requires '"' !in s
    ensures Unquoted(s) == s
  {
    if s != "" {
      NoQuotes(s[..|s| - 1]);
    }
  }

  lemma WordsColumn(p: seq<string>)
    requires AllWords(p)
    ensures Names(p, JoinWith(p, "."))
  {
    WordsUnquoted(p);
    NoQuotes(JoinWith(p, "."));
    if |p| > 1 {
      DottedIff(p, JoinWith(p, "."));
      assert Written(p, JoinWith(p, "."));
    }
  }

  /** Two paths of words stand for the same column only if they are equal. */
  lemma PathsDiffer(p: seq<string>, q: seq<string>, column: string)
    requires AllWords(p) && AllWords(q) && Names(p, column) && Names(q, column)
    ensures p == q
  {
    hide Names, AllWords;
    WordsColumn(p);
    WordsColumn(q);
    NamesIff(p, column);
    NamesIff(q, column);
    NamesIff(p, JoinWith(p, "."));
    NamesIff(q, JoinWith(q, "."));
    JoinInjective(p, q);
  }
}
