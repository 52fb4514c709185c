/**
 What the filter language accepts and refuses besides what is printed: sets with values in any order and empty ones
 anywhere, existence, comparisons with numbers (pkg/stores/sqlpartition/queryparser/selector.go).
 */
module SelectorSets {
  import opened Prelude
  import opened SelectorLexer
  import opened SelectorParser
  import opened SelectorRoundTrip
  import opened SelectorStable

  // ----- Sets -----

  /** How many values at the end of the list are empty. */
  function EmptyAtEnd(vs: seq<string>): (n: nat)
    ensures n <= |vs|
  {
    if vs == [] || vs[|vs| - 1] != "" then 0 else 1 + EmptyAtEnd(vs[..|vs| - 1])
  }

  /** The list can be read where a value is expected: it does not end, after another value, in an even number of
      empty ones, nor is it an odd number of empty ones. */
  predicate Readable(vs: seq<string>) {
    var n := EmptyAtEnd(vs);
    if n == |vs| then n % 2 == 0 else n == 0 || n % 2 == 1
  }

  /** The same after a comma. */
  predicate ReadableAfterComma(vs: seq<string>) {
    var n := EmptyAtEnd(vs);
    n == 0 || n % 2 == 1
  }

  lemma {:induction false} EmptyTail(vs: seq<string>)
    requires |vs| > 1
    ensures EmptyAtEnd(vs) == if EmptyAtEnd(vs[1..]) == |vs| - 1 && vs[0] == "" then |vs| else EmptyAtEnd(vs[1..])
    decreases |vs|
  {
    var n := |vs| - 1;
    assert vs[1..][n - 1] == vs[n];
    if vs[n] == "" {
      assert vs[1..][..n - 1] == vs[..n][1..];
      if n > 1 {
        EmptyTail(vs[..n]);
      } else {
        assert vs[..1] == [vs[0]] && vs[..1][..0] == [] && vs[1..] == [vs[1]] && vs[1..][..0] == [];
        assert EmptyAtEnd(vs[..1]) == if vs[0] == "" then 1 + EmptyAtEnd([]) else 0;
      }
    }
  }

  ghost predicate Reads(r: Result<Parsed<seq<string>>, Error>, ok: bool, members: set<string>, rest: seq<Item>) {
    && (r.Ok? <==> ok)
    && (r.Ok? ==> r.value.rest == rest && Ascending(r.value.value) && forall v :: v in r.value.value <==> v in members)
  }

  ghost function Members(s: seq<string>, vs: seq<string>): set<string> { (set v | v in s) + (set v | v in vs) }

  lemma {:induction false} ReadValues(vs: seq<string>, s: seq<string>, more: seq<Item>)
    requires vs != [] && (forall v :: v in vs ==> IsValue(v)) && Ends(more) && Ascending(s)
    requires vs[0] == "" ==> s == [] || "" in s
    ensures Ends(ValuesThen(vs, more))
    ensures Reads(ParseIdents(ValuesThen(vs, more), s), Readable(vs), Members(s, vs), [CLOSED] + more)
    decreases |vs|, 0
  {
    hide IsIdentifier, Ends, KeywordOrIdent, Insert, Ascending, Reads, Readable, ReadableAfterComma;
    ValuesEnd(vs, more);
    var v := vs[0];
    assert IsValue(v);
    var ts := if |vs| == 1 then [CLOSED] + more else [COMMA] + ValuesThen(vs[1..], more);
    var us := ValuesThen(vs, more);
    assert us == ValueItem(v) + ts;
    EndsCons(CLOSED, more);
    if v != "" {
      InsertKeeps(s, v);
      var s' := Insert(s, v);
      assert v in s';
      if |vs| == 1 {
        ValueAhead(v, ts);
        assert ParseIdents(us, s) == Ok(Parsed(s', ts));
        LastValue(vs, s, s', more);
      } else {
        ValuesEnd(vs[1..], more);
        EndsCons(COMMA, ValuesThen(vs[1..], more));
        ValueAhead(v, ts);
        assert ParseIdents(us, s) == ParseIdents(ts, s');
        ReadAfterComma(vs[1..], s', more);
        ValueTaken(vs, s, s', ParseIdents(us, s), [CLOSED] + more);
      }
    } else {
      assert us == ts;
      if |vs| == 1 {
        Refused(vs, s, ParseIdents(us, s), [CLOSED] + more);
      } else {
        ReadAfterComma(vs[1..], s, more);
        EmptyPassed(vs, s, ParseIdents(us, s), [CLOSED] + more);
      }
    }
  }

  lemma LastValue(vs: seq<string>, s: seq<string>, s': seq<string>, more: seq<Item>)
    requires |vs| == 1 && vs[0] != "" && Ascending(s') && forall v :: v in s' <==> v in s || v == vs[0]
    ensures Reads(Ok(Parsed(s', [CLOSED] + more)), Readable(vs), Members(s, vs), [CLOSED] + more)
  {
    assert vs == [vs[0]];
  }

  lemma ValueTaken(vs: seq<string>, s: seq<string>, s': seq<string>, r: Result<Parsed<seq<string>>, Error>, rest: seq<Item>)
    requires |vs| > 1 && vs[0] != "" && (forall v :: v in s' <==> v in s || v == vs[0])
    requires Reads(r, ReadableAfterComma(vs[1..]), Members(s', vs[1..]), rest)
    ensures Reads(r, Readable(vs), Members(s, vs), rest)
  {
    EmptyTail(vs);
    assert vs == [vs[0]] + vs[1..];
    assert Members(s', vs[1..]) == Members(s, vs);
  }

  lemma Refused(vs: seq<string>, s: seq<string>, r: Result<Parsed<seq<string>>, Error>, rest: seq<Item>)
    requires vs == [""] && r.Err?
    ensures Reads(r, Readable(vs), Members(s, vs), rest)
  {
    assert EmptyAtEnd(vs) == 1 + EmptyAtEnd([]);
  }

  lemma EmptyPassed(vs: seq<string>, s: seq<string>, r: Result<Parsed<seq<string>>, Error>, rest: seq<Item>)
    requires |vs| > 1 && vs[0] == "" && (s == [] || "" in s)
    requires Reads(r, ReadableAfterComma(vs[1..]), Members(if s == [] then [""] else s, vs[1..]), rest)
    ensures Reads(r, Readable(vs), Members(s, vs), rest)
  {
    EmptyTail(vs);
    assert vs == [vs[0]] + vs[1..];
    assert Members(if s == [] then [""] else s, vs[1..]) == Members(s, vs);
  }

  lemma {:induction false} ReadAfterComma(vs: seq<string>, s: seq<string>, more: seq<Item>)
    requires vs != [] && (forall v :: v in vs ==> IsValue(v)) && Ends(more) && Ascending(s)
    ensures Ends([COMMA] + ValuesThen(vs, more))
    ensures Reads(ParseIdents([COMMA] + ValuesThen(vs, more), s), ReadableAfterComma(vs),
                  Members(if s == [] then [""] else s, vs), [CLOSED] + more)
    decreases |vs|, 1
  {
    hide IsIdentifier, Ends, KeywordOrIdent, Insert, Ascending, Reads, Readable, ReadableAfterComma, ParseIdents, ValuesThen, Members;
    ValuesEnd(vs, more);
    var us := ValuesThen(vs, more);
    InsertKeeps(s, "");
    var s' := if s == [] then Insert(s, "") else s;
    NoneYet();
    assert IsValue(vs[0]);
    InsertKeeps(s', "");
    CommaStep(vs, s, more);
    if vs[0] != "" {
      ReadValues(vs, s', more);
      SameReadable(vs);
    } else if |vs| == 1 {
      LastEmpty(vs, s', Insert(s', ""), more);
    } else {
      ReadValues(vs[1..], Insert(s', ""), more);
      EmptyTaken(vs, s', Insert(s', ""), ParseIdents([COMMA] + us, s), [CLOSED] + more);
    }
  }

  /** What a comma does: a value comes next, the list ends in an empty value, or an empty value is skipped. */
  lemma CommaStep(vs: seq<string>, s: seq<string>, more: seq<Item>)
    requires vs != [] && (forall v :: v in vs ==> IsValue(v)) && Ends(more) && Ends(ValuesThen(vs, more))
    ensures Ends([COMMA] + ValuesThen(vs, more))
    ensures var s' := if s == [] then Insert(s, "") else s;
            var r := ParseIdents([COMMA] + ValuesThen(vs, more), s);
            if vs[0] != "" then r == ParseIdents(ValuesThen(vs, more), s')
            else if |vs| == 1 then r == Ok(Parsed(Insert(s', ""), [CLOSED] + more))
            else Ends(ValuesThen(vs[1..], more)) && r == ParseIdents(ValuesThen(vs[1..], more), Insert(s', ""))
  {
    hide IsIdentifier, Ends, KeywordOrIdent, Insert, ParseIdents;
    var us := ValuesThen(vs, more);
    EndsCons(COMMA, us);
    assert IsValue(vs[0]);
    if vs[0] != "" {
      NextIsValue(vs, more);
      CommaValue(us, s);
    } else if |vs| == 1 {
      assert us == [CLOSED] + more;
      CommaClosed(us, s);
    } else {
      ValuesEnd(vs[1..], more);
      assert us == [COMMA] + ValuesThen(vs[1..], more);
      CommaComma(ValuesThen(vs[1..], more), s);
    }
  }

  lemma CommaValue(us: seq<Item>, s: seq<string>)
    requires Ends(us) && Ends([COMMA] + us) && AsValue(us[0].tok) == Ident
    ensures ParseIdents([COMMA] + us, s) == ParseIdents(us, if s == [] then Insert(s, "") else s)
  {
    hide Ends, Insert;
    EndsCons(COMMA, us);
  }

  lemma CommaClosed(us: seq<Item>, s: seq<string>)
    requires Ends(us) && Ends([COMMA] + us) && us[0].tok == ClosedPar
    ensures ParseIdents([COMMA] + us, s) == Ok(Parsed(Insert(if s == [] then Insert(s, "") else s, ""), us))
  {
    hide Ends, Insert;
    EndsCons(COMMA, us);
  }

  lemma CommaComma(us: seq<Item>, s: seq<string>)
    requires Ends(us) && Ends([COMMA] + ([COMMA] + us))
    ensures ParseIdents([COMMA] + ([COMMA] + us), s) == ParseIdents(us, Insert(if s == [] then Insert(s, "") else s, ""))
  {
    hide Ends, Insert;
    EndsCons(COMMA, us);
    EndsCons(COMMA, [COMMA] + us);
    assert ([COMMA] + ([COMMA] + us))[2..] == us;
  }

  lemma NoneYet()
    ensures Insert([], "") == [""]
  {
  }

  lemma SameReadable(vs: seq<string>)
    requires vs != [] && vs[0] != ""
    ensures Readable(vs) <==> ReadableAfterComma(vs)
  {
    FirstNotEmpty(vs);
  }

  lemma {:induction false} FirstNotEmpty(vs: seq<string>)
    requires vs != [] && vs[0] != ""
    ensures EmptyAtEnd(vs) < |vs|
  {
    if |vs| > 1 {
      FirstNotEmpty(vs[..|vs| - 1]);
    }
  }

  lemma LastEmpty(vs: seq<string>, s: seq<string>, s': seq<string>, more: seq<Item>)
    requires vs == [""] && Ascending(s') && forall v :: v in s' <==> v in s || v == ""
    ensures Reads(Ok(Parsed(s', [CLOSED] + more)), ReadableAfterComma(vs), Members(s, vs), [CLOSED] + more)
  {
    assert EmptyAtEnd(vs) == 1 + EmptyAtEnd([]);
  }

  lemma EmptyTaken(vs: seq<string>, s: seq<string>, s': seq<string>, r: Result<Parsed<seq<string>>, Error>, rest: seq<Item>)
    requires |vs| > 1 && vs[0] == "" && (forall v :: v in s' <==> v in s || v == "")
    requires Reads(r, Readable(vs[1..]), Members(s', vs[1..]), rest)
    ensures Reads(r, ReadableAfterComma(vs), Members(s, vs), rest)
  {
    EmptyTail(vs);
    assert vs == [vs[0]] + vs[1..];
    assert Members(s', vs[1..]) == Members(s, vs);
  }

  /** A set in parentheses can be read if it is the empty list or, between commas, values and empty ones that do not end
      badly; it then has exactly those values. */
  lemma ParseSetIff(vs: seq<string>, more: seq<Item>)
    requires vs != [] && (forall v :: v in vs ==> IsValue(v)) && Ends(more)
    ensures Ends([OPEN] + ValuesThen(vs, more))
    ensures Reads(ParseSet([OPEN] + ValuesThen(vs, more)), vs == [""] || Readable(vs), Members([], vs), more)
  {
    hide IsIdentifier, Ends, KeywordOrIdent, Readable, ParseIdents, Members;
    ValuesEnd(vs, more);
    var us := ValuesThen(vs, more);
    EndsCons(OPEN, us);
    EndsCons(CLOSED, more);
    if vs == [""] {
      assert us == [CLOSED] + more;
      assert ([OPEN] + us)[2..] == more;
      OneEmpty();
    } else {
      FirstToken(vs, more);
      ReadValues(vs, [], more);
      assert ([OPEN] + us)[1..] == us;
    }
  }

  lemma OneEmpty()
    ensures forall v :: v in [""] <==> v in Members([], [""])
  {
  }

  lemma FirstToken(vs: seq<string>, more: seq<Item>)
    requires vs != [] && vs != [""] && (forall v :: v in vs ==> IsValue(v)) && Ends(more)
    ensures AsValue(ValuesThen(vs, more)[0].tok) in {Ident, Comma}
  {
    hide IsIdentifier;
    assert IsValue(vs[0]);
    if vs[0] != "" {
      NextIsValue(vs, more);
    } else {
      assert vs == [vs[0]] + vs[1..] && vs[1..] != [];
      assert ValuesThen(vs, more) == [COMMA] + ValuesThen(vs[1..], more);
    }
  }

  /** For any values, in any order, with empty ones anywhere: `key in (v1,v2,...)` is accepted if and only if it is `()`,
      or the values do not end badly; it then asks for exactly those values. The same for notin. */
  lemma SetParsesIff(key: string, op: Operator, vs: seq<string>)
    requires IsIdentifier(key) && IsSetOp(op) && vs != [] && forall v :: v in vs ==> IsValue(v)
    ensures var word := if op == In then " in " else " notin ";
            var r := ParseText(key + (word + ("(" + (Join(vs, ",") + ")"))));
            && (r.Ok? <==> vs == [""] || Readable(vs))
            && (r.Ok? ==>
                  && |r.value| == 1 && r.value[0].key == key && r.value[0].op == op && Ascending(r.value[0].values)
                  && forall v :: v in r.value[0].values <==> v in vs)
  {
    hide Scan, IsIdentifier, KeywordOrIdent, Ends, ParseAll, ValuesThen, Join, Ascending, Readable;
    var list := "(" + (Join(vs, ",") + (")" + ""));
    var word := if op == In then " in " else " notin ";
    assert ")" + "" == ")" && word == OperatorText(op);
    OperatorFollows(op, list);
    ScanIdentifier(key, OperatorText(op) + list);
    ScanSet(op, vs, "");
    ScanNothing();
    SetItems(key, op, vs);
  }

  lemma SetItems(key: string, op: Operator, vs: seq<string>)
    requires IsIdentifier(key) && IsSetOp(op) && vs != [] && forall v :: v in vs ==> IsValue(v)
    ensures var ts := [Item(KeywordOrIdent(key), key)] + ([SymbolItem(op)] + ([OPEN] + ValuesThen(vs, [END])));
            Ends(ts)
            && var r := ParseAll(ts, []);
               && (r.Ok? <==> vs == [""] || Readable(vs))
               && (r.Ok? ==>
                     && |r.value| == 1 && r.value[0].key == key && r.value[0].op == op && Ascending(r.value[0].values)
                     && forall v :: v in r.value[0].values <==> v in vs)
  {
    hide IsIdentifier, KeywordOrIdent, Ends, ParseKey, ParseSet, ParseAll, IsLabelKey, ValuesThen, Ascending, Readable, SymbolItem;
    JustEnd();
    ParseSetIff(vs, [END]);
    var us := [OPEN] + ValuesThen(vs, [END]);
    OperatorBack(op, us);
    var r := Requirement(key, op, vs);
    ParseKeyBack(r, [SymbolItem(op)] + us);
    var ts := [KeyItem(r)] + ([SymbolItem(op)] + us);
    var p := ParseSet(us);
    assert vs[0] in vs;
    if p.Ok? {
      assert vs[0] in p.value.value;
      ParseAllNext(ts, [], Requirement(key, op, p.value.value), [END]);
    } else {
      ParseAllEnds(ts, []);
    }
  }

  // ----- Numbers -----

  /** The usual decimal numeral. */
  function Numeral(n: nat): string {
    if n < 10 then ["0123456789"[n]] else Numeral(n / 10) + ["0123456789"[n % 10]]
  }

  lemma {:induction false} NumeralReads(n: nat)
    ensures Numeral(n) != "" && (forall i :: 0 <= i < |Numeral(n)| ==> IsDigit(Numeral(n)[i])) && DecimalValue(Numeral(n)) == n
  {
    var s := Numeral(n);
    if n < 10 {
      assert s[..0] == "";
    } else {
      NumeralReads(n / 10);
      assert s[..|s| - 1] == Numeral(n / 10);
    }
  }

  /** Exactly the numerals of 64-bit numbers are numbers, with or without a sign. */
  lemma Int64Numerals(n: nat)
    ensures IsInt64(Numeral(n)) <==> n < 0x8000_0000_0000_0000
    ensures IsInt64("+" + Numeral(n)) <==> n < 0x8000_0000_0000_0000
    ensures IsInt64("-" + Numeral(n)) <==> n <= 0x8000_0000_0000_0000
  {
    NumeralReads(n);
    var s := Numeral(n);
    assert IsDigit(s[0]);
    assert ("+" + s)[1..] == s && ("-" + s)[1..] == s;
  }

  /** And nothing else but numerals with a sign or leading zeros. */
  lemma Int64Digits(s: string)
    requires IsInt64(s)
    ensures var digits := if s != "" && (s[0] == '+' || s[0] == '-') then s[1..] else s;
            digits != "" && forall c :: c in digits ==> c in "0123456789"
  {
    var digits := if s != "" && (s[0] == '+' || s[0] == '-') then s[1..] else s;
    forall c | c in digits ensures c in "0123456789" {
      var i :| 0 <= i < |digits| && digits[i] == c;
      assert IsDigit(digits[i]);
      DigitListed(c);
    }
  }

  lemma DigitListed(c: char)
    requires '0' <= c <= '9'
    ensures c in "0123456789"
  {
    assert "0123456789"[(c - '0') as int] == c;
  }

  // ----- Blanks -----

  /** Spaces, tabs and line ends before an item change nothing. */
  lemma BlanksIgnored(c: char, rest: string)
    requires c == ' ' || c == '\t' || c == '\r' || c == '\n'
    ensures Scan([c] + rest) == Scan(rest)
  {
    assert ([c] + rest)[1..] == rest;
    assert SkipBlanks([c] + rest) == SkipBlanks(rest);
    assert LexOne([c] + rest) == LexOne(rest);
  }

  /** What an item begins with: letters, digits and underscores begin words, quotes begin quoted strings or errors, nothing
      but a NUL ends the text early, and every character without a meaning is refused. Bytes above ASCII count as
      letters where Latin-1 has letters. */
  lemma FirstCharacter(c: char, rest: string)
    requires c as int < 0x100 && c !in {' ', '\t', '\r', '\n'}
    ensures var item := LexOne([c] + rest).item;
            if c == '\0' then item.tok == EndTok
            else if c in {'=', '!', '(', ')', ',', '>', '<', '~'} then item.tok !in {Ident, Quoted, EndTok}
            else if c == '"' || c == '\'' then item.tok in {Quoted, ErrorTok}
            else if c == '_' || 'a' <= c <= 'z' || 'A' <= c <= 'Z' || '0' <= c <= '9'
                    || c as int in {0xAA, 0xB5, 0xBA} || (c as int >= 0xC0 && c as int !in {0xD7, 0xF7})
            then item.tok in {Ident, InTok, NotInTok} && item.lit != "" && item.lit[0] == c
            else item.tok == ErrorTok
  {
    hide ScanIdent, ScanSymbol, ScanQuoted;
    var r := [c] + rest;
    assert SkipBlanks(r) == r && r[0] == c;
    if IsSpecial(c) {
      SymbolPlain(r, "", None);
    } else if IsIdentStart(c) {
      WordBegins(r);
    }
  }

  lemma WordBegins(r: string)
    requires r != "" && IsIdentStart(r[0])
    ensures var item := ScanIdent(r, "").item;
            item.tok in {Ident, InTok, NotInTok} && item.lit != "" && item.lit[0] == r[0]
  {
    hide IsIdentStart, Stops, KeywordOrIdent;
    IdentStartGoesOn(r[0]);
    NulStops();
    assert "" + [r[0]] == [r[0]];
    IdentText(r[1..], [r[0]]);
    assert ScanIdent(r, "") == ScanIdent(r[1..], [r[0]]);
    StartIdent(r);
    KeywordIsValue(ScanIdent(r, "").item.lit);
  }

  /** A NUL ends a word and is dropped; the text goes on behind it. */
  lemma NulEndsWord(v: string, rest: string)
    requires IsIdentifier(v)
    ensures Scan(v + (['\0'] + rest)) == [Item(KeywordOrIdent(v), v)] + Scan(rest)
  {
    hide KeywordOrIdent, IsIdentStart, ScanIdent;
    StartPlain(v[0]);
    var r := v + (['\0'] + rest);
    assert r[0] == v[0] && SkipBlanks(r) == r;
    NulScanned(v, rest, "");
    assert "" + v == v;
    KeywordIsValue(v);
    ScanStep(r);
  }

  lemma {:induction false} NulScanned(v: string, rest: string, buffer: string)
    requires NoStops(v)
    ensures ScanIdent(v + (['\0'] + rest), buffer) == Lexed(Item(KeywordOrIdent(buffer + v), buffer + v), rest)
  {
    hide KeywordOrIdent, Stops;
    NulStops();
    var r := v + (['\0'] + rest);
    if v == "" {
      assert r == ['\0'] + rest && r[1..] == rest && buffer + v == buffer;
    } else {
      assert r[0] == v[0] && r[1..] == v[1..] + (['\0'] + rest);
      NulScanned(v[1..], rest, buffer + [v[0]]);
      assert buffer + [v[0]] + v[1..] == buffer + v;
    }
  }

  // ----- Keywords -----

  /** Without the byte that begins a dotted capital I, folding goes letter by letter. */
  lemma {:induction false} FoldsEach(v: string)
    requires 0xC4 as char !in v
    ensures |Fold(v)| == |v|
    ensures forall i :: 0 <= i < |v| ==> Fold(v)[i] == if 'A' <= v[i] <= 'Z' then (v[i] as int + 32) as char else v[i]
  {
    if v != "" {
      assert 0xC4 as char !in v[1..];
      FoldsEach(v[1..]);
    }
  }

  /** In and notin are keywords in small and capital letters alike, and no other word is one. */
  lemma KeywordIff(v: string)
    requires IsIdentifier(v) && 0xC4 as char !in v
    ensures KeywordOrIdent(v) == InTok <==> |v| == 2 && v[0] in {'i', 'I'} && v[1] in {'n', 'N'}
    ensures KeywordOrIdent(v) == NotInTok <==>
            |v| == 5 && v[0] in {'n', 'N'} && v[1] in {'o', 'O'} && v[2] in {'t', 'T'} && v[3] in {'i', 'I'} && v[4] in {'n', 'N'}
    ensures KeywordOrIdent(v) in {InTok, NotInTok, Ident}
  {
    hide Fold;
    KeywordIsValue(v);
    FoldsEach(v);
    var f := Fold(v);
    assert TokenOf(f) == Some(InTok) <==> f == "in";
    assert TokenOf(f) == Some(NotInTok) <==> f == "notin";
    assert f == "in" <==> |f| == 2 && f[0] == 'i' && f[1] == 'n';
    assert f == "notin" <==> |f| == 5 && f[0] == 'n' && f[1] == 'o' && f[2] == 't' && f[3] == 'i' && f[4] == 'n';
  }

  /** A dotted capital I, two bytes, counts as an i. */
  lemma DottedKeyword(v: string)
    requires |v| == 3 && v[0] as int == 0xC4 && v[1] as int == 0xB0 && v[2] in {'n', 'N'}
    ensures KeywordOrIdent(v) == InTok
  {
    assert v[2..] == [v[2]] && v[2..][1..] == "";
    assert Fold(v[2..]) == "n" + Fold("");
    assert Fold(v) == "in";
  }

  // ----- What is refused -----

  /** Existence can only be asked of labels, with or without a bang. */
  lemma ExistenceOfFieldRefused(key: string)
    requires IsIdentifier(key) && !IsLabelKey(key)
    ensures ParseText(key) == Err(ExistenceOfField(key)) && ParseText("!" + key) == Err(ExistenceOfField(key))
  {
    hide Scan, IsIdentifier, KeywordOrIdent, Ends, ParseAll, IsLabelKey;
    var r := Requirement(key, Exists, []);
    assert key + "" == key;
    ScanIdentifier(key, "");
    ScanNothing();
    ScanNot(key, "");
    JustEnd();
    ParseKeyBack(r, [END]);
    ParseAllEnds([KeyItem(r)] + [END], []);
    ParseNotBack(r, [END]);
    ParseAllEnds([SymbolItem(DoesNotExist)] + ([KeyItem(r)] + [END]), []);
  }

  /** A single value must be there, and must be a number for < and >. */
  lemma SingleValueRefused(key: string, op: Operator, v: string)
    requires IsIdentifier(key) && TakesOne(op)
    ensures ParseText(key + OperatorText(op)) == Err(MissingValue)
    ensures IsIdentifier(v) && !IsInt64(v) && (op == LessThan || op == GreaterThan) ==>
              ParseText(key + (OperatorText(op) + v)) == Err(InvalidValues)
  {
    hide Scan, IsIdentifier, KeywordOrIdent, Ends, ParseAll, IsInt64, OperatorText, ParseText;
    NoValue(key, op);
    if IsIdentifier(v) && !IsInt64(v) && (op == LessThan || op == GreaterThan) {
      NoNumber(key, op, v);
    }
  }

  lemma NoValue(key: string, op: Operator)
    requires IsIdentifier(key) && TakesOne(op)
    ensures ParseText(key + OperatorText(op)) == Err(MissingValue)
  {
    hide Scan, IsIdentifier, KeywordOrIdent, Ends, ParseAll, IsInt64, OperatorText, ParseKey, IsLabelKey, KeyItem, SymbolItem;
    var r := Requirement(key, op, []);
    assert OperatorText(op) + "" == OperatorText(op);
    OperatorFollows(op, "");
    ScanIdentifier(key, OperatorText(op) + "");
    OperatorEnds(op, "");
    ScanOperator(op, "");
    ScanNothing();
    KeyItemIs(r);
    JustEnd();
    OperatorBack(op, [END]);
    ParseKeyBack(r, [SymbolItem(op)] + [END]);
    ParseAllEnds([KeyItem(r)] + ([SymbolItem(op)] + [END]), []);
  }

  lemma KeyItemIs(r: Requirement)
    ensures KeyItem(r) == Item(KeywordOrIdent(r.key), r.key)
  {
  }

  lemma NoNumber(key: string, op: Operator, v: string)
    requires IsIdentifier(key) && IsIdentifier(v) && !IsInt64(v) && (op == LessThan || op == GreaterThan)
    ensures ParseText(key + (OperatorText(op) + v)) == Err(InvalidValues)
  {
    hide Scan, IsIdentifier, KeywordOrIdent, Ends, ParseAll, IsInt64, OperatorText, ParseKey, IsLabelKey, KeyItem, SymbolItem;
    var r := Requirement(key, op, [v]);
    assert v + "" == v;
    OperatorFollows(op, v + "");
    ScanIdentifier(key, OperatorText(op) + (v + ""));
    ScanSingle(op, v, "");
    ScanNothing();
    KeyItemIs(r);
    JustEnd();
    var us := [Item(KeywordOrIdent(v), v)] + [END];
    ParseSingleBack(v, [END]);
    OperatorBack(op, us);
    ParseKeyBack(r, [SymbolItem(op)] + us);
    ParseAllEnds([KeyItem(r)] + ([SymbolItem(op)] + us), []);
  }

  // ----- What the operators are -----

  lemma OneRequirement(r: Requirement)
    requires Printable(r)
    ensures ParseText(Print(r)) == Ok([r])
  {
    hide ParseText, Print, Printable;
    assert AllPrintable([r]);
    RoundTrip([r], ",");
    JoinPrinted([r], ",");
  }

  lemma SinglePrint(key: string, op: Operator, v: string)
    requires TakesOne(op)
    ensures Print(Requirement(key, op, [v])) == key + OperatorText(op) + v
  {
    SingleText(Requirement(key, op, [v]), "");
    assert Print(Requirement(key, op, [v])) + "" == Print(Requirement(key, op, [v])) && v + "" == v;
    assert key + (OperatorText(op) + v) == key + OperatorText(op) + v;
  }

  lemma SingleParses(key: string, op: Operator, v: string)
    requires IsIdentifier(key) && IsIdentifier(v) && TakesOne(op) && (op in {LessThan, GreaterThan} ==> IsInt64(v))
    ensures ParseText(key + OperatorText(op) + v) == Ok([Requirement(key, op, [v])])
  {
    hide ParseText, IsIdentifier, IsInt64, OperatorText, IsLabelKey, Print;
    var r := Requirement(key, op, [v]);
    SinglePrint(key, op, v);
    assert Printable(r);
    OneRequirement(r);
  }

  /** The operators with one value, as they are written. */
  lemma SingleOperators(key: string, v: string)
    requires IsIdentifier(key) && IsIdentifier(v)
    ensures ParseText(key + "=" + v) == Ok([Requirement(key, Equals, [v])])
    ensures ParseText(key + "==" + v) == Ok([Requirement(key, DoubleEquals, [v])])
    ensures ParseText(key + "!=" + v) == Ok([Requirement(key, NotEquals, [v])])
    ensures ParseText(key + "~" + v) == Ok([Requirement(key, PartialEquals, [v])])
    ensures ParseText(key + "!~" + v) == Ok([Requirement(key, NotPartialEquals, [v])])
    ensures IsInt64(v) ==> ParseText(key + ">" + v) == Ok([Requirement(key, GreaterThan, [v])])
    ensures IsInt64(v) ==> ParseText(key + "<" + v) == Ok([Requirement(key, LessThan, [v])])
  {
    hide ParseText, IsIdentifier, IsInt64;
    SingleParses(key, Equals, v);
    SingleParses(key, DoubleEquals, v);
    SingleParses(key, NotEquals, v);
    SingleParses(key, PartialEquals, v);
    SingleParses(key, NotPartialEquals, v);
    if IsInt64(v) {
      SingleParses(key, GreaterThan, v);
      SingleParses(key, LessThan, v);
    }
  }

  /** A label alone asks for its existence, with a bang for its absence. */
  lemma ExistenceOperators(key: string)
    requires IsIdentifier(key) && IsLabelKey(key)
    ensures ParseText(key) == Ok([Requirement(key, Exists, [])])
    ensures ParseText("!" + key) == Ok([Requirement(key, DoesNotExist, [])])
  {
    hide ParseText, IsIdentifier, IsLabelKey;
    OneRequirement(Requirement(key, Exists, []));
    OneRequirement(Requirement(key, DoesNotExist, []));
    assert Print(Requirement(key, Exists, [])) == key;
    assert Print(Requirement(key, DoesNotExist, [])) == "!" + key;
  }
}
