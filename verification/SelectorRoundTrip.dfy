/** Parsing the printed form of requirements gives the requirements back. */
module SelectorRoundTrip {
  import opened Prelude
  import opened SelectorLexer
  import opened SelectorParser

  /** Text that is read as one identifier or keyword. */
  predicate IsIdentifier(v: string) {
    v != "" && IsIdentStart(v[0]) && forall i :: 0 <= i < |v| ==> !Stops(v[i])
  }

  /** Requirements the constructor accepts, with values as a set lists them, all of them identifiers;
      sets may also hold the empty string; existence is tested for labels only. */
  ghost predicate Printable(r: Requirement) {
    && NewRequirement(r.key, r.op, r.values).Ok?
    && Ascending(r.values)
    && IsIdentifier(r.key)
    && (forall v :: v in r.values ==> IsIdentifier(v) || (v == "" && IsSetOp(r.op)))
    && (IsExistence(r.op) ==> IsLabelKey(r.key))
  }

  // ----- Scanning -----

  /** What may follow an identifier. */
  predicate Follows(rest: string) { rest == "" || IsSpecial(rest[0]) || IsBlank(rest[0]) }

  lemma FollowsStops(rest: string)
    requires Follows(rest)
    ensures rest == "" || (Stops(rest[0]) && rest[0] != NUL)
  {
  }

  lemma {:induction false} IdentScanned(v: string, rest: string, buffer: string)
    requires (forall i :: 0 <= i < |v| ==> !Stops(v[i])) && Follows(rest)
    ensures ScanIdent(v + rest, buffer) == Lexed(Item(KeywordOrIdent(buffer + v), buffer + v), rest)
  {
    hide Stops, KeywordOrIdent;
    FollowsStops(rest);
    NulStops();
    if v == "" {
      assert v + rest == rest && buffer + v == buffer;
    } else {
      assert (v + rest)[0] == v[0] && (v + rest)[1..] == v[1..] + rest;
      IdentScanned(v[1..], rest, buffer + [v[0]]);
      assert buffer + [v[0]] + v[1..] == buffer + v;
    }
  }

  lemma NulStops()
    ensures Stops(NUL)
  {
  }

  lemma StartPlain(c: char)
    requires IsIdentStart(c)
    ensures !IsBlank(c) && !IsSpecial(c) && c != NUL && !IsSpecial(LowerChar(c))
  {
  }

  /** An identifier is never taken for a symbol. */
  lemma KeywordIsValue(v: string)
    requires IsIdentifier(v)
    ensures AsValue(KeywordOrIdent(v)) == Ident
  {
    StartPlain(v[0]);
    assert Fold(v) != "" && !IsSpecial(Fold(v)[0]);
  }

  /** An identifier at the start of the input is the first item. */
  lemma ScanIdentifier(v: string, rest: string)
    requires IsIdentifier(v) && Follows(rest)
    ensures Scan(v + rest) == [Item(KeywordOrIdent(v), v)] + Scan(rest)
    ensures AsValue(KeywordOrIdent(v)) == Ident
  {
    hide ScanIdent, KeywordOrIdent, IsIdentStart;
    StartPlain(v[0]);
    IdentScanned(v, rest, "");
    KeywordIsValue(v);
    assert "" + v == v;
    assert SkipBlanks(v + rest) == v + rest;
  }

  /** The symbol is not the start of a longer one. */
  predicate EndsSymbol(symbol: string, rest: string) {
    rest == "" || (rest[0] != NUL && (!IsSpecial(rest[0]) || TokenOf(symbol + [rest[0]]).None?))
  }

  lemma SymbolDoneHere(rest: string, symbol: string, item: Item)
    requires EndsSymbol(symbol, rest) && item.tok != EndTok
    ensures ScanSymbol(rest, symbol, Some(item)) == Lexed(item, rest)
  {
    hide TokenOf, IsSpecial;
  }

  lemma ScanShort(c: char, rest: string)
    requires IsSpecial(c) && EndsSymbol([c], rest)
    ensures TokenOf([c]).Some? && Scan([c] + rest) == [Item(TokenOf([c]).value, [c])] + Scan(rest)
  {
    hide TokenOf;
    SpecialIsToken(c);
    var r := [c] + rest;
    var item := Item(TokenOf([c]).value, [c]);
    assert SkipBlanks(r) == r && r[1..] == rest && "" + [c] == [c];
    SymbolDoneHere(rest, [c], item);
    assert ScanSymbol(r, "", None) == ScanSymbol(rest, [c], Some(item));
  }

  lemma SpecialIsToken(c: char)
    requires IsSpecial(c)
    ensures TokenOf([c]).Some? && TokenOf([c]).value != EndTok && !IsBlank(c)
  {
  }

  lemma ScanLong(symbol: string, rest: string)
    requires symbol in {"==", "!=", "!~"} && EndsSymbol(symbol, rest)
    ensures TokenOf(symbol).Some? && Scan(symbol + rest) == [Item(TokenOf(symbol).value, symbol)] + Scan(rest)
  {
    hide EndsSymbol, SymbolDone, TokenOf;
    LongTokens(symbol);
    var r := symbol + rest;
    var item := Item(TokenOf(symbol).value, symbol);
    SymbolDoneHere(rest, symbol, item);
    assert r[1..][0] == symbol[1] && r[1..][1..] == rest;
    TwoSteps(r, symbol, item, Item(TokenOf([symbol[0]]).value, [symbol[0]]));
    assert SkipBlanks(r) == r;
  }

  lemma LongTokens(symbol: string)
    requires symbol in {"==", "!=", "!~"}
    ensures |symbol| == 2 && IsSpecial(symbol[0]) && IsSpecial(symbol[1])
    ensures TokenOf(symbol).Some? && TokenOf(symbol).value != EndTok
    ensures TokenOf([symbol[0]]).Some? && TokenOf([symbol[0]]).value != EndTok
  {
    assert symbol[0] in {'=', '!'};
  }

  lemma {:induction false} TwoSteps(r: string, symbol: string, item: Item, first: Item)
    requires |symbol| == 2 <= |r| && r[0] == symbol[0] && r[1] == symbol[1]
    requires IsSpecial(symbol[0]) && IsSpecial(symbol[1])
    requires TokenOf([symbol[0]]) == Some(first.tok) && first.lit == [symbol[0]] && first.tok != EndTok
    requires TokenOf(symbol) == Some(item.tok) && item.lit == symbol && item.tok != EndTok
    ensures ScanSymbol(r, "", None) == ScanSymbol(r[1..][1..], symbol, Some(item))
  {
    hide TokenOf, SymbolDone;
    assert "" + [symbol[0]] == [symbol[0]] && [symbol[0]] + [symbol[1]] == symbol;
    assert ScanSymbol(r, "", None) == ScanSymbol(r[1..], [symbol[0]], Some(first));
    assert ScanSymbol(r[1..], [symbol[0]], Some(first)) == ScanSymbol(r[1..][1..], symbol, Some(item));
  }

  lemma ScanBlank(rest: string)
    ensures Scan(" " + rest) == Scan(rest)
  {
    assert (" " + rest)[1..] == rest;
    assert SkipBlanks(" " + rest) == SkipBlanks(rest);
    assert LexOne(" " + rest) == LexOne(rest);
  }

  // ----- Quoted strings -----

  /** Delimiters and backslashes escaped. */
  function Quote(v: string, delim: char): string {
    if v == "" then ""
    else (if v[0] == delim || v[0] == '\\' then ['\\', v[0]] else [v[0]]) + Quote(v[1..], delim)
  }

  lemma {:induction false} QuotedScanned(v: string, delim: char, rest: string, buffer: string)
    requires NUL !in v && delim != NUL && delim != '\\'
    ensures ScanQuoted(Quote(v, delim) + ([delim] + rest), delim, buffer, false) == Lexed(Item(Quoted, buffer + v), rest)
  {
    var r := Quote(v, delim) + ([delim] + rest);
    if v == "" {
      assert r == [delim] + rest && buffer + v == buffer;
      assert r[1..] == rest;
    } else {
      var tail := Quote(v[1..], delim) + ([delim] + rest);
      QuotedScanned(v[1..], delim, rest, buffer + [v[0]]);
      assert buffer + [v[0]] + v[1..] == buffer + v;
      if v[0] == delim || v[0] == '\\' {
        assert r == ['\\'] + ([v[0]] + tail);
        assert r[1..] == [v[0]] + tail && ([v[0]] + tail)[1..] == tail;
        assert ScanQuoted(r, delim, buffer, false) == ScanQuoted(r[1..], delim, buffer, true);
        assert ScanQuoted(r[1..], delim, buffer, true) == ScanQuoted(tail, delim, buffer + [v[0]], false);
      } else {
        assert r == [v[0]] + tail;
        assert r[1..] == tail;
      }
    }
  }

  /** Any text without NUL can be written as a quoted string, and is read back as it was. */
  lemma QuotedReadsBack(v: string, delim: char, rest: string)
    requires NUL !in v && delim in {'"', '\''}
    ensures Scan([delim] + (Quote(v, delim) + ([delim] + rest))) == [Item(Quoted, v)] + Scan(rest)
  {
    hide ScanQuoted, Quote;
    var inner := Quote(v, delim) + ([delim] + rest);
    QuotedScanned(v, delim, rest, "");
    assert "" + v == v && ([delim] + inner)[1..] == inner;
    assert SkipBlanks([delim] + inner) == [delim] + inner;
  }

  // ----- Requirements as items -----

  function ValueItem(v: string): seq<Item> { if v == "" then [] else [Item(KeywordOrIdent(v), v)] }

  const COMMA := Item(Comma, ",")
  const CLOSED := Item(ClosedPar, ")")
  const OPEN := Item(OpenPar, "(")

  /** The items of a list of values, followed by `more`. */
  function ValuesThen(vs: seq<string>, more: seq<Item>): seq<Item>
    requires vs != []
  {
    ValueItem(vs[0]) + if |vs| == 1 then [CLOSED] + more else [COMMA] + ValuesThen(vs[1..], more)
  }

  function SymbolItem(op: Operator): Item {
    match op
    case Equals => Item(EqualTok, "=")
    case DoubleEquals => Item(DoubleEq, "==")
    case NotEquals => Item(NotEqTok, "!=")
    case PartialEquals => Item(PartialTok, "~")
    case NotPartialEquals => Item(NotPartialTok, "!~")
    case GreaterThan => Item(GreaterTok, ">")
    case LessThan => Item(LessTok, "<")
    case In => Item(InTok, "in")
    case NotIn => Item(NotInTok, "notin")
    case Exists | DoesNotExist => Item(Bang, "!")
  }

  function KeyItem(r: Requirement): Item { Item(KeywordOrIdent(r.key), r.key) }

  /** The items of a requirement, followed by `more`. */
  function RequirementThen(r: Requirement, more: seq<Item>): seq<Item>
    requires IsExistence(r.op) || r.values != []
  {
    match r.op
    case Exists => [KeyItem(r)] + more
    case DoesNotExist => [SymbolItem(r.op)] + ([KeyItem(r)] + more)
    case In | NotIn => [KeyItem(r)] + ([SymbolItem(r.op)] + ([OPEN] + ValuesThen(r.values, more)))
    case _ => [KeyItem(r)] + ([SymbolItem(r.op)] + ([Item(KeywordOrIdent(r.values[0]), r.values[0])] + more))
  }

  predicate IsValue(v: string) { v == "" || IsIdentifier(v) }

  /** A comma or the end of the text comes after a requirement. */
  predicate Separated(rest: string) { rest == "" || rest[0] == ',' }

  lemma NeverLonger(c: char, rest: string)
    requires c in {'(', ')', ','} && (rest == "" || rest[0] != NUL)
    ensures EndsSymbol([c], rest)
  {
    if rest != "" {
      var pair := [c] + [rest[0]];
      assert |pair| == 2 && pair[0] == c;
    }
  }

  lemma ScanComma(rest: string)
    requires rest == "" || rest[0] != NUL
    ensures Scan("," + rest) == [COMMA] + Scan(rest)
  {
    hide Scan;
    NeverLonger(',', rest);
    ScanShort(',', rest);
  }

  lemma ScanClosed(rest: string)
    requires Separated(rest)
    ensures Scan(")" + rest) == [CLOSED] + Scan(rest)
  {
    hide Scan;
    NeverLonger(')', rest);
    ScanShort(')', rest);
  }

  lemma ScanOpen(rest: string)
    requires rest == "" || rest[0] != NUL
    ensures Scan("(" + rest) == [OPEN] + Scan(rest)
  {
    hide Scan;
    NeverLonger('(', rest);
    ScanShort('(', rest);
  }

  lemma IdentifierStart(v: string)
    requires IsIdentifier(v)
    ensures !IsSpecial(v[0]) && v[0] != NUL && !IsBlank(v[0])
  {
    StartPlain(v[0]);
  }

  lemma JoinStart(vs: seq<string>, rest: string)
    requires vs != [] && (forall v :: v in vs ==> IsValue(v)) && rest != "" && rest[0] != NUL
    ensures Join(vs, ",") + rest != "" && (Join(vs, ",") + rest)[0] != NUL
  {
    assert IsValue(vs[0]);
    if vs[0] != "" {
      IdentifierStart(vs[0]);
    }
  }

  lemma {:induction false} ScanValues(vs: seq<string>, rest: string)
    requires vs != [] && (forall v :: v in vs ==> IsValue(v)) && Separated(rest)
    ensures Scan(Join(vs, ",") + (")" + rest)) == ValuesThen(vs, Scan(rest))
  {
    hide Scan, IsIdentifier, KeywordOrIdent, IsValue, ValueItem;
    assert IsValue(vs[0]);
    if |vs| == 1 {
      ScanClosed(rest);
      ScanValue(vs[0], ')', rest);
    } else {
      var tail := Join(vs[1..], ",") + (")" + rest);
      ScanValues(vs[1..], rest);
      JoinStart(vs[1..], ")" + rest);
      ScanComma(tail);
      ScanValue(vs[0], ',', tail);
      assert Join(vs, ",") + (")" + rest) == vs[0] + ("," + tail);
    }
  }

  lemma ScanValue(v: string, c: char, rest: string)
    requires IsValue(v) && IsSpecial(c)
    ensures Scan(v + ([c] + rest)) == ValueItem(v) + Scan([c] + rest)
  {
    hide Scan, IsIdentifier, KeywordOrIdent;
    if v == "" {
      assert v + ([c] + rest) == [c] + rest;
    } else {
      ScanIdentifier(v, [c] + rest);
    }
  }

  /** =v, !=v, ... */
  lemma ScanSingle(op: Operator, v: string, rest: string)
    requires !IsSetOp(op) && !IsExistence(op) && IsIdentifier(v) && Separated(rest)
    ensures Scan(OperatorText(op) + (v + rest)) == [SymbolItem(op)] + ([Item(KeywordOrIdent(v), v)] + Scan(rest))
  {
    hide Scan, KeywordOrIdent, OperatorText, SymbolItem;
    IdentifierStart(v);
    ScanIdentifier(v, rest);
    assert (v + rest)[0] == v[0];
    ScanOperator(op, v + rest);
  }

  lemma ScanOperator(op: Operator, after: string)
    requires !IsSetOp(op) && !IsExistence(op) && EndsSymbol(OperatorText(op), after)
    ensures Scan(OperatorText(op) + after) == [SymbolItem(op)] + Scan(after)
  {
    hide Scan, EndsSymbol;
    var symbol := OperatorText(op);
    assert op.Equals? || op.DoubleEquals? || op.NotEquals? || op.PartialEquals? || op.NotPartialEquals?
      || op.GreaterThan? || op.LessThan?;
    if |symbol| == 1 {
      assert symbol == [symbol[0]];
      ScanShort(symbol[0], after);
    } else {
      ScanLong(symbol, after);
    }
  }

  predicate Lowercase(s: string) { forall i :: 0 <= i < |s| ==> 'a' <= s[i] <= 'z' }

  lemma LowercaseIdentifier(s: string)
    requires s != "" && Lowercase(s)
    ensures IsIdentifier(s)
  {
  }

  lemma {:induction false} FoldSame(s: string)
    requires Lowercase(s)
    ensures Fold(s) == s
  {
    if s != "" {
      FoldSame(s[1..]);
    }
  }

  lemma KeywordTokens()
    ensures KeywordOrIdent("in") == InTok && KeywordOrIdent("notin") == NotInTok
    ensures IsIdentifier("in") && IsIdentifier("notin")
  {
    hide Fold, IsIdentifier;
    FoldSame("in");
    FoldSame("notin");
    LowercaseIdentifier("in");
    LowercaseIdentifier("notin");
  }

  /** in (v,...) */
  lemma ScanSet(op: Operator, vs: seq<string>, rest: string)
    requires IsSetOp(op) && vs != [] && (forall v :: v in vs ==> IsValue(v)) && Separated(rest)
    ensures Scan(OperatorText(op) + ("(" + (Join(vs, ",") + (")" + rest)))) ==
            [SymbolItem(op)] + ([OPEN] + ValuesThen(vs, Scan(rest)))
  {
    hide Scan, KeywordOrIdent, IsIdentifier, Fold, ValuesThen, Join;
    var list := Join(vs, ",") + (")" + rest);
    var word := SymbolItem(op).lit;
    KeywordTokens();
    ScanValues(vs, rest);
    JoinStart(vs, ")" + rest);
    ScanOpen(list);
    ScanBlank("(" + list);
    ScanIdentifier(word, " " + ("(" + list));
    ScanBlank(word + (" " + ("(" + list)));
    assert OperatorText(op) + ("(" + list) == " " + (word + (" " + ("(" + list)));
  }

  lemma {:induction false} SortedIsSame(xs: seq<string>)
    requires Ascending(xs)
    ensures Sorted(xs) == xs
  {
    if xs != [] {
      SortedIsSame(xs[1..]);
      if |xs| > 1 {
        assert Before(xs[0], xs[1]);
        BeforeTotal(xs[0], xs[1]);
      }
    }
  }

  lemma ValuesTextIs(r: Requirement)
    requires Ascending(r.values) && r.values != []
    ensures ValuesText(r) == Join(r.values, ",")
  {
    SortedIsSame(r.values);
  }

  lemma SetText(r: Requirement, rest: string)
    requires IsSetOp(r.op)
    ensures Print(r) + rest == r.key + (OperatorText(r.op) + ("(" + (ValuesText(r) + (")" + rest))))
  {
    hide ValuesText, OperatorText;
    assert Print(r) == r.key + (OperatorText(r.op) + ("(" + ValuesText(r) + ")"));
  }

  lemma SingleText(r: Requirement, rest: string)
    requires !IsSetOp(r.op) && !IsExistence(r.op)
    ensures Print(r) + rest == r.key + (OperatorText(r.op) + (ValuesText(r) + rest))
  {
    hide ValuesText, OperatorText;
    assert Print(r) == r.key + (OperatorText(r.op) + ValuesText(r));
  }

  lemma ExistenceText(r: Requirement, rest: string)
    requires IsExistence(r.op)
    ensures Print(r) + rest == if r.op == DoesNotExist then "!" + (r.key + rest) else r.key + rest
  {
  }

  lemma OperatorFollows(op: Operator, rest: string)
    requires !IsExistence(op)
    ensures Follows(OperatorText(op) + rest)
  {
    assert OperatorText(op) != "" && (OperatorText(op) + rest)[0] == OperatorText(op)[0];
  }

  lemma ScanRequirement(r: Requirement, rest: string)
    requires Printable(r) && Separated(rest)
    ensures Scan(Print(r) + rest) == RequirementThen(r, Scan(rest))
  {
    hide Scan, KeywordOrIdent, IsIdentifier, Ascending, Print, ValuesText, OperatorText, IsLabelKey, ValuesThen, Join;
    if IsExistence(r.op) {
      ExistenceText(r, rest);
      ScanIdentifier(r.key, rest);
      if r.op == DoesNotExist {
        ScanNot(r.key, rest);
      }
    } else {
      ValuesTextIs(r);
      if IsSetOp(r.op) {
        SetText(r, rest);
        OperatorFollows(r.op, "(" + (ValuesText(r) + (")" + rest)));
        ScanIdentifier(r.key, OperatorText(r.op) + ("(" + (ValuesText(r) + (")" + rest))));
        ScanSet(r.op, r.values, rest);
      } else {
        OneValue(r);
        SingleText(r, rest);
        OperatorFollows(r.op, ValuesText(r) + rest);
        ScanIdentifier(r.key, OperatorText(r.op) + (ValuesText(r) + rest));
        ScanSingle(r.op, r.values[0], rest);
      }
    }
  }

  lemma OneValue(r: Requirement)
    requires NewRequirement(r.key, r.op, r.values).Ok? && !IsSetOp(r.op) && !IsExistence(r.op)
    ensures |r.values| == 1 && ValuesText(r) == r.values[0]
  {
  }

  lemma ScanNot(key: string, rest: string)
    requires IsIdentifier(key)
    ensures Scan("!" + (key + rest)) == [SymbolItem(DoesNotExist)] + Scan(key + rest)
  {
    hide Scan;
    IdentifierStart(key);
    assert (key + rest)[0] == key[0];
    ScanShort('!', key + rest);
  }

  // ----- Whole texts -----

  const END := Item(EndTok, "")

  ghost predicate AllPrintable(rs: seq<Requirement>) { forall i :: 0 <= i < |rs| ==> Printable(rs[i]) }

  function AllItems(rs: seq<Requirement>): seq<Item>
    requires forall i :: 0 <= i < |rs| ==> IsExistence(rs[i].op) || rs[i].values != []
  {
    if rs == [] then [END]
    else if |rs| == 1 then RequirementThen(rs[0], [END])
    else RequirementThen(rs[0], [COMMA] + AllItems(rs[1..]))
  }

  lemma HasValues(r: Requirement)
    requires Printable(r)
    ensures IsExistence(r.op) || r.values != []
  {
  }

  lemma PrintStart(r: Requirement)
    requires Printable(r)
    ensures Print(r) != "" && Print(r)[0] != NUL
  {
    IdentifierStart(r.key);
  }

  lemma JoinPrinted(rs: seq<Requirement>, sep: string)
    requires rs != []
    ensures Join(Printed(rs), sep) ==
            if |rs| == 1 then Print(rs[0]) else Print(rs[0]) + (sep + Join(Printed(rs[1..]), sep))
  {
    hide Print;
    assert Printed(rs)[1..] == Printed(rs[1..]);
  }

  lemma {:induction false} ScanPrinted(rs: seq<Requirement>, sep: string)
    requires AllPrintable(rs) && sep in {",", ", "}
    ensures forall i :: 0 <= i < |rs| ==> IsExistence(rs[i].op) || rs[i].values != []
    ensures Scan(Join(Printed(rs), sep)) == AllItems(rs)
  {
    hide Scan, Print, Printable, RequirementThen, Join;
    forall i | 0 <= i < |rs| ensures IsExistence(rs[i].op) || rs[i].values != [] {
      HasValues(rs[i]);
    }
    ScanNothing();
    if rs == [] {
      NothingJoined(sep);
    } else {
      JoinPrinted(rs, sep);
      if |rs| == 1 {
        assert Print(rs[0]) + "" == Print(rs[0]);
        ScanRequirement(rs[0], "");
      } else {
        var tail := Join(Printed(rs[1..]), sep);
        ScanPrinted(rs[1..], sep);
        PrintStart(rs[1]);
        JoinPrinted(rs[1..], sep);
        assert tail != "" && tail[0] != NUL;
        ScanSeparator(sep, tail);
        ScanRequirement(rs[0], sep + tail);
      }
    }
  }

  lemma NothingJoined(sep: string)
    ensures Join(Printed([]), sep) == ""
  {
  }

  lemma ScanNothing()
    ensures Scan("") == [END]
  {
  }

  lemma ScanSeparator(sep: string, tail: string)
    requires sep in {",", ", "} && tail != "" && tail[0] != NUL
    ensures Scan(sep + tail) == [COMMA] + Scan(tail)
  {
    hide Scan;
    if sep == "," {
      ScanComma(tail);
    } else {
      assert sep + tail == "," + (" " + tail);
      ScanComma(" " + tail);
      ScanBlank(tail);
    }
  }

  // ----- Parsing the items -----

  lemma EndsCons(t: Item, ts: seq<Item>)
    requires t.tok != EndTok && Ends(ts)
    ensures Ends([t] + ts) && ([t] + ts)[0] == t && ([t] + ts)[1..] == ts
  {
  }

  lemma KeyIsValue(r: Requirement)
    requires IsIdentifier(r.key)
    ensures AsValue(KeyItem(r).tok) == Ident && KeyItem(r).tok != EndTok
  {
    KeywordIsValue(r.key);
  }

  lemma {:induction false} InsertLast(xs: seq<string>, x: string)
    requires Ascending(xs + [x])
    ensures Insert(xs, x) == xs + [x]
  {
    if xs != [] {
      assert (xs + [x])[|xs|] == x && (xs + [x])[0] == xs[0];
      BeforeTotal(xs[0], x);
      assert xs[1..] + [x] == (xs + [x])[1..];
      InsertLast(xs[1..], x);
    }
  }

  /** The first item of a non-empty value and what comes after it. */
  lemma ValueAhead(v: string, ts: seq<Item>)
    requires IsIdentifier(v) && Ends(ts)
    ensures var us := ValueItem(v) + ts;
            Ends(us) && AsValue(us[0].tok) == Ident && us[0].lit == v && us[1..] == ts
  {
    hide KeywordOrIdent, Stops, IsIdentStart;
    KeywordIsValue(v);
    EndsCons(Item(KeywordOrIdent(v), v), ts);
  }

  lemma {:induction false} ValuesEnd(vs: seq<string>, more: seq<Item>)
    requires vs != [] && (forall v :: v in vs ==> IsValue(v)) && Ends(more)
    ensures Ends(ValuesThen(vs, more))
  {
    hide IsIdentifier, KeywordOrIdent, Ends;
    assert IsValue(vs[0]);
    var ts := if |vs| == 1 then [CLOSED] + more else [COMMA] + ValuesThen(vs[1..], more);
    if |vs| == 1 {
      EndsCons(CLOSED, more);
    } else {
      ValuesEnd(vs[1..], more);
      EndsCons(COMMA, ValuesThen(vs[1..], more));
    }
    if vs[0] == "" {
      assert ValueItem(vs[0]) + ts == ts;
    } else {
      ValueAhead(vs[0], ts);
    }
  }

  /** Reading a list of non-empty values, one after the other. */
  lemma {:induction false} ParseIdentsBack(seen: seq<string>, vs: seq<string>, more: seq<Item>)
    requires vs != [] && (forall v :: v in vs ==> IsIdentifier(v)) && Ends(more)
    requires Ascending(seen + vs)
    ensures Ends(ValuesThen(vs, more))
    ensures ParseIdents(ValuesThen(vs, more), seen) == Ok(Parsed(seen + vs, [CLOSED] + more))
    decreases |vs|
  {
    hide IsIdentifier, Ends, KeywordOrIdent, Insert, Ascending;
    ValuesEnd(vs, more);
    var v := vs[0];
    var ts := if |vs| == 1 then [CLOSED] + more else [COMMA] + ValuesThen(vs[1..], more);
    var us := ValuesThen(vs, more);
    assert us == ValueItem(v) + ts;
    InsertNext(seen, vs);
    if |vs| == 1 {
      assert seen + vs == seen + [v];
      EndsCons(CLOSED, more);
      ValueAhead(v, ts);
    } else {
      assert seen + [v] + vs[1..] == seen + vs;
      ParseIdentsBack(seen + [v], vs[1..], more);
      EndsCons(COMMA, ValuesThen(vs[1..], more));
      ValueAhead(v, ts);
      NextIsValue(vs[1..], more);
      AfterComma(ValuesThen(vs[1..], more), seen + [v]);
      assert ParseIdents(us, seen) == ParseIdents(ts, seen + [v]);
    }
  }

  lemma InsertNext(seen: seq<string>, vs: seq<string>)
    requires vs != [] && Ascending(seen + vs)
    ensures Insert(seen, vs[0]) == seen + [vs[0]]
  {
    hide Insert;
    assert seen + [vs[0]] == (seen + vs)[..|seen| + 1];
    InsertLast(seen, vs[0]);
  }

  lemma NextIsValue(vs: seq<string>, more: seq<Item>)
    requires vs != [] && IsIdentifier(vs[0]) && Ends(more)
    ensures AsValue(ValuesThen(vs, more)[0].tok) == Ident
  {
    hide KeywordOrIdent, Stops, IsIdentStart;
    KeywordIsValue(vs[0]);
  }

  /** A comma between two values changes nothing. */
  lemma AfterComma(us: seq<Item>, seen: seq<string>)
    requires Ends(us) && AsValue(us[0].tok) == Ident && seen != []
    ensures Ends([COMMA] + us) && ParseIdents([COMMA] + us, seen) == ParseIdents(us, seen)
  {
    hide Ends, Insert;
    EndsCons(COMMA, us);
  }

  /** A leading comma stands for the empty value. */
  lemma LeadingComma(us: seq<Item>)
    requires Ends(us) && AsValue(us[0].tok) == Ident
    ensures Ends([COMMA] + us) && ParseIdents([COMMA] + us, []) == ParseIdents(us, [""])
  {
    hide Ends;
    EndsCons(COMMA, us);
    assert Insert([], "") == [""];
  }

  lemma ParseSetBack(vs: seq<string>, more: seq<Item>)
    requires vs != [] && (forall v :: v in vs ==> IsValue(v)) && Ascending(vs) && Ends(more)
    ensures Ends([OPEN] + ValuesThen(vs, more))
    ensures ParseSet([OPEN] + ValuesThen(vs, more)) == Ok(Parsed(vs, more))
  {
    hide IsIdentifier, Ends, KeywordOrIdent, ParseIdents, Ascending;
    ValuesEnd(vs, more);
    var us := ValuesThen(vs, more);
    EndsCons(OPEN, us);
    EndsCons(CLOSED, more);
    if vs == [""] {
      assert us == [CLOSED] + more;
      assert ([OPEN] + us)[2..] == more;
    } else {
      OnlyFirstEmpty(vs);
      if vs[0] == "" {
        assert us == [COMMA] + ValuesThen(vs[1..], more);
        assert [""] + vs[1..] == vs;
        ParseIdentsBack([""], vs[1..], more);
        NextIsValue(vs[1..], more);
        LeadingComma(ValuesThen(vs[1..], more));
      } else {
        assert [] + vs == vs;
        ParseIdentsBack([], vs, more);
        NextIsValue(vs, more);
      }
    }
  }

  lemma OnlyFirstEmpty(vs: seq<string>)
    requires Ascending(vs) && (forall v :: v in vs ==> IsValue(v)) && vs != []
    ensures forall v :: v in vs[1..] ==> IsIdentifier(v)
    ensures vs[0] != "" ==> IsIdentifier(vs[0])
    ensures vs[0] == "" && vs != [""] ==> |vs| > 1
  {
    hide IsIdentifier;
    assert IsValue(vs[0]);
    forall v | v in vs[1..] ensures IsIdentifier(v) {
      var i :| 0 <= i < |vs[1..]| && vs[1..][i] == v;
      assert Before(vs[0], vs[i + 1]) && IsValue(v);
    }
  }

  lemma ParseSingleBack(v: string, more: seq<Item>)
    requires IsIdentifier(v) && Ends(more)
    ensures Ends([Item(KeywordOrIdent(v), v)] + more)
    ensures ParseSingle([Item(KeywordOrIdent(v), v)] + more) == Ok(Parsed([v], more))
  {
    hide IsIdentifier, Ends, KeywordOrIdent;
    KeywordIsValue(v);
    EndsCons(Item(KeywordOrIdent(v), v), more);
  }

  /** A comma or the end item comes after a requirement. */
  predicate AfterRequirement(more: seq<Item>) { more != [] && more[0].tok in {EndTok, Comma} }

  /** The key of a requirement is read back; whether an operator follows decides what comes next. */
  lemma ParseKeyBack(r: Requirement, more: seq<Item>)
    requires IsIdentifier(r.key) && Ends(more) && r.op != DoesNotExist
    requires r.op == Exists <==> AsValue(more[0].tok) in {EndTok, Comma}
    ensures var ts := [KeyItem(r)] + more;
            && Ends(ts) && AsValue(ts[0].tok) == Ident
            && ParseKey(ts) == Ok(Parsed(KeyOp(r.key, if r.op == Exists then Some(Exists) else None), more))
  {
    hide IsIdentifier, Ends, KeywordOrIdent;
    KeyIsValue(r);
    EndsCons(KeyItem(r), more);
  }

  lemma ParseNotBack(r: Requirement, more: seq<Item>)
    requires IsIdentifier(r.key) && Ends(more)
    ensures var ts := [SymbolItem(DoesNotExist)] + ([KeyItem(r)] + more);
            && Ends(ts) && ts[0].tok == Bang
            && ParseKey(ts) == Ok(Parsed(KeyOp(r.key, Some(DoesNotExist)), more))
  {
    hide IsIdentifier, Ends, KeywordOrIdent;
    KeyIsValue(r);
    EndsCons(KeyItem(r), more);
    EndsCons(SymbolItem(DoesNotExist), [KeyItem(r)] + more);
  }

  lemma OperatorBack(op: Operator, us: seq<Item>)
    requires !IsExistence(op) && Ends(us)
    ensures var ts := [SymbolItem(op)] + us;
            && Ends(ts) && ts[1..] == us && ts[0] == SymbolItem(op)
            && OperatorOf(ts[0]) == Some(op) && AsValue(ts[0].tok) !in {EndTok, Comma}
  {
    hide Ends;
    assert op.Equals? || op.DoubleEquals? || op.NotEquals? || op.PartialEquals? || op.NotPartialEquals?
      || op.GreaterThan? || op.LessThan? || op.In? || op.NotIn?;
    EndsCons(SymbolItem(op), us);
  }

  lemma ParseOneBack(r: Requirement, more: seq<Item>)
    requires Printable(r) && Ends(more) && AfterRequirement(more)
    ensures (IsExistence(r.op) || r.values != []) && Ends(RequirementThen(r, more))
    ensures AsValue(RequirementThen(r, more)[0].tok) in {Ident, Bang}
    ensures ParseOne(RequirementThen(r, more)) == Ok(Parsed(r, more))
  {
    hide IsIdentifier, Ends, KeywordOrIdent, Ascending, IsLabelKey, ParseKey, ParseSet, ParseSingle, KeyItem, SymbolItem,
      OperatorOf, ValuesThen;
    HasValues(r);
    if r.op == DoesNotExist {
      ParseNotBack(r, more);
    } else if r.op == Exists {
      ParseKeyBack(r, more);
    } else if IsSetOp(r.op) {
      var us := [OPEN] + ValuesThen(r.values, more);
      ParseSetBack(r.values, more);
      OperatorBack(r.op, us);
      ParseKeyBack(r, [SymbolItem(r.op)] + us);
    } else {
      OneValue(r);
      var us := [Item(KeywordOrIdent(r.values[0]), r.values[0])] + more;
      ParseSingleBack(r.values[0], more);
      OperatorBack(r.op, us);
      ParseKeyBack(r, [SymbolItem(r.op)] + us);
      assert [r.values[0]] == r.values;
    }
  }

  lemma {:induction false} ParseAllBack(seen: seq<Requirement>, rs: seq<Requirement>)
    requires AllPrintable(rs)
    ensures forall i :: 0 <= i < |rs| ==> IsExistence(rs[i].op) || rs[i].values != []
    ensures Ends(AllItems(rs)) && (rs != [] ==> AsValue(AllItems(rs)[0].tok) in {Ident, Bang})
    ensures ParseAll(AllItems(rs), seen) == Ok(seen + rs)
    decreases |rs|
  {
    hide Printable, ParseOne, RequirementThen;
    forall i | 0 <= i < |rs| ensures IsExistence(rs[i].op) || rs[i].values != [] {
      HasValues(rs[i]);
    }
    if rs == [] {
      assert seen + rs == seen;
    } else if |rs| == 1 {
      assert seen + rs == seen + [rs[0]];
      ParseOneBack(rs[0], [END]);
    } else {
      assert seen + [rs[0]] + rs[1..] == seen + rs;
      ParseAllBack(seen + [rs[0]], rs[1..]);
      EndsCons(COMMA, AllItems(rs[1..]));
      ParseOneBack(rs[0], [COMMA] + AllItems(rs[1..]));
    }
  }

  /** Parsing the printed form of any list of printable requirements gives the list back, with
      either separator the repository prints. */
  lemma RoundTrip(rs: seq<Requirement>, sep: string)
    requires AllPrintable(rs) && sep in {",", ", "}
    ensures ParseText(Join(Printed(rs), sep)) == Ok(rs)
  {
    hide Scan, ParseAll, AllItems, Join, Printed, Printable;
    ScanPrinted(rs, sep);
    ParseAllBack([], rs);
    assert [] + rs == rs;
  }
}
