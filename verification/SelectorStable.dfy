/** What the parser accepts, and when its printed form parses to the same requirements. */
module SelectorStable {
  import opened Prelude
  import opened SelectorLexer
  import opened SelectorParser
  import opened SelectorRoundTrip

  // ----- What the parser accepts -----

  predicate NoStops(s: string) { forall i :: 0 <= i < |s| ==> !Stops(s[i]) }

  lemma {:induction false} IdentText(r: string, buffer: string)
    requires NoStops(buffer)
    ensures NoStops(ScanIdent(r, buffer).item.lit) && buffer <= ScanIdent(r, buffer).item.lit
    decreases |r|
  {
    hide Stops, KeywordOrIdent;
    NulStops();
    if r != "" && !Stops(r[0]) {
      IdentText(r[1..], buffer + [r[0]]);
    }
  }

  lemma {:induction false} QuotedText(r: string, delim: char, buffer: string, escaped: bool)
    requires NUL !in buffer
    ensures var item := ScanQuoted(r, delim, buffer, escaped).item; item.tok == Quoted ==> NUL !in item.lit
    decreases |r|
  {
    if !AtEnd(r) {
      if escaped || r[0] !in {'\\', delim} {
        QuotedText(r[1..], delim, buffer + [r[0]], false);
      } else if r[0] == '\\' {
        QuotedText(r[1..], delim, buffer, true);
      }
    }
  }

  /** Items that read as identifiers are identifiers, and quoted strings hold no NUL. */
  predicate PlainItem(t: Item) {
    (AsValue(t.tok) == Ident ==> IsIdentifier(t.lit)) && (t.tok == Quoted ==> NUL !in t.lit)
  }

  predicate Plain(ts: seq<Item>) { forall i :: 0 <= i < |ts| ==> PlainItem(ts[i]) }

  lemma SymbolToken(s: string)
    requires s != "" && IsSpecial(s[0]) && TokenOf(s).Some?
    ensures AsValue(TokenOf(s).value) !in {Ident, Quoted}
  {
  }

  lemma {:induction false} SymbolPlain(r: string, buffer: string, last: Option<Item>)
    requires buffer == "" || IsSpecial(buffer[0])
    requires last.Some? ==> last.value.tok != EndTok && AsValue(last.value.tok) !in {Ident, Quoted}
    ensures AsValue(ScanSymbol(r, buffer, last).item.tok) !in {Ident, Quoted}
    decreases |r|
  {
    hide TokenOf, IsSpecial;
    if !AtEnd(r) && IsSpecial(r[0]) {
      var longer := buffer + [r[0]];
      assert IsSpecial(longer[0]);
      if TokenOf(longer).Some? {
        SymbolToken(longer);
        TokenNotEnd(longer);
        SymbolPlain(r[1..], longer, Some(Item(TokenOf(longer).value, longer)));
      } else if last.None? {
        SymbolPlain(r[1..], longer, last);
      }
    }
  }

  lemma TokenNotEnd(s: string)
    ensures TokenOf(s) != Some(EndTok)
  {
  }

  lemma LexPlain(input: string)
    ensures PlainItem(LexOne(input).item)
  {
    hide ScanIdent, ScanSymbol, ScanQuoted, Stops, IsIdentStart;
    var r := SkipBlanks(input);
    if !AtEnd(r) {
      if IsSpecial(r[0]) {
        SymbolPlain(r, "", None);
      } else if IsIdentStart(r[0]) {
        StartIdent(r);
      } else if r[0] in {'"', '\''} {
        QuotedText(r[1..], r[0], "", false);
        QuotedToken(r[1..], r[0]);
      }
    }
  }

  lemma QuotedToken(r: string, delim: char)
    ensures AsValue(ScanQuoted(r, delim, "", false).item.tok) != Ident
  {
  }

  lemma StartIdent(r: string)
    requires r != "" && IsIdentStart(r[0])
    ensures IsIdentifier(ScanIdent(r, "").item.lit) && ScanIdent(r, "").item.tok != Quoted
  {
    hide IsIdentStart, Stops, KeywordOrIdent;
    IdentStartGoesOn(r[0]);
    NulStops();
    assert "" + [r[0]] == [r[0]];
    IdentText(r[1..], [r[0]]);
    assert ScanIdent(r, "") == ScanIdent(r[1..], [r[0]]);
    KeywordIsValue(ScanIdent(r, "").item.lit);
  }

  lemma {:induction false} ScanPlain(input: string)
    ensures Plain(Scan(input))
    decreases |input|
  {
    hide LexOne, PlainItem;
    var l := LexOne(input);
    LexPlain(input);
    if l.item.tok != EndTok {
      ScanPlain(l.rest);
    }
  }

  /** Sets list their members in order. */
  ghost predicate Members(vs: seq<string>) { Ascending(vs) && forall v :: v in vs ==> IsValue(v) }

  lemma InsertMember(vs: seq<string>, v: string)
    requires Members(vs) && IsValue(v)
    ensures Members(Insert(vs, v)) && Insert(vs, v) != []
  {
    hide IsValue, Ascending, Insert;
    InsertKeeps(vs, v);
    assert v in Insert(vs, v);
  }

  lemma {:induction false} IdentsMembers(ts: seq<Item>, s: seq<string>)
    requires Ends(ts) && Plain(ts) && Members(s) && ParseIdents(ts, s).Ok?
    ensures Members(ParseIdents(ts, s).value.value) && ParseIdents(ts, s).value.value != []
    ensures Plain(ParseIdents(ts, s).value.rest)
    decreases |ts|
  {
    hide Members, IsIdentifier, Insert;
    EndsTail(ts);
    assert PlainItem(ts[0]);
    if AsValue(ts[0].tok) == Ident {
      InsertMember(s, ts[0].lit);
      if ts[1].tok == Comma {
        IdentsMembers(ts[1..], Insert(s, ts[0].lit));
      }
    } else {
      var s' := if s == [] then Insert(s, "") else s;
      InsertMember(s, "");
      InsertMember(s', "");
      if ts[1].tok == Comma {
        EndsTail(ts[1..]);
        IdentsMembers(ts[2..], Insert(s', ""));
      } else if ts[1].tok != ClosedPar {
        IdentsMembers(ts[1..], s');
      }
    }
  }

  lemma SetMembers(ts: seq<Item>)
    requires Ends(ts) && Plain(ts) && ParseSet(ts).Ok?
    ensures Members(ParseSet(ts).value.value) && Plain(ParseSet(ts).value.rest)
  {
    hide IsIdentifier, ParseIdents, Ends;
    EndsTail(ts);
    if AsValue(ts[1].tok) in {Ident, Comma} {
      IdentsMembers(ts[1..], []);
      var p := ParseIdents(ts[1..], []).value;
      EndsTail(p.rest);
      assert Plain(p.rest[1..]);
    } else {
      EndsTail(ts[1..]);
    }
  }

  lemma SingleMember(ts: seq<Item>)
    requires Ends(ts) && Plain(ts) && ParseSingle(ts).Ok?
    ensures var p := ParseSingle(ts).value; |p.value| == 1 && NUL !in p.value[0] && Plain(p.rest)
  {
    assert PlainItem(ts[0]);
  }

  lemma KeyPlain(ts: seq<Item>)
    requires Ends(ts) && Plain(ts) && AsValue(ts[0].tok) in {Ident, Bang} && ParseKey(ts).Ok?
    ensures IsIdentifier(ParseKey(ts).value.value.key) && Plain(ParseKey(ts).value.rest)
  {
    hide IsIdentifier;
    EndsTail(ts);
    assert PlainItem(ts[0]) && PlainItem(ts[1]);
  }

  /** An operator that takes one value. */
  predicate TakesOne(op: Operator) { !IsSetOp(op) && !IsExistence(op) }

  /** Printable but for a single value, which may be any text without NUL. */
  ghost predicate Parsable(r: Requirement) {
    && NewRequirement(r.key, r.op, r.values).Ok?
    && Ascending(r.values)
    && IsIdentifier(r.key)
    && (IsSetOp(r.op) ==> forall v :: v in r.values ==> IsValue(v))
    && (TakesOne(r.op) ==> NUL !in r.values[0])
    && (IsExistence(r.op) ==> IsLabelKey(r.key))
  }

  ghost predicate AllParsable(rs: seq<Requirement>) { forall i :: 0 <= i < |rs| ==> Parsable(rs[i]) }

  lemma PrintableIff(r: Requirement)
    requires Parsable(r)
    ensures TakesOne(r.op) ==> |r.values| == 1
    ensures Printable(r) <==> (TakesOne(r.op) ==> IsIdentifier(r.values[0]))
  {
    hide IsIdentifier, Ascending, IsLabelKey, IsInt64;
    if TakesOne(r.op) {
      OneValue(r);
      assert r.values[0] in r.values;
    }
  }

  /** Whatever the parser accepts is of this form. */
  lemma ParseOneParsable(ts: seq<Item>)
    requires Ends(ts) && Plain(ts) && AsValue(ts[0].tok) in {Ident, Bang} && ParseOne(ts).Ok?
    ensures Parsable(ParseOne(ts).value.value) && Plain(ParseOne(ts).value.rest)
  {
    hide IsIdentifier, ParseKey, ParseSet, ParseSingle, Ends, IsLabelKey, IsInt64, PlainItem;
    KeyPlain(ts);
    var k := ParseKey(ts).value;
    if k.value.op.None? {
      EndsTail(k.rest);
      var us := k.rest[1..];
      var op := OperatorOf(k.rest[0]).value;
      OperatorNotExistence(k.rest[0]);
      if IsSetOp(op) {
        SetMembers(us);
      } else {
        SingleMember(us);
      }
    } else {
      KeyOperator(ts);
    }
  }

  lemma KeyOperator(ts: seq<Item>)
    requires Ends(ts) && AsValue(ts[0].tok) in {Ident, Bang} && ParseKey(ts).Ok?
    requires ParseKey(ts).value.value.op.Some?
    ensures IsExistence(ParseKey(ts).value.value.op.value)
  {
  }

  lemma OperatorNotExistence(t: Item)
    requires OperatorOf(t).Some?
    ensures !IsExistence(OperatorOf(t).value)
  {
  }

  lemma {:induction false} ParseAllParsable(ts: seq<Item>, rs: seq<Requirement>)
    requires Ends(ts) && Plain(ts) && AllParsable(rs) && ParseAll(ts, rs).Ok?
    ensures AllParsable(ParseAll(ts, rs).value)
    decreases |ts|
  {
    hide Parsable, ParseOne, PlainItem;
    if AsValue(ts[0].tok) in {Ident, Bang} {
      ParseOneParsable(ts);
      var p := ParseOne(ts).value;
      if p.rest[0].tok == Comma {
        EndsTail(p.rest);
        ParseAllParsable(p.rest[1..], rs + [p.value]);
      }
    }
  }

  lemma ParseParsable(text: string)
    requires ParseText(text).Ok?
    ensures AllParsable(ParseText(text).value)
  {
    hide Scan, ParseAll, Parsable, PlainItem;
    ScanEnds(text);
    ScanPlain(text);
    ParseAllParsable(Scan(text), []);
  }

  // ----- A single value that is no identifier is not read back -----

  /** A quoted string is shorter than what it is read from. */
  lemma {:induction false} QuotedShorter(r: string, delim: char, buffer: string, escaped: bool)
    requires ScanQuoted(r, delim, buffer, escaped).item.tok == Quoted
    ensures var l := ScanQuoted(r, delim, buffer, escaped);
            buffer <= l.item.lit && |l.item.lit| + |l.rest| < |buffer| + |r|
    decreases |r|
  {
    if escaped || r[0] !in {'\\', delim} {
      QuotedShorter(r[1..], delim, buffer + [r[0]], false);
    } else if r[0] == '\\' {
      QuotedShorter(r[1..], delim, buffer, true);
    }
  }

  /** A comma before its closing quote becomes part of it. */
  lemma {:induction false} QuotedComma(r: string, delim: char, buffer: string, escaped: bool, m: nat) returns (k: nat)
    requires delim != ',' && m < |r| && r[m] == ','
    requires var l := ScanQuoted(r, delim, buffer, escaped); l.item.tok == Quoted && m < |r| - |l.rest| - 1
    ensures k <= |buffer| + m
    ensures var lit := ScanQuoted(r, delim, buffer, escaped).item.lit; k < |lit| && lit[k] == ','
    decreases |r|
  {
    if escaped || r[0] !in {'\\', delim} {
      if m == 0 {
        k := |buffer|;
        QuotedShorter(r[1..], delim, buffer + [r[0]], false);
      } else {
        k := QuotedComma(r[1..], delim, buffer + [r[0]], false, m - 1);
      }
    } else {
      k := QuotedComma(r[1..], delim, buffer, true, m - 1);
    }
  }

  lemma {:induction false} BlanksSkipped(z: string) returns (b: nat)
    ensures b <= |z| && SkipBlanks(z) == z[b..] && forall i :: 0 <= i < b ==> IsBlank(z[i])
  {
    hide IsBlank;
    b := 0;
    if z != "" && IsBlank(z[0]) {
      var c := BlanksSkipped(z[1..]);
      b := c + 1;
      assert forall i :: 0 < i < b ==> z[i] == z[1..][i - 1];
    }
  }

  /** No quoted string starts the printed form of its own content: the first comma of the text would
      have to come out of the string before the place where it stands. */
  lemma QuotedNotItself(v: string, rest: string)
    requires Separated(rest)
    ensures LexOne(v + rest).item != Item(Quoted, v)
  {
    hide ScanQuoted, ScanIdent, ScanSymbol;
    var z := v + rest;
    if LexOne(z).item == Item(Quoted, v) {
      var b := BlanksSkipped(z);
      QuotedStart(z);
      var r := z[b..];
      QuotedShorter(r[1..], r[0], "", false);
      var m := FirstComma(v, rest);
      var k := QuotedComma(r[1..], r[0], "", false, m - b - 1);
    }
  }

  lemma FirstComma(v: string, rest: string) returns (m: nat)
    requires rest != "" && rest[0] == ','
    ensures m <= |v| && (v + rest)[m] == ',' && forall i :: 0 <= i < m ==> v[i] != ','
  {
    m := 0;
    while m < |v| && v[m] != ','
      invariant m <= |v| && forall i :: 0 <= i < m ==> v[i] != ','
    {
      m := m + 1;
    }
  }

  lemma QuotedStart(z: string)
    requires LexOne(z).item.tok == Quoted
    ensures var r := SkipBlanks(z);
            r != "" && r[0] in {'"', '\''} && LexOne(z) == ScanQuoted(r[1..], r[0], "", false)
  {
    hide ScanQuoted, ScanIdent, ScanSymbol, IsIdentStart;
    var r := SkipBlanks(z);
    if !AtEnd(r) {
      if IsSpecial(r[0]) {
        SymbolPlain(r, "", None);
      } else if IsIdentStart(r[0]) {
        StartIdent(r);
      }
    }
  }

  /** An equals sign before another one is read as both. */
  lemma EqualsMerge(z: string)
    requires z != "" && z[0] == '=' && (|z| == 1 || z[1] != NUL)
    ensures Scan("=" + z)[0].tok == DoubleEq
  {
    hide Scan;
    assert "=" + z == "==" + z[1..];
    if |z| > 1 {
      assert |"==" + [z[1]]| == 3;
    }
    ScanLong("==", z[1..]);
  }

  lemma OperatorEnds(op: Operator, z: string)
    requires TakesOne(op) && (z == "" || z[0] != NUL) && !(op == Equals && z != "" && z[0] == '=')
    ensures EndsSymbol(OperatorText(op), z)
  {
    assert op.Equals? || op.DoubleEquals? || op.NotEquals? || op.PartialEquals? || op.NotPartialEquals?
      || op.GreaterThan? || op.LessThan?;
    if z != "" {
      var symbol := OperatorText(op);
      var longer := symbol + [z[0]];
      assert longer[0] == symbol[0] && longer[|symbol|] == z[0] && |longer| == |symbol| + 1;
    }
  }

  /** The value of a requirement with one value is read back only if it is an identifier. */
  lemma ValueLost(v: string, rest: string)
    requires Separated(rest) && !IsIdentifier(v)
    ensures Ends(Scan(v + rest))
    ensures var p := ParseSingle(Scan(v + rest)); p.Ok? ==> p.value.value != [v]
  {
    hide LexOne, IsIdentifier;
    ScanEnds(v + rest);
    LexPlain(v + rest);
    QuotedNotItself(v, rest);
    assert Scan(v + rest)[0] == LexOne(v + rest).item;
  }

  lemma RequirementLost(r: Requirement, rest: string)
    requires Parsable(r) && !Printable(r) && Separated(rest)
    ensures var ts := Scan(Print(r) + rest);
            && Ends(ts) && AsValue(ts[0].tok) == Ident
            && (ParseOne(ts).Ok? ==> ParseOne(ts).value.value != r)
  {
    hide Scan, Ends, Print, Printable, IsIdentifier, IsLabelKey, IsInt64, KeywordOrIdent, ParseSingle, ParseSet, ParseKey;
    PrintableIff(r);
    OneValue(r);
    SingleText(r, rest);
    var v := r.values[0];
    var z := v + rest;
    OperatorFollows(r.op, z);
    ScanIdentifier(r.key, OperatorText(r.op) + z);
    var us := Scan(OperatorText(r.op) + z);
    ScanEnds(OperatorText(r.op) + z);
    ScanEnds(Print(r) + rest);
    OperatorLost(r, us, v, rest);
  }

  lemma OperatorLost(r: Requirement, us: seq<Item>, v: string, rest: string)
    requires Parsable(r) && TakesOne(r.op) && r.values == [v] && !IsIdentifier(v) && Separated(rest)
    requires us == Scan(OperatorText(r.op) + (v + rest)) && Ends(us) && Ends([KeyItem(r)] + us)
    requires AsValue(KeyItem(r).tok) == Ident
    ensures var p := ParseOne([KeyItem(r)] + us); p.Ok? ==> p.value.value != r
  {
    hide Scan, Ends, IsIdentifier, IsLabelKey, IsInt64, KeywordOrIdent, ParseSingle, ParseSet, KeyItem, OperatorText;
    var z := v + rest;
    assert ([KeyItem(r)] + us)[1..] == us;
    if r.op == Equals && z != "" && z[0] == '=' {
      EqualsText();
      EqualsMerge(z);
    } else {
      OperatorEnds(r.op, z);
      ScanOperator(r.op, z);
      ValueLost(v, rest);
      OperatorBack(r.op, Scan(z));
    }
  }

  lemma EqualsText()
    ensures OperatorText(Equals) == "="
  {
  }

  lemma ParsableStart(r: Requirement)
    requires Parsable(r)
    ensures Print(r) != "" && Print(r)[0] != NUL
  {
    IdentifierStart(r.key);
  }

  lemma {:induction false} ParseAllGrows(ts: seq<Item>, rs: seq<Requirement>)
    requires Ends(ts) && ParseAll(ts, rs).Ok?
    ensures rs <= ParseAll(ts, rs).value
    ensures AsValue(ts[0].tok) in {Ident, Bang} ==> ParseOne(ts).Ok? && rs + [ParseOne(ts).value.value] <= ParseAll(ts, rs).value
    decreases |ts|
  {
    hide ParseOne;
    if AsValue(ts[0].tok) in {Ident, Bang} {
      var p := ParseOne(ts).value;
      if p.rest[0].tok == Comma {
        EndsTail(p.rest);
        ParseAllGrows(p.rest[1..], rs + [p.value]);
      }
    }
  }

  lemma LostHere(seen: seq<Requirement>, r: Requirement, rest: string)
    requires Parsable(r) && !Printable(r) && Separated(rest)
    ensures Ends(Scan(Print(r) + rest))
    ensures var p := ParseAll(Scan(Print(r) + rest), seen); p.Ok? ==> |p.value| > |seen| && p.value[|seen|] != r
  {
    hide Scan, ParseOne, Parsable, Printable, Print, ParseAll;
    RequirementLost(r, rest);
    var ts := Scan(Print(r) + rest);
    if ParseAll(ts, seen).Ok? {
      ParseAllGrows(ts, seen);
    }
  }

  /** A printable requirement is read back, whatever follows it. */
  lemma ReadThen(seen: seq<Requirement>, r: Requirement, sep: string, tail: string)
    requires Printable(r) && sep in {",", ", "} && tail != "" && tail[0] != NUL
    ensures Ends(Scan(Print(r) + (sep + tail))) && Ends(Scan(tail))
    ensures var p := ParseAll(Scan(Print(r) + (sep + tail)), seen);
            p.Err? || p == ParseAll(Scan(tail), seen + [r])
  {
    hide Scan, ParseOne, Ends, Printable, Print, RequirementThen, ParseAll;
    ScanEnds(tail);
    ScanSeparator(sep, tail);
    ScanRequirement(r, sep + tail);
    EndsCons(COMMA, Scan(tail));
    ParseOneBack(r, [COMMA] + Scan(tail));
    ParseAllNext(Scan(Print(r) + (sep + tail)), seen, r, [COMMA] + Scan(tail));
  }

  lemma {:induction false} NotReadBack(seen: seq<Requirement>, rs: seq<Requirement>, sep: string)
    requires AllParsable(rs) && !AllPrintable(rs) && sep in {",", ", "}
    ensures Ends(Scan(Join(Printed(rs), sep)))
    ensures ParseAll(Scan(Join(Printed(rs), sep)), seen) != Ok(seen + rs)
    decreases |rs|
  {
    hide Scan, ParseAll, Ends, Parsable, Printable, Print, Join;
    JoinPrinted(rs, sep);
    var tail := Join(Printed(rs[1..]), sep);
    if Printable(rs[0]) {
      assert |rs| > 1 && !AllPrintable(rs[1..]);
      NotReadBack(seen + [rs[0]], rs[1..], sep);
      ParsableStart(rs[1]);
      JoinPrinted(rs[1..], sep);
      assert tail != "" && tail[0] != NUL;
      ReadThen(seen, rs[0], sep, tail);
      assert seen + [rs[0]] + rs[1..] == seen + rs;
    } else {
      assert Print(rs[0]) + "" == Print(rs[0]);
      LostHere(seen, rs[0], if |rs| == 1 then "" else sep + tail);
      assert (seen + rs)[|seen|] == rs[0];
    }
  }

  // ----- Main results -----

  /** The printed form of a list of requirements parses to that list if and only if all of them are
      printable. */
  lemma RoundTripIff(rs: seq<Requirement>, sep: string)
    requires sep in {",", ", "}
    ensures ParseText(Join(Printed(rs), sep)) == Ok(rs) <==> AllPrintable(rs)
  {
    hide Scan, ParseAll, Join, Printed, Printable, Parsable;
    assert [] + rs == rs;
    if AllPrintable(rs) {
      RoundTrip(rs, sep);
    } else if ParseText(Join(Printed(rs), sep)) == Ok(rs) {
      ParseParsable(Join(Printed(rs), sep));
      NotReadBack([], rs, sep);
    }
  }

  /** Printing what was parsed from any text and parsing it again changes nothing if and only if
      every value of an operator with one value is an identifier. */
  lemma ParseIsStableIff(text: string, rs: seq<Requirement>, sep: string)
    requires ParseText(text) == Ok(rs) && sep in {",", ", "}
    ensures forall i :: 0 <= i < |rs| && TakesOne(rs[i].op) ==> |rs[i].values| == 1
    ensures ParseText(Join(Printed(rs), sep)) == Ok(rs) <==>
            forall i :: 0 <= i < |rs| && TakesOne(rs[i].op) ==> IsIdentifier(rs[i].values[0])
  {
    hide Scan, ParseAll, ParseText, Join, Printed, Printable, Parsable, IsIdentifier;
    ParseParsable(text);
    forall i | 0 <= i < |rs|
      ensures TakesOne(rs[i].op) ==> |rs[i].values| == 1
      ensures Printable(rs[i]) <==> (TakesOne(rs[i].op) ==> IsIdentifier(rs[i].values[0]))
    {
      PrintableIff(rs[i]);
    }
    RoundTripIff(rs, sep);
  }

  /** Any text without NUL can be given as a value, in quotes. */
  function EqualsQuoted(key: string, v: string, delim: char): string {
    key + ("=" + ([delim] + (Quote(v, delim) + [delim])))
  }

  lemma QuotedParses(key: string, v: string, delim: char)
    requires IsIdentifier(key) && NUL !in v && delim in {'"', '\''}
    ensures ParseText(EqualsQuoted(key, v, delim)) == Ok([Requirement(key, Equals, [v])])
  {
    hide Scan, IsIdentifier, Quote, KeywordOrIdent, Ends, ParseAll;
    var quoted := [delim] + (Quote(v, delim) + ([delim] + ""));
    QuotedReadsBack(v, delim, "");
    ScanNothing();
    assert [delim] + "" == [delim];
    EqualsText();
    ScanOperator(Equals, quoted);
    ScanIdentifier(key, "=" + quoted);
    var r := Requirement(key, Equals, [v]);
    QuotedItems(r, v);
  }

  lemma QuotedItems(r: Requirement, v: string)
    requires r == Requirement(r.key, Equals, [v]) && IsIdentifier(r.key)
    ensures var ts := [KeyItem(r)] + ([SymbolItem(Equals)] + ([Item(Quoted, v)] + [END]));
            Ends(ts) && ParseAll(ts, []) == Ok([r])
  {
    hide IsIdentifier, KeywordOrIdent, Ends, KeyItem, ParseKey, ParseSet, ParseAll, IsLabelKey;
    var us := [Item(Quoted, v)] + [END];
    EndsCons(Item(Quoted, v), [END]);
    OperatorBack(Equals, us);
    ParseKeyBack(r, [SymbolItem(Equals)] + us);
    var ts := [KeyItem(r)] + ([SymbolItem(Equals)] + us);
    assert ParseOne(ts) == Ok(Parsed(r, [END]));
    ParseAllNext(ts, [], r, [END]);
    assert [] + [r] == [r];
  }

  /** It is printed without them, and so read back if and only if it is an identifier. */
  lemma QuotedStableIff(key: string, v: string, delim: char, sep: string)
    requires IsIdentifier(key) && NUL !in v && delim in {'"', '\''} && sep in {",", ", "}
    ensures var rs := [Requirement(key, Equals, [v])];
            && ParseText(EqualsQuoted(key, v, delim)) == Ok(rs)
            && (ParseText(Join(Printed(rs), sep)) == Ok(rs) <==> IsIdentifier(v))
  {
    hide Scan, ParseText, Join, Printed, IsIdentifier, EqualsQuoted;
    var rs := [Requirement(key, Equals, [v])];
    QuotedParses(key, v, delim);
    ParseIsStableIff(EqualsQuoted(key, v, delim), rs, sep);
    assert TakesOne(rs[0].op);
  }

  // ----- Operators that are words -----

  /** The words lt and gt, in this spelling, stand for < and >. */
  lemma WordOperators(key: string, v: string)
    requires IsIdentifier(key) && IsIdentifier(v) && IsInt64(v)
    ensures ParseText(key + (" lt " + v)) == Ok([Requirement(key, LessThan, [v])])
    ensures ParseText(key + (" gt " + v)) == Ok([Requirement(key, GreaterThan, [v])])
  {
    hide IsIdentifier, IsInt64, ParseText;
    assert " " + "lt" + " " + v == " lt " + v && " " + "gt" + " " + v == " gt " + v;
    WordParses(Requirement(key, LessThan, [v]), "lt", v);
    WordParses(Requirement(key, GreaterThan, [v]), "gt", v);
  }

  lemma WordParses(r: Requirement, word: string, v: string)
    requires IsIdentifier(r.key) && IsIdentifier(v) && IsInt64(v) && r.values == [v]
    requires (word == "lt" && r.op == LessThan) || (word == "gt" && r.op == GreaterThan)
    ensures ParseText(r.key + (" " + word + " " + v)) == Ok([r])
  {
    hide Scan, IsIdentifier, KeywordOrIdent, Ends, ParseAll, IsInt64;
    var more := " " + (word + (" " + (v + "")));
    assert " " + word + " " + v == more;
    ScanIdentifier(r.key, more);
    ScanBlank(word + (" " + (v + "")));
    WordToken(word);
    ScanIdentifier(word, " " + (v + ""));
    ScanBlank(v + "");
    ScanIdentifier(v, "");
    ScanNothing();
    WordItems(r, word, v);
  }

  lemma WordToken(word: string)
    requires word == "lt" || word == "gt"
    ensures IsIdentifier(word) && KeywordOrIdent(word) == Ident
  {
    FoldSame(word);
  }

  lemma JustEnd()
    ensures Ends([END])
  {
  }

  lemma WordItems(r: Requirement, word: string, v: string)
    requires IsIdentifier(r.key) && IsIdentifier(v) && IsInt64(v) && r.values == [v]
    requires (word == "lt" && r.op == LessThan) || (word == "gt" && r.op == GreaterThan)
    ensures var ts := [KeyItem(r)] + ([Item(Ident, word)] + ([Item(KeywordOrIdent(v), v)] + [END]));
            Ends(ts) && ParseAll(ts, []) == Ok([r])
  {
    hide IsIdentifier, KeywordOrIdent, Ends, KeyItem, ParseKey, ParseSet, ParseAll, IsLabelKey, IsInt64;
    var us := [Item(KeywordOrIdent(v), v)] + [END];
    assert Ends([END]) by { JustEnd(); }
    ParseSingleBack(v, [END]);
    EndsCons(Item(Ident, word), us);
    ParseKeyBack(r, [Item(Ident, word)] + us);
    var ts := [KeyItem(r)] + ([Item(Ident, word)] + us);
    assert ParseOne(ts) == Ok(Parsed(r, [END]));
    ParseAllNext(ts, [], r, [END]);
    assert [] + [r] == [r];
  }
}
