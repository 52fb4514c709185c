/**
 The lexer of filter expressions (pkg/stores/sqlpartition/queryparser/selector.go). A character of
 the model stands for a byte of the input.
 */
module SelectorLexer {
  import opened Prelude

  datatype Token =
    | ErrorTok | EndTok | ClosedPar | Comma | Bang | DoubleEq | EqualTok | PartialTok | GreaterTok | Ident | Quoted
    | InTok | LessTok | NotEqTok | NotInTok | NotPartialTok | OpenPar

  datatype Item = Item(tok: Token, lit: string)

  const NUL: char := '\0'

  function TokenOf(lit: string): Option<Token> {
    if lit == ")" then Some(ClosedPar)
    else if lit == "," then Some(Comma)
    else if lit == "!" then Some(Bang)
    else if lit == "==" then Some(DoubleEq)
    else if lit == "=" then Some(EqualTok)
    else if lit == "~" then Some(PartialTok)
    else if lit == ">" then Some(GreaterTok)
    else if lit == "in" then Some(InTok)
    else if lit == "<" then Some(LessTok)
    else if lit == "!=" then Some(NotEqTok)
    else if lit == "!~" then Some(NotPartialTok)
    else if lit == "notin" then Some(NotInTok)
    else if lit == "(" then Some(OpenPar)
    else None
  }

  predicate IsBlank(c: char) { c in {' ', '\t', '\r', '\n'} }

  predicate IsSpecial(c: char) { c in {'=', '!', '(', ')', ',', '>', '<', '~'} }

  /** Letters and digits of Latin-1, and the underscore. */
  predicate IsIdentStart(c: char) {
    || 'a' <= c <= 'z' || 'A' <= c <= 'Z' || '0' <= c <= '9' || c == '_'
    || c as int in {0xAA, 0xB5, 0xBA}
    || (0xC0 <= c as int <= 0xFF && c as int != 0xD7 && c as int != 0xF7)
  }

  /** A character that ends an identifier. */
  predicate Stops(c: char) { c == NUL || IsSpecial(c) || IsBlank(c) }

  function LowerChar(c: char): char { if 'A' <= c <= 'Z' then c - 'A' + 'a' else c }

  /** Lower case, as far as it can yield a keyword: the capital dotted I, two bytes, becomes i. */
  function Fold(s: string): string {
    if s == "" then ""
    else if |s| > 1 && s[0] as int == 0xC4 && s[1] as int == 0xB0 then "i" + Fold(s[2..])
    else [LowerChar(s[0])] + Fold(s[1..])
  }

  function KeywordOrIdent(s: string): Token {
    var t := TokenOf(Fold(s));
    if t.Some? then t.value else Ident
  }

  datatype Lexed = Lexed(item: Item, rest: string)

  // ----- What each scan leaves of the input -----

  /** Reading a NUL is reading the end, except that it is consumed. */
  function DropNul(r: string): string { if r != "" && r[0] == NUL then r[1..] else r }

  predicate AtEnd(r: string) { r == "" || r[0] == NUL }

  function SkipBlanks(r: string): (r': string)
    ensures |r'| <= |r|
    ensures r' == "" || !IsBlank(r'[0])
  {
    if r != "" && IsBlank(r[0]) then SkipBlanks(r[1..]) else r
  }

  function ScanIdent(r: string, buffer: string): (l: Lexed)
    ensures l.item.tok == KeywordOrIdent(l.item.lit)
    ensures |l.rest| <= |r|
    ensures r != "" && !Stops(r[0]) ==> |l.rest| < |r|
    decreases |r|
  {
    if AtEnd(r) then Lexed(Item(KeywordOrIdent(buffer), buffer), DropNul(r))
    else if Stops(r[0]) then Lexed(Item(KeywordOrIdent(buffer), buffer), r)
    else ScanIdent(r[1..], buffer + [r[0]])
  }

  function Unterminated(buffer: string): string {
    "unterminated string starting with '" + (if |buffer| > 12 then buffer[..10] + "..." else buffer) + "'"
  }

  function ScanQuoted(r: string, delim: char, buffer: string, escaped: bool): (l: Lexed)
    ensures l.item.tok in {ErrorTok, Quoted}
    ensures |l.rest| <= |r|
    decreases |r|
  {
    if AtEnd(r) then Lexed(Item(ErrorTok, Unterminated(buffer)), DropNul(r))
    else if escaped then ScanQuoted(r[1..], delim, buffer + [r[0]], false)
    else if r[0] == '\\' then ScanQuoted(r[1..], delim, buffer, true)
    else if r[0] == delim then Lexed(Item(Quoted, buffer), r[1..])
    else ScanQuoted(r[1..], delim, buffer + [r[0]], false)
  }

  function SymbolDone(last: Option<Item>, buffer: string, rest: string): Lexed {
    Lexed(if last.Some? then last.value else Item(ErrorTok, "error expected: keyword found '" + buffer + "'"), rest)
  }

  function ScanSymbol(r: string, buffer: string, last: Option<Item>): (l: Lexed)
    requires last.Some? ==> last.value.tok != EndTok
    ensures l.item.tok != EndTok
    ensures |l.rest| <= |r|
    ensures r != "" && IsSpecial(r[0]) && last.None? ==> |l.rest| < |r|
    decreases |r|
  {
    if AtEnd(r) then SymbolDone(last, buffer, DropNul(r))
    else if !IsSpecial(r[0]) then SymbolDone(last, buffer, r)
    else
      var longer := buffer + [r[0]];
      if TokenOf(longer).Some? then ScanSymbol(r[1..], longer, Some(Item(TokenOf(longer).value, longer)))
      else if last.Some? then SymbolDone(last, longer, r)
      else ScanSymbol(r[1..], longer, last)
  }

  /** The next item and the input left. Only the end item may leave the input as it is. */
  function LexOne(input: string): (l: Lexed)
    ensures |l.rest| <= |input|
    ensures l.item.tok != EndTok ==> |l.rest| < |input|
  {
    var r := SkipBlanks(input);
    if AtEnd(r) then Lexed(Item(EndTok, ""), DropNul(r))
    else if IsSpecial(r[0]) then ScanSymbol(r, "", None)
    else if IsIdentStart(r[0]) then
      IdentStartGoesOn(r[0]);
      ScanIdent(r, "")
    else if r[0] == '"' || r[0] == '\'' then ScanQuoted(r[1..], r[0], "", false)
    else Lexed(Item(ErrorTok, "unexpected character '" + [r[0]] + "'"), r[1..])
  }

  lemma IdentStartGoesOn(c: char)
    ensures IsIdentStart(c) ==> !Stops(c)
  {
  }

  function Scan(input: string): seq<Item>
    decreases |input|
  {
    var l := LexOne(input);
    if l.item.tok == EndTok then [l.item] else [l.item] + Scan(l.rest)
  }

  lemma ScanStep(input: string)
    ensures var l := LexOne(input);
            Scan(input) == if l.item.tok == EndTok then [l.item] else [l.item] + Scan(l.rest)
  {
  }

  /** The end item stands last and nowhere else. */
  ghost predicate Ends(items: seq<Item>) {
    items != [] && forall i :: 0 <= i < |items| ==> (items[i].tok == EndTok <==> i == |items| - 1)
  }

  lemma {:induction false} ScanEnds(input: string)
    ensures Ends(Scan(input)) && |Scan(input)| <= |input| + 1
    decreases |input|
  {
    hide LexOne;
    var l := LexOne(input);
    if l.item.tok != EndTok {
      ScanEnds(l.rest);
    }
  }

  // ----- The lexer -----

  class Lexer {
    const s: string
    var pos: nat

    ghost predicate Valid()
      reads this
    {
      pos <= |s|
    }

    ghost function Rest(): string
      requires Valid()
      reads this
    {
      s[pos..]
    }

    constructor (s: string)
      ensures this.s == s && pos == 0 && Valid()
    {
      this.s := s;
      pos := 0;
    }

    method Read() returns (b: char)
      requires Valid()
      modifies this
      ensures Valid()
      ensures if old(Rest()) == "" then b == NUL && pos == old(pos)
              else b == old(Rest())[0] && pos == old(pos) + 1
    {
      b := NUL;
      if pos < |s| {
        b := s[pos];
        pos := pos + 1;
      }
    }

    method Unread()
      requires Valid() && pos > 0
      modifies this
      ensures Valid() && pos == old(pos) - 1
    {
      pos := pos - 1;
    }

    method ScanIdOrKeyword() returns (tok: Token, lit: string)
      requires Valid()
      modifies this
      ensures Valid() && Lexed(Item(tok, lit), Rest()) == ScanIdent(old(Rest()), "")
    {
      lit := "";
      while true
        invariant Valid() && ScanIdent(Rest(), lit) == ScanIdent(old(Rest()), "")
        decreases |Rest()|
      {
        ghost var r := Rest();
        var ch := Read();
        if ch == NUL {
          assert Rest() == DropNul(r);
          break;
        }
        if IsSpecial(ch) || IsBlank(ch) {
          Unread();
          break;
        }
        assert Rest() == r[1..];
        lit := lit + [ch];
      }
      tok := KeywordOrIdent(lit);
    }

    method ScanQuotedString(delim: char) returns (tok: Token, lit: string)
      requires Valid()
      modifies this
      ensures Valid() && Lexed(Item(tok, lit), Rest()) == ScanQuoted(old(Rest()), delim, "", false)
    {
      var buffer, inEscape := "", false;
      while true
        invariant Valid() && ScanQuoted(Rest(), delim, buffer, inEscape) == ScanQuoted(old(Rest()), delim, "", false)
        decreases |Rest()|
      {
        ghost var r := Rest();
        var ch := Read();
        if ch == NUL {
          assert Rest() == DropNul(r);
          return ErrorTok, Unterminated(buffer);
        }
        assert Rest() == r[1..];
        if inEscape {
          buffer := buffer + [ch];
          inEscape := false;
        } else if ch == '\\' {
          inEscape := true;
        } else if ch == delim {
          break;
        } else {
          buffer := buffer + [ch];
        }
      }
      return Quoted, buffer;
    }

    method ScanSpecialSymbol() returns (tok: Token, lit: string)
      requires Valid()
      modifies this
      ensures Valid() && Lexed(Item(tok, lit), Rest()) == ScanSymbol(old(Rest()), "", None)
    {
      var last: Option<Item> := None;
      var buffer := "";
      while true
        invariant Valid() && (last.Some? ==> last.value.tok != EndTok)
        invariant ScanSymbol(Rest(), buffer, last) == ScanSymbol(old(Rest()), "", None)
        decreases |Rest()|
      {
        ghost var r := Rest();
        var ch := Read();
        if ch == NUL {
          assert Rest() == DropNul(r);
          break;
        }
        if !IsSpecial(ch) {
          Unread();
          break;
        }
        assert Rest() == r[1..];
        buffer := buffer + [ch];
        if TokenOf(buffer).Some? {
          last := Some(Item(TokenOf(buffer).value, buffer));
        } else if last.Some? {
          Unread();
          break;
        }
      }
      if last.None? {
        return ErrorTok, "error expected: keyword found '" + buffer + "'";
      }
      return last.value.tok, last.value.lit;
    }

    method SkipWhiteSpaces(first: char) returns (ch: char)
      requires Valid()
      modifies this
      ensures Valid()
      ensures if IsBlank(first)
              then var r := SkipBlanks(old(Rest()));
                   if r == "" then ch == NUL && Rest() == "" else ch == r[0] && pos > 0 && s[pos - 1..] == r
              else ch == first && pos == old(pos)
    {
      ch := first;
      ghost var r := Rest();
      while IsBlank(ch)
        invariant Valid()
        invariant IsBlank(ch) ==> IsBlank(first) && SkipBlanks(Rest()) == SkipBlanks(r)
        invariant !IsBlank(first) ==> ch == first && pos == old(pos)
        invariant IsBlank(first) && !IsBlank(ch) ==>
                    var left := SkipBlanks(r);
                    if left == "" then ch == NUL && Rest() == "" else ch == left[0] && pos > 0 && s[pos - 1..] == left
        decreases |Rest()|, IsBlank(ch)
      {
        ghost var before := Rest();
        ch := Read();
        if before != "" {
          assert Rest() == before[1..];
        }
      }
    }

    /** Yields the next item of the input. */
    method Lex() returns (tok: Token, lit: string)
      requires Valid()
      modifies this
      ensures Valid() && Lexed(Item(tok, lit), Rest()) == LexOne(old(Rest()))
    {
      hide ScanSymbol, ScanIdent, ScanQuoted, KeywordOrIdent;
      ghost var r := Rest();
      var ch := Read();
      if r != "" {
        assert Rest() == r[1..];
      }
      ch := SkipWhiteSpaces(ch);
      ghost var left := SkipBlanks(r);
      assert if left == "" then ch == NUL && Rest() == "" else ch == left[0] && pos > 0 && s[pos - 1..] == left;
      if ch == NUL {
        return EndTok, "";
      } else if IsSpecial(ch) {
        Unread();
        tok, lit := ScanSpecialSymbol();
      } else if IsIdentStart(ch) {
        Unread();
        tok, lit := ScanIdOrKeyword();
      } else if ch == '"' || ch == '\'' {
        assert Rest() == left[1..];
        tok, lit := ScanQuotedString(ch);
      } else {
        return ErrorTok, "unexpected character '" + [ch] + "'";
      }
    }
  }
}
