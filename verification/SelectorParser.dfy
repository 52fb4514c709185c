/** Requirements, their printed form and their parser (pkg/stores/sqlpartition/queryparser/selector.go). */
module SelectorParser {
  import opened Prelude
  import opened SelectorLexer

  datatype Operator =
    | DoesNotExist | Equals | DoubleEquals | PartialEquals | In | NotEquals | NotPartialEquals | NotIn | Exists
    | GreaterThan | LessThan

  datatype Requirement = Requirement(key: string, op: Operator, values: seq<string>)

  datatype Error =
    | Found(literal: string, expected: string)
    | MissingValue
    | ExistenceOfField(key: string)
    | InvalidValues

  // ----- Sets of strings, kept sorted -----

  predicate Before(a: string, b: string) {
    b != "" && (a == "" || a[0] < b[0] || (a[0] == b[0] && Before(a[1..], b[1..])))
  }

  /** Ascending, without repetition: what List of a set of strings returns. */
  ghost predicate Ascending(xs: seq<string>) {
    forall i, j :: 0 <= i < j < |xs| ==> Before(xs[i], xs[j])
  }

  function Insert(xs: seq<string>, x: string): seq<string> {
    if xs == [] then [x]
    else if x == xs[0] then xs
    else if Before(x, xs[0]) then [x] + xs
    else [xs[0]] + Insert(xs[1..], x)
  }

  lemma {:induction false} BeforeTotal(a: string, b: string)
    ensures !(Before(a, b) && Before(b, a)) && (a == b || Before(a, b) || Before(b, a)) && !Before(a, a)
  {
    if a != "" && b != "" && a[0] == b[0] {
      BeforeTotal(a[1..], b[1..]);
      assert a == [a[0]] + a[1..] && b == [b[0]] + b[1..];
    }
    if a != "" {
      BeforeTotal(a[1..], a[1..]);
    }
  }

  lemma {:induction false} BeforeTransitive(a: string, b: string, c: string)
    requires Before(a, b) && Before(b, c)
    ensures Before(a, c)
  {
    if a != "" && a[0] == b[0] == c[0] {
      BeforeTransitive(a[1..], b[1..], c[1..]);
    }
  }

  /** Inserting keeps the list ascending and adds exactly one member. */
  lemma {:induction false} InsertKeeps(xs: seq<string>, x: string)
    requires Ascending(xs)
    ensures Ascending(Insert(xs, x))
    ensures forall y :: y in Insert(xs, x) <==> y in xs || y == x
  {
    if xs != [] {
      BeforeTotal(x, xs[0]);
      assert xs == [xs[0]] + xs[1..];
      if Before(x, xs[0]) {
        forall j | 0 <= j < |xs| ensures Before(x, xs[j]) {
          if j > 0 {
            BeforeTransitive(x, xs[0], xs[j]);
          }
        }
      } else if x != xs[0] {
        InsertKeeps(xs[1..], x);
        forall y | y in Insert(xs[1..], x) ensures Before(xs[0], y) {
        }
        AscendingCons(xs[0], Insert(xs[1..], x));
      }
    }
  }

  lemma AscendingCons(x: string, xs: seq<string>)
    requires Ascending(xs) && forall y :: y in xs ==> Before(x, y)
    ensures Ascending([x] + xs)
  {
  }

  /** Sorting keeps repetitions. */
  function InsertAgain(xs: seq<string>, x: string): seq<string> {
    if xs == [] || !Before(xs[0], x) then [x] + xs else [xs[0]] + InsertAgain(xs[1..], x)
  }

  function Sorted(xs: seq<string>): seq<string> {
    if xs == [] then [] else InsertAgain(Sorted(xs[1..]), xs[0])
  }

  // ----- Valid requirements -----

  predicate IsDigit(c: char) { '0' <= c <= '9' }

  function DecimalValue(s: string): nat
    requires forall i :: 0 <= i < |s| ==> IsDigit(s[i])
  {
    if s == "" then 0
    else
      assert IsDigit(s[|s| - 1]);
      10 * DecimalValue(s[..|s| - 1]) + (s[|s| - 1] - '0') as int
  }

  /** Whether strconv.ParseInt accepts the text as a 64-bit decimal number. */
  predicate IsInt64(s: string) {
    var negative := s != "" && s[0] == '-';
    var digits := if s != "" && s[0] in {'+', '-'} then s[1..] else s;
    && digits != ""
    && (forall i :: 0 <= i < |digits| ==> IsDigit(digits[i]))
    && DecimalValue(digits) <= if negative then 0x8000_0000_0000_0000 else 0x7fff_ffff_ffff_ffff
  }

  predicate IsWordChar(c: char) { 'a' <= c <= 'z' || 'A' <= c <= 'Z' || '0' <= c <= '9' || c == '_' }

  /** Keys of labels: metadata.labels followed by a dotted or a bracketed name. */
  predicate IsLabelKey(key: string) {
    && |key| > 16
    && key[..8] == "metadata" && key[8] != '\n' && key[9..15] == "labels"
    && (|| (&& key[15] == '.' && IsWordChar(key[16])
            && forall i :: 17 <= i < |key| ==> IsWordChar(key[i]) || key[i] in {'-', '.', '/'})
        || (key[15] == '[' && key[|key| - 1] == ']' && '\n' !in key[16..]))
  }

  /** A letter, a digit or an underscore. */
  predicate LetterOrDigit(c: char) { c == '_' || '0' <= c <= '9' || 'A' <= c <= 'Z' || 'a' <= c <= 'z' }

  /** Both forms of label keys, in terms of the label they name. */
  lemma LabelKeyForms(name: string)
    ensures IsLabelKey("metadata.labels." + name) <==>
            && name != "" && LetterOrDigit(name[0])
            && forall i :: 1 <= i < |name| ==> LetterOrDigit(name[i]) || name[i] in {'-', '.', '/'}
    ensures IsLabelKey("metadata.labels[" + name + "]") <==> '\n' !in name
  {
    var dotted, bracketed := "metadata.labels." + name, "metadata.labels[" + name + "]";
    assert dotted[..8] == "metadata" && dotted[9..15] == "labels" && bracketed[..8] == "metadata" && bracketed[9..15] == "labels";
    assert forall i :: 0 <= i < |name| ==> dotted[16 + i] == name[i];
    assert forall i :: 16 <= i < |dotted| ==> dotted[i] == name[i - 16];
    assert bracketed[16..] == name + "]";
  }

  function NewRequirement(key: string, op: Operator, vals: seq<string>): Result<Requirement, Error> {
    var ok :=
      match op
      case In | NotIn => vals != []
      case Equals | DoubleEquals | NotEquals | PartialEquals | NotPartialEquals => |vals| == 1
      case Exists | DoesNotExist => vals == []
      case GreaterThan | LessThan => |vals| == 1 && IsInt64(vals[0]);
    if ok then Ok(Requirement(key, op, vals)) else Err(InvalidValues)
  }

  // ----- Printing -----

  function OperatorText(op: Operator): string {
    match op
    case Equals => "="
    case DoubleEquals => "=="
    case NotEquals => "!="
    case PartialEquals => "~"
    case NotPartialEquals => "!~"
    case In => " in "
    case NotIn => " notin "
    case GreaterThan => ">"
    case LessThan => "<"
    case Exists | DoesNotExist => ""
  }

  function Join(xs: seq<string>, sep: string): string {
    if xs == [] then ""
    else if |xs| == 1 then xs[0]
    else xs[0] + sep + Join(xs[1..], sep)
  }

  predicate IsSetOp(op: Operator) { op in {In, NotIn} }

  predicate IsExistence(op: Operator) { op in {Exists, DoesNotExist} }

  function ValuesText(r: Requirement): string {
    if |r.values| == 1 then r.values[0] else Join(Sorted(r.values), ",")
  }

  function Print(r: Requirement): string {
    (if r.op == DoesNotExist then "!" else "") + r.key +
    if IsExistence(r.op) then ""
    else OperatorText(r.op) + (if IsSetOp(r.op) then "(" + ValuesText(r) + ")" else ValuesText(r))
  }

  function Printed(rs: seq<Requirement>): seq<string> { seq(|rs|, i requires 0 <= i < |rs| => Print(rs[i])) }

  method RequirementString(r: Requirement) returns (sb: string)
    ensures sb == Print(r)
  {
    sb := "";
    if r.op == DoesNotExist {
      sb := sb + "!";
    }
    sb := sb + r.key;
    if IsExistence(r.op) {
      return;
    }
    ghost var left := sb;
    sb := sb + OperatorText(r.op);
    if IsSetOp(r.op) {
      sb := sb + "(";
    }
    if |r.values| == 1 {
      sb := sb + r.values[0];
    } else {
      sb := sb + Join(Sorted(r.values), ",");
    }
    if IsSetOp(r.op) {
      sb := sb + ")";
    }
    assert sb == left + (OperatorText(r.op) + (if IsSetOp(r.op) then "(" + ValuesText(r) + ")" else ValuesText(r)));
  }

  method SelectorString(rs: seq<Requirement>) returns (text: string)
    ensures text == Join(Printed(rs), ",")
  {
    var reqs: seq<string> := [];
    for i := 0 to |rs|
      invariant reqs == Printed(rs[..i])
    {
      var one := RequirementString(rs[i]);
      reqs := reqs + [one];
    }
    assert rs[..|rs|] == rs;
    text := Join(reqs, ",");
  }

  // ----- Parsing -----

  /** Among values, in and notin are ordinary identifiers. */
  function AsValue(tok: Token): Token { if tok in {InTok, NotInTok} then Ident else tok }

  datatype Parsed<T> = Parsed(value: T, rest: seq<Item>)

  lemma EndsTail(ts: seq<Item>)
    requires Ends(ts) && ts[0].tok != EndTok
    ensures |ts| > 1 && Ends(ts[1..])
  {
    assert forall i :: 0 <= i < |ts| - 1 ==> ts[1..][i] == ts[i + 1];
    assert ts[|ts| - 1].tok == EndTok;
  }

  datatype KeyOp = KeyOp(key: string, op: Option<Operator>)

  function ParseKey(ts: seq<Item>): (r: Result<Parsed<KeyOp>, Error>)
    requires Ends(ts) && AsValue(ts[0].tok) in {Ident, Bang}
    ensures r.Ok? ==> Ends(r.value.rest) && |r.value.rest| < |ts|
    ensures r.Ok? && r.value.value.op.None? ==> r.value.rest[0].tok != EndTok
  {
    EndsTail(ts);
    var negated := ts[0].tok == Bang;
    var us := if negated then ts[1..] else ts;
    if AsValue(us[0].tok) != Ident then Err(Found(us[0].lit, "identifier"))
    else
      EndsTail(us);
      var rest := us[1..];
      var op := if negated then Some(DoesNotExist)
                else if AsValue(rest[0].tok) in {EndTok, Comma} then Some(Exists)
                else None;
      Ok(Parsed(KeyOp(us[0].lit, op), rest))
  }

  function OperatorOf(t: Item): Option<Operator> {
    match t.tok
    case InTok => Some(In)
    case EqualTok => Some(Equals)
    case PartialTok => Some(PartialEquals)
    case DoubleEq => Some(DoubleEquals)
    case GreaterTok => Some(GreaterThan)
    case LessTok => Some(LessThan)
    case NotInTok => Some(NotIn)
    case NotEqTok => Some(NotEquals)
    case NotPartialTok => Some(NotPartialEquals)
    case _ => if t.lit == "lt" then Some(LessThan) else if t.lit == "gt" then Some(GreaterThan) else None
  }

  /** The values up to the closing parenthesis; `s` are those read so far. */
  function ParseIdents(ts: seq<Item>, s: seq<string>): (r: Result<Parsed<seq<string>>, Error>)
    requires Ends(ts)
    ensures r.Ok? ==> Ends(r.value.rest) && |r.value.rest| < |ts| && r.value.rest[0].tok == ClosedPar
    decreases |ts|
  {
    var tok := AsValue(ts[0].tok);
    if tok == Ident then
      EndsTail(ts);
      var s' := Insert(s, ts[0].lit);
      if ts[1].tok == Comma then ParseIdents(ts[1..], s')
      else if ts[1].tok == ClosedPar then Ok(Parsed(s', ts[1..]))
      else Err(Found(ts[1].lit, "',' or ')'"))
    else if tok == Comma then
      EndsTail(ts);
      var s' := if s == [] then Insert(s, "") else s;
      if ts[1].tok == ClosedPar then Ok(Parsed(Insert(s', ""), ts[1..]))
      else if ts[1].tok == Comma then
        EndsTail(ts[1..]);
        ParseIdents(ts[2..], Insert(s', ""))
      else ParseIdents(ts[1..], s')
    else Err(Found(ts[0].lit, "',', or identifier"))
  }

  function ParseSet(ts: seq<Item>): (r: Result<Parsed<seq<string>>, Error>)
    requires Ends(ts)
    ensures r.Ok? ==> Ends(r.value.rest) && |r.value.rest| < |ts|
  {
    if ts[0].tok != OpenPar then Err(Found(ts[0].lit, "'('"))
    else
      EndsTail(ts);
      var tok := AsValue(ts[1].tok);
      if tok in {Ident, Comma} then
        match ParseIdents(ts[1..], [])
        case Err(e) => Err(e)
        case Ok(p) =>
          EndsTail(p.rest);
          Ok(Parsed(p.value, p.rest[1..]))
      else if tok == ClosedPar then
        EndsTail(ts[1..]);
        Ok(Parsed([""], ts[2..]))
      else Err(Found(ts[1].lit, "',', ')' or identifier"))
  }

  function ParseSingle(ts: seq<Item>): (r: Result<Parsed<seq<string>>, Error>)
    requires Ends(ts)
    ensures r.Ok? ==> Ends(r.value.rest) && |r.value.rest| < |ts|
  {
    if ts[0].tok in {EndTok, Comma} then Err(MissingValue)
    else if AsValue(ts[0].tok) in {Ident, Quoted} then
      EndsTail(ts);
      Ok(Parsed([ts[0].lit], ts[1..]))
    else Err(Found(ts[0].lit, "identifier"))
  }

  function ParseOne(ts: seq<Item>): (r: Result<Parsed<Requirement>, Error>)
    requires Ends(ts) && AsValue(ts[0].tok) in {Ident, Bang}
    ensures r.Ok? ==> Ends(r.value.rest) && |r.value.rest| < |ts|
  {
    match ParseKey(ts)
    case Err(e) => Err(e)
    case Ok(k) =>
      if k.value.op.Some? then
        if !IsLabelKey(k.value.key) then Err(ExistenceOfField(k.value.key))
        else
          match NewRequirement(k.value.key, k.value.op.value, [])
          case Err(e) => Err(e)
          case Ok(q) => Ok(Parsed(q, k.rest))
      else
        EndsTail(k.rest);
        match OperatorOf(k.rest[0])
        case None => Err(Found(k.rest[0].lit, "an operator"))
        case Some(op) =>
          match (if IsSetOp(op) then ParseSet(k.rest[1..]) else ParseSingle(k.rest[1..]))
          case Err(e) => Err(e)
          case Ok(vs) =>
            match NewRequirement(k.value.key, op, vs.value)
            case Err(e) => Err(e)
            case Ok(q) => Ok(Parsed(q, vs.rest))
  }

  function ParseAll(ts: seq<Item>, rs: seq<Requirement>): Result<seq<Requirement>, Error>
    requires Ends(ts)
    decreases |ts|
  {
    var tok := AsValue(ts[0].tok);
    if tok in {Ident, Bang} then
      match ParseOne(ts)
      case Err(e) => Err(e)
      case Ok(p) =>
        if p.rest[0].tok == EndTok then Ok(rs + [p.value])
        else if p.rest[0].tok != Comma then Err(Found(p.rest[0].lit, "',' or 'end of string'"))
        else
          EndsTail(p.rest);
          if AsValue(p.rest[1].tok) !in {Ident, Bang} then Err(Found(p.rest[1].lit, "identifier after ','"))
          else ParseAll(p.rest[1..], rs + [p.value])
    else if tok == EndTok then Ok(rs)
    else Err(Found(ts[0].lit, "!, identifier, or 'end of string'"))
  }

  /** Where no requirement starts. */
  lemma {:induction false} ParseAllEnds(ts: seq<Item>, rs: seq<Requirement>)
    requires Ends(ts)
    ensures ts[0].tok == EndTok ==> ParseAll(ts, rs) == Ok(rs)
    ensures AsValue(ts[0].tok) !in {EndTok, Ident, Bang} ==>
              ParseAll(ts, rs) == Err(Found(ts[0].lit, "!, identifier, or 'end of string'"))
    ensures AsValue(ts[0].tok) in {Ident, Bang} && ParseOne(ts).Err? ==> ParseAll(ts, rs) == Err(ParseOne(ts).error)
  {
    hide ParseOne;
  }

  /** After a requirement. */
  lemma {:induction false} ParseAllNext(ts: seq<Item>, rs: seq<Requirement>, q: Requirement, us: seq<Item>)
    requires Ends(ts) && AsValue(ts[0].tok) in {Ident, Bang} && ParseOne(ts) == Ok(Parsed(q, us))
    ensures Ends(us)
    ensures us[0].tok == EndTok ==> ParseAll(ts, rs) == Ok(rs + [q])
    ensures us[0].tok !in {EndTok, Comma} ==> ParseAll(ts, rs) == Err(Found(us[0].lit, "',' or 'end of string'"))
    ensures us[0].tok == Comma ==>
              && |us| > 1 && Ends(us[1..])
              && ParseAll(ts, rs) ==
                 if AsValue(us[1].tok) !in {Ident, Bang} then Err(Found(us[1].lit, "identifier after ','"))
                 else ParseAll(us[1..], rs + [q])
  {
    hide ParseOne;
    if us[0].tok == Comma {
      EndsTail(us);
    }
  }

  function ParseText(text: string): Result<seq<Requirement>, Error> {
    ScanEnds(text);
    ParseAll(Scan(text), [])
  }

  // ----- The parser -----

  datatype Context = KeyAndOperator | Values

  class Parser {
    const l: Lexer
    var scannedItems: seq<Item>
    var position: nat

    constructor (text: string)
      ensures l.s == text && l.pos == 0 && scannedItems == [] && position == 0 && fresh(l)
    {
      l := new Lexer(text);
      scannedItems := [];
      position := 0;
    }

    /** The items are scanned, and the last one consumed was not the end. */
    ghost predicate Ready()
      reads this
    {
      Ends(scannedItems) && position < |scannedItems|
    }

    ghost function Left(): seq<Item>
      requires position <= |scannedItems|
      reads this
    {
      scannedItems[position..]
    }

    lemma LeftEnds()
      requires Ready()
      ensures Ends(Left())
    {
      assert forall i :: 0 <= i < |Left()| ==> Left()[i] == scannedItems[position + i];
    }

    function Lookahead(context: Context): Item
      requires position < |scannedItems|
      reads this
    {
      var t := scannedItems[position];
      Item(if context == Values then AsValue(t.tok) else t.tok, t.lit)
    }

    method Consume(context: Context) returns (tok: Token, lit: string)
      requires position < |scannedItems|
      modifies this
      ensures scannedItems == old(scannedItems) && position == old(position) + 1
      ensures Item(tok, lit) == old(Lookahead(context))
      ensures Left() == old(Left())[1..]
    {
      position := position + 1;
      var t := scannedItems[position - 1];
      tok, lit := if context == Values then AsValue(t.tok) else t.tok, t.lit;
    }

    /** Fills the items with the scan of the whole input. */
    method ScanItems()
      requires l.pos == 0 && scannedItems == []
      modifies this, l
      ensures l.Valid() && position == old(position)
      ensures scannedItems == Scan(l.s) && Ends(scannedItems)
    {
      hide LexOne, Ends, Scan;
      ScanEnds(l.s);
      while true
        invariant l.Valid() && position == old(position)
        invariant scannedItems + Scan(l.Rest()) == Scan(l.s)
        decreases |l.Rest()|
      {
        ScanStep(l.Rest());
        ghost var before := scannedItems;
        var tok, lit := l.Lex();
        scannedItems := scannedItems + [Item(tok, lit)];
        assert before + ([Item(tok, lit)] + Scan(l.Rest())) == scannedItems + Scan(l.Rest());
        if tok == EndTok {
          break;
        }
      }
    }

    method ParseKeyAndInferOperator() returns (r: Result<KeyOp, Error>)
      requires Ready() && AsValue(Left()[0].tok) in {Ident, Bang}
      modifies this
      ensures scannedItems == old(scannedItems)
      ensures old(Ends(Left())) && Agrees(r, ParseKey(old(Left())))
    {
      LeftEnds();
      EndsTail(Left());
      var operator: Option<Operator> := None;
      var tok, lit := Consume(Values);
      if tok == Bang {
        operator := Some(DoesNotExist);
        tok, lit := Consume(Values);
      }
      if tok != Ident {
        return Err(Found(lit, "identifier"));
      }
      var t := Lookahead(Values).tok;
      if t == EndTok || t == Comma {
        if operator != Some(DoesNotExist) {
          operator := Some(Exists);
        }
      }
      return Ok(KeyOp(lit, operator));
    }

    /** The method's result and the items it leaves are those of the function. */
    ghost predicate Agrees<T>(r: Result<T, Error>, spec: Result<Parsed<T>, Error>)
      reads this
    {
      match spec
      case Err(e) => r == Err(e)
      case Ok(p) => r == Ok(p.value) && Ready() && Left() == p.rest
    }

    method ParseOperator() returns (r: Result<Operator, Error>)
      requires position < |scannedItems|
      modifies this
      ensures scannedItems == old(scannedItems) && position == old(position) + 1
      ensures var op := OperatorOf(old(Left())[0]);
              r == if op.Some? then Ok(op.value) else Err(Found(old(Left())[0].lit, "an operator"))
    {
      var tok, lit := Consume(KeyAndOperator);
      match tok
      case InTok => return Ok(In);
      case EqualTok => return Ok(Equals);
      case PartialTok => return Ok(PartialEquals);
      case DoubleEq => return Ok(DoubleEquals);
      case GreaterTok => return Ok(GreaterThan);
      case LessTok => return Ok(LessThan);
      case NotInTok => return Ok(NotIn);
      case NotEqTok => return Ok(NotEquals);
      case NotPartialTok => return Ok(NotPartialEquals);
      case _ =>
        if lit == "lt" {
          return Ok(LessThan);
        } else if lit == "gt" {
          return Ok(GreaterThan);
        }
        return Err(Found(lit, "an operator"));
    }

    method ParseIdentifiersList() returns (r: Result<seq<string>, Error>)
      requires Ready()
      modifies this
      ensures scannedItems == old(scannedItems)
      ensures old(Ends(Left())) && Agrees(r, ParseIdents(old(Left()), []))
    {
      var s: seq<string> := [];
      LeftEnds();
      while true
        invariant Ready() && scannedItems == old(scannedItems) && Ends(Left())
        invariant ParseIdents(Left(), s) == ParseIdents(old(Left()), [])
        decreases |scannedItems| - position
      {
        ghost var ts := Left();
        if ts[0].tok != EndTok {
          EndsTail(ts);
        }
        var tok, lit := Consume(Values);
        if tok == Ident {
          s := Insert(s, lit);
          LeftEnds();
          var next := Lookahead(Values);
          if next.tok == Comma {
            continue;
          } else if next.tok == ClosedPar {
            return Ok(s);
          } else {
            return Err(Found(next.lit, "',' or ')'"));
          }
        } else if tok == Comma {
          if s == [] {
            s := Insert(s, "");
          }
          LeftEnds();
          var next := Lookahead(Values);
          if next.tok == ClosedPar {
            s := Insert(s, "");
            return Ok(s);
          }
          if next.tok == Comma {
            EndsTail(Left());
            var _, _ := Consume(Values);
            assert Left() == ts[2..];
            s := Insert(s, "");
          }
          LeftEnds();
        } else {
          return Err(Found(lit, "',', or identifier"));
        }
      }
    }

    method ParseValues() returns (r: Result<seq<string>, Error>)
      requires Ready()
      modifies this
      ensures scannedItems == old(scannedItems)
      ensures old(Ends(Left())) && Agrees(r, ParseSet(old(Left())))
    {
      LeftEnds();
      ghost var ts := Left();
      var tok, lit := Consume(Values);
      if tok != OpenPar {
        return Err(Found(lit, "'('"));
      }
      EndsTail(ts);
      var next := Lookahead(Values);
      if next.tok == Ident || next.tok == Comma {
        r := ParseIdentifiersList();
        if r.Err? {
          return;
        }
        LeftEnds();
        EndsTail(Left());
        tok, lit := Consume(Values);
        if tok != ClosedPar {
          return Err(Found(next.lit, "')'"));
        }
      } else if next.tok == ClosedPar {
        EndsTail(Left());
        tok, lit := Consume(Values);
        assert Left() == ts[2..];
        return Ok([""]);
      } else {
        return Err(Found(next.lit, "',', ')' or identifier"));
      }
    }

    method ParseSingleValue() returns (r: Result<seq<string>, Error>)
      requires Ready()
      modifies this
      ensures scannedItems == old(scannedItems)
      ensures old(Ends(Left())) && Agrees(r, ParseSingle(old(Left())))
    {
      LeftEnds();
      var next := Lookahead(Values);
      if next.tok == EndTok || next.tok == Comma {
        return Err(MissingValue);
      }
      EndsTail(Left());
      var tok, lit := Consume(Values);
      if tok == Ident || tok == Quoted {
        return Ok([lit]);
      }
      return Err(Found(lit, "identifier"));
    }

    method ParseRequirement() returns (r: Result<Requirement, Error>)
      requires Ready() && AsValue(Left()[0].tok) in {Ident, Bang}
      modifies this
      ensures scannedItems == old(scannedItems)
      ensures old(Ends(Left())) && Agrees(r, ParseOne(old(Left())))
    {
      LeftEnds();
      var k := ParseKeyAndInferOperator();
      if k.Err? {
        return Err(k.error);
      }
      if k.value.op.Some? {
        if !IsLabelKey(k.value.key) {
          return Err(ExistenceOfField(k.value.key));
        }
        return NewRequirement(k.value.key, k.value.op.value, []);
      }
      EndsTail(Left());
      ghost var us := Left()[1..];
      var op := ParseOperator();
      if op.Err? {
        return Err(op.error);
      }
      assert Left() == us;
      var values: Result<seq<string>, Error>;
      if IsSetOp(op.value) {
        values := ParseValues();
      } else {
        values := ParseSingleValue();
      }
      if values.Err? {
        return Err(values.error);
      }
      return NewRequirement(k.value.key, op.value, values.value);
    }

    /** Parses the whole input; the specification has no state. */
    method Parse() returns (r: Result<seq<Requirement>, Error>)
      requires l.pos == 0 && scannedItems == [] && position == 0
      modifies this, l
      ensures r == ParseText(l.s)
    {
      hide Scan, ParseOne, ParseAll;
      ScanItems();
      var requirements: seq<Requirement> := [];
      LeftEnds();
      while true
        invariant Ready() && Ends(Left())
        invariant ParseAll(Left(), requirements) == ParseText(l.s)
        decreases |scannedItems| - position
      {
        ghost var ts := Left();
        ParseAllEnds(ts, requirements);
        var first := Lookahead(Values);
        if first.tok == Ident || first.tok == Bang {
          var q := ParseRequirement();
          if q.Err? {
            return Err(q.error);
          }
          LeftEnds();
          ParseAllNext(ts, requirements, q.value, Left());
          requirements := requirements + [q.value];
          var t, lit := Consume(Values);
          if t == EndTok {
            return Ok(requirements);
          } else if t == Comma {
            LeftEnds();
            var next := Lookahead(Values);
            if next.tok != Ident && next.tok != Bang {
              return Err(Found(next.lit, "identifier after ','"));
            }
          } else {
            return Err(Found(lit, "',' or 'end of string'"));
          }
        } else if first.tok == EndTok {
          return Ok(requirements);
        } else {
          return Err(Found(first.lit, "!, identifier, or 'end of string'"));
        }
      }
    }
  }
}
