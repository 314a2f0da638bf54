/**
  The remote terminal's control tab: a one-line command box whose text is
  parsed into a request for the drone on every keystroke and sent on Enter.
  The lexer and the line editor are function parameters: the parser works
  on the lexer's token stream, where a lexing error is an `Invalid` item.
 */
module ControlTab {
  import opened Wrappers

  // ---------------------------------------------------------------------
  // Tokens and requests
  // ---------------------------------------------------------------------

  /** Token values; a float token carries the parsed number. */
  datatype Token =
    | Ident(name: string)
    | Float(value: real)
    | Bool(b: bool)
    | Comma
    | Colon
    | ParenOpen
    | ParenClose
    | BracketOpen
    | BracketClose

  /** One item of the lexer's output: a token, or text no rule matched. */
  datatype Lexeme = Tok(token: Token) | Invalid

  type Tokens = seq<Lexeme>

  /** The requests the command box understands. */
  datatype Request =
    | Ping
    | SetArm(arm: bool)
    | ArmConfirm
    | SetThrust(thrust: real)
    | SetTarget(target: seq<real>)
    | SetTune(kp: seq<real>, ki: seq<real>, kd: seq<real>)

  /** Three-element arrays really hold three values. */
  predicate WellFormed(r: Request) {
    match r
    case SetTarget(t) => |t| == 3
    case SetTune(kp, ki, kd) => |kp| == 3 && |ki| == 3 && |kd| == 3
    case _ => true
  }

  datatype ParseError =
    | ExpectedVariant
    | InvalidVariant(name: string)
    | Expected(token: Token)
    | ExpectedBool
    | ExpectedFloat
    | ExpectedIdent
    | MissingKey(key: string)

  // ---------------------------------------------------------------------
  // Token-level helpers
  // ---------------------------------------------------------------------

  /** Exactly `t` must come next. */
  function Consume(ts: Tokens, t: Token): (r: Result<Tokens, ParseError>)
    ensures r.Success? <==> |ts| > 0 && ts[0] == Tok(t)
    ensures r.Success? ==> r.value == ts[1..]
    ensures r.Failure? ==> r.error == Expected(t)
  {
    if |ts| > 0 && ts[0] == Tok(t) then Success(ts[1..]) else Failure(Expected(t))
  }

  /** `t` is skipped when it comes next. */
  function ConsumeOrNot(ts: Tokens, t: Token): (rest: Tokens)
    ensures rest == ts || (|ts| > 0 && ts[0] == Tok(t) && rest == ts[1..])
    ensures |ts| > 0 && ts[0] == Tok(t) ==> rest == ts[1..]
  {
    if |ts| > 0 && ts[0] == Tok(t) then ts[1..] else ts
  }

  function ConsumeFloat(ts: Tokens): (r: Result<(real, Tokens), ParseError>)
    ensures r.Success? <==> |ts| > 0 && ts[0].Tok? && ts[0].token.Float?
    ensures r.Success? ==> r.value == (ts[0].token.value, ts[1..])
    ensures r.Failure? ==> r.error == ExpectedFloat
  {
    if |ts| > 0 && ts[0].Tok? && ts[0].token.Float? then Success((ts[0].token.value, ts[1..]))
    else Failure(ExpectedFloat)
  }

  function ConsumeIdent(ts: Tokens): (r: Result<(string, Tokens), ParseError>)
    ensures r.Success? <==> |ts| > 0 && ts[0].Tok? && ts[0].token.Ident?
    ensures r.Success? ==> r.value == (ts[0].token.name, ts[1..])
    ensures r.Failure? ==> r.error == ExpectedIdent
  {
    if |ts| > 0 && ts[0].Tok? && ts[0].token.Ident? then Success((ts[0].token.name, ts[1..]))
    else Failure(ExpectedIdent)
  }

  /** `n` floats, each optionally followed by a comma. */
  function Floats(ts: Tokens, n: nat): (r: Result<(seq<real>, Tokens), ParseError>)
    ensures r.Success? ==> |r.value.0| == n
    decreases n
  {
    if n == 0 then Success(([], ts))
    else
      match ConsumeFloat(ts)
      case Failure(e) => Failure(e)
      case Success((x, rest)) =>
        match Floats(ConsumeOrNot(rest, Comma), n - 1)
        case Failure(e) => Failure(e)
        case Success((xs, rest2)) => Success(([x] + xs, rest2))
  }

  /** `[f, f, f]` with optional commas. */
  function FloatArray(ts: Tokens): (r: Result<(seq<real>, Tokens), ParseError>)
    ensures r.Success? ==> |r.value.0| == 3
  {
    match Consume(ts, BracketOpen)
    case Failure(e) => Failure(e)
    case Success(rest) =>
      match Floats(rest, 3)
      case Failure(e) => Failure(e)
      case Success((xs, rest2)) =>
        match Consume(rest2, BracketClose)
        case Failure(e) => Failure(e)
        case Success(rest3) => Success((xs, rest3))
  }

  // ---------------------------------------------------------------------
  // The request grammar
  // ---------------------------------------------------------------------

  /** `SetArm ( bool )`: exactly these three tokens after the name. */
  function ParseSetArm(ts: Tokens): (r: Result<Request, ParseError>)
    ensures r.Success? <==>
      (|ts| >= 3 && ts[0] == Tok(ParenOpen) && ts[1].Tok? && ts[1].token.Bool? && ts[2] == Tok(ParenClose))
    ensures r.Success? ==> r.value == SetArm(ts[1].token.b)
  {
    match Consume(ts, ParenOpen)
    case Failure(e) => Failure(e)
    case Success(rest) =>
      if |rest| > 0 && rest[0].Tok? && rest[0].token.Bool? then
        match Consume(rest[1..], ParenClose)
        case Failure(e) => Failure(e)
        case Success(_) => Success(SetArm(rest[0].token.b))
      else Failure(ExpectedBool)
  }

  /** `SetThrust ( float )`: exactly these three tokens after the name. */
  function ParseSetThrust(ts: Tokens): (r: Result<Request, ParseError>)
    ensures r.Success? <==>
      (|ts| >= 3 && ts[0] == Tok(ParenOpen) && ts[1].Tok? && ts[1].token.Float? && ts[2] == Tok(ParenClose))
    ensures r.Success? ==> r.value == SetThrust(ts[1].token.value)
  {
    match Consume(ts, ParenOpen)
    case Failure(e) => Failure(e)
    case Success(rest) =>
      match ConsumeFloat(rest)
      case Failure(e) => Failure(e)
      case Success((x, rest2)) =>
        match Consume(rest2, ParenClose)
        case Failure(e) => Failure(e)
        case Success(_) => Success(SetThrust(x))
  }

  /** `SetTarget ( [ f, f, f ] )`. */
  function ParseSetTarget(ts: Tokens): (r: Result<Request, ParseError>)
    ensures r.Success? ==> r.value.SetTarget? && WellFormed(r.value)
  {
    match Consume(ts, ParenOpen)
    case Failure(e) => Failure(e)
    case Success(rest) =>
      match FloatArray(rest)
      case Failure(e) => Failure(e)
      case Success((xs, rest2)) =>
        match Consume(rest2, ParenClose)
        case Failure(e) => Failure(e)
        case Success(_) => Success(SetTarget(xs))
  }

  /** One `key [:] [f, f, f] [,]` group of a tune request. */
  function TuneGroup(ts: Tokens): (r: Result<(string, seq<real>, Tokens), ParseError>)
    ensures r.Success? ==> |ts| > 0 && ts[0] == Tok(Ident(r.value.0)) && |r.value.1| == 3 && |r.value.2| < |ts|
    ensures !(|ts| > 0 && ts[0].Tok? && ts[0].token.Ident?) ==> r == Failure(ExpectedIdent)
  {
    match ConsumeIdent(ts)
    case Failure(e) => Failure(e)
    case Success((key, rest)) =>
      match FloatArray(ConsumeOrNot(rest, Colon))
      case Failure(e) => Failure(e)
      case Success((xs, rest2)) => Success((key, xs, ConsumeOrNot(rest2, Comma)))
  }

  /** `n` groups, each inserted into the table in turn: a later key replaces an earlier one. */
  function TuneGroups(ts: Tokens, n: nat, table: map<string, seq<real>>): (r: Result<(map<string, seq<real>>, Tokens), ParseError>)
    ensures r.Success? ==> table.Keys <= r.value.0.Keys
    ensures r.Success? && (forall k | k in table :: |table[k]| == 3) ==> forall k | k in r.value.0 :: |r.value.0[k]| == 3
    decreases n
  {
    if n == 0 then Success((table, ts))
    else
      match TuneGroup(ts)
      case Failure(e) => Failure(e)
      case Success((key, xs, rest)) =>
        var next := table[key := xs];
        assert table.Keys <= next.Keys;
        assert (forall k | k in table :: |table[k]| == 3) ==> forall k | k in next :: |next[k]| == 3;
        TuneGroups(rest, n - 1, next)
  }

  /** `SetTune ( group group group )`, then the three gains are looked up in order kp, ki, kd. */
  function ParseSetTune(ts: Tokens): (r: Result<Request, ParseError>)
    ensures r.Success? ==> r.value.SetTune? && WellFormed(r.value)
  {
    match Consume(ts, ParenOpen)
    case Failure(e) => Failure(e)
    case Success(rest) =>
      match TuneGroups(rest, 3, map[])
      case Failure(e) => Failure(e)
      case Success((table, rest2)) =>
        match Consume(rest2, ParenClose)
        case Failure(e) => Failure(e)
        case Success(_) => LookupGains(table)
  }

  /** The three gains from the table, looked up in the order kp, ki, kd. */
  function LookupGains(table: map<string, seq<real>>): (r: Result<Request, ParseError>)
    ensures r.Success? <==> "kp" in table && "ki" in table && "kd" in table
    ensures r.Success? ==> r.value == SetTune(table["kp"], table["ki"], table["kd"])
    ensures r.Failure? ==> r.error.MissingKey? && r.error.key in {"kp", "ki", "kd"} && r.error.key !in table
  {
    if "kp" !in table then Failure(MissingKey("kp"))
    else if "ki" !in table then Failure(MissingKey("ki"))
    else if "kd" !in table then Failure(MissingKey("kd"))
    else Success(SetTune(table["kp"], table["ki"], table["kd"]))
  }

  /** The variant names the parser knows. */
  const Variants: set<string> := {"Ping", "SetArm", "ArmConfirm", "SetThrust", "SetTarget", "SetTune"}

  /**
    A non-blank line: its first token must be an identifier naming a variant;
    the tokens after a complete request are never looked at.
   */
  function Parse(ts: Tokens): (r: Result<Option<Request>, ParseError>)
    ensures r.Success? ==> r.value.Some? && WellFormed(r.value.value)
    ensures (|ts| == 0 || !ts[0].Tok? || !ts[0].token.Ident?) ==> r == Failure(ExpectedVariant)
    ensures |ts| > 0 && ts[0].Tok? && ts[0].token.Ident? && ts[0].token.name !in Variants ==>
      r == Failure(InvalidVariant(ts[0].token.name))
  {
    if |ts| == 0 || !ts[0].Tok? || !ts[0].token.Ident? then Failure(ExpectedVariant)
    else
      var name := ts[0].token.name;
      var rest := ts[1..];
      var request :=
        if name == "Ping" then Success(Ping)
        else if name == "SetArm" then ParseSetArm(rest)
        else if name == "ArmConfirm" then Success(ArmConfirm)
        else if name == "SetThrust" then ParseSetThrust(rest)
        else if name == "SetTarget" then ParseSetTarget(rest)
        else if name == "SetTune" then ParseSetTune(rest)
        else Failure(InvalidVariant(name));
      match request
      case Failure(e) => Failure(e)
      case Success(req) => Success(Some(req))
  }

  /** `char::is_whitespace`: the Unicode White_Space characters. */
  predicate IsWhitespace(c: char) {
    ('\t' <= c <= '\r') || c == ' ' || c == '\U{0085}' || c == '\U{00A0}' || c == '\U{1680}'
    || ('\U{2000}' <= c <= '\U{200A}') || c == '\U{2028}' || c == '\U{2029}' || c == '\U{202F}'
    || c == '\U{205F}' || c == '\U{3000}'
  }

  /** `text.trim().is_empty()`. */
  predicate Blank(text: string) {
    forall i :: 0 <= i < |text| ==> IsWhitespace(text[i])
  }

  /** `parse_input`: a blank line is no request; anything else goes to the grammar. */
  function ParseInput(text: string, lex: string -> Tokens): (r: Result<Option<Request>, ParseError>)
    ensures Blank(text) ==> r == Success(None)
    ensures r == Success(None) ==> Blank(text)
  {
    if Blank(text) then Success(None) else Parse(lex(text))
  }

  // ---------------------------------------------------------------------
  // Float literals
  // ---------------------------------------------------------------------

  /** The text with every underscore removed, the rest in order. */
  function StripUnderscores(text: string): (r: string)
    ensures '_' !in r
    ensures |r| <= |text|
    ensures '_' !in text ==> r == text
  {
    if |text| == 0 then ""
    else (if text[0] == '_' then "" else [text[0]]) + StripUnderscores(text[1..])
  }

  lemma {:induction false} StripAppend(a: string, b: string)
    ensures StripUnderscores(a + b) == StripUnderscores(a) + StripUnderscores(b)
    decreases |a|
  {
    if |a| > 0 {
      assert (a + b)[1..] == a[1..] + b;
      StripAppend(a[1..], b);
    } else {
      assert a + b == b;
    }
  }

  /** `parse_float`: Rust's float syntax (a parameter here) applied to the text without underscores. */
  function ParseFloat(text: string, parse: string -> Option<real>): (r: Option<real>)
  {
    parse(StripUnderscores(text))
  }

  /** An underscore anywhere in a literal changes nothing: `1_000.5` reads as `1000.5`. */
  lemma UnderscoreIgnored(a: string, b: string, parse: string -> Option<real>)
    ensures ParseFloat(a + "_" + b, parse) == ParseFloat(a + b, parse)
  {
    assert "_"[1..] == "";
    assert StripUnderscores("_") == "";
    StripAppend(a + "_", b);
    StripAppend(a, "_");
    StripAppend(a, b);
    assert StripUnderscores(a + "_") == StripUnderscores(a);
    assert StripUnderscores(a + "_" + b) == StripUnderscores(a + b);
  }

  // ---------------------------------------------------------------------
  // Rendering: the grammar's canonical text, as tokens
  // ---------------------------------------------------------------------

  /** Each value as a float token, with a comma between neighbours when `punctuated`. */
  function FloatTokens(xs: seq<real>, punctuated: bool): (ts: Tokens)
    ensures |xs| > 0 ==> |ts| > 0 && ts[0] == Tok(Float(xs[0]))
  {
    if |xs| == 0 then []
    else [Tok(Float(xs[0]))] + (if punctuated && |xs| > 1 then [Tok(Comma)] else []) + FloatTokens(xs[1..], punctuated)
  }

  function ArrayTokens(xs: seq<real>, punctuated: bool): Tokens {
    [Tok(BracketOpen)] + FloatTokens(xs, punctuated) + [Tok(BracketClose)]
  }

  /** `key: [f, f, f]`, or `key [f f f]` without punctuation. */
  function GroupTokens(key: string, xs: seq<real>, punctuated: bool): (ts: Tokens)
    ensures |ts| > 0 && ts[0] == Tok(Ident(key))
  {
    [Tok(Ident(key))] + (if punctuated then [Tok(Colon)] else []) + ArrayTokens(xs, punctuated)
  }

  /** Groups one after the other, separated by commas when `punctuated`. */
  function GroupsTokens(keys: seq<string>, values: seq<seq<real>>, punctuated: bool): (ts: Tokens)
    requires |keys| == |values|
    ensures |keys| > 0 ==> |ts| > 0 && ts[0] == Tok(Ident(keys[0]))
  {
    if |keys| == 0 then []
    else
      var sep: Tokens := if punctuated && |keys| > 1 then [Tok(Comma)] else [];
      GroupTokens(keys[0], values[0], punctuated) + sep + GroupsTokens(keys[1..], values[1..], punctuated)
  }

  function VariantName(r: Request): (name: string)
    ensures name in Variants
  {
    match r
    case Ping => "Ping"
    case SetArm(_) => "SetArm"
    case ArmConfirm => "ArmConfirm"
    case SetThrust(_) => "SetThrust"
    case SetTarget(_) => "SetTarget"
    case SetTune(_, _, _) => "SetTune"
  }

  /** The tokens of a request as its format writes it, with or without the optional punctuation. */
  function Render(r: Request, punctuated: bool): (ts: Tokens)
    requires WellFormed(r)
    ensures |ts| > 0 && ts[0] == Tok(Ident(VariantName(r)))
  {
    var head := [Tok(Ident(VariantName(r)))];
    match r
    case Ping => head
    case SetArm(b) => head + [Tok(ParenOpen), Tok(Bool(b)), Tok(ParenClose)]
    case ArmConfirm => head
    case SetThrust(x) => head + [Tok(ParenOpen), Tok(Float(x)), Tok(ParenClose)]
    case SetTarget(xs) => head + [Tok(ParenOpen)] + ArrayTokens(xs, punctuated) + [Tok(ParenClose)]
    case SetTune(kp, ki, kd) =>
      head + [Tok(ParenOpen)] + GroupsTokens(["kp", "ki", "kd"], [kp, ki, kd], punctuated) + [Tok(ParenClose)]
  }

  /** The tune request's tokens with its groups in any order. */
  function TuneTokens(keys: seq<string>, values: seq<seq<real>>, punctuated: bool): Tokens
    requires |keys| == |values|
  {
    [Tok(Ident("SetTune")), Tok(ParenOpen)] + GroupsTokens(keys, values, punctuated) + [Tok(ParenClose)]
  }

  /** The table after inserting the groups in turn. */
  function Insert(table: map<string, seq<real>>, keys: seq<string>, values: seq<seq<real>>): map<string, seq<real>>
    requires |keys| == |values|
    decreases |keys|
  {
    if |keys| == 0 then table else Insert(table[keys[0] := values[0]], keys[1..], values[1..])
  }

  // ---------------------------------------------------------------------
  // Properties of the grammar
  // ---------------------------------------------------------------------

  predicate NoLeadingComma(ts: Tokens) {
    |ts| == 0 || ts[0] != Tok(Comma)
  }

  /** `Floats` over a leading float: the rest is read after an optional comma, the float in front. */
  lemma FloatsCons(x: real, rest: Tokens, n: nat)
    requires n > 0
    ensures var tailRead := Floats(ConsumeOrNot(rest, Comma), n - 1);
      Floats([Tok(Float(x))] + rest, n)
        == if tailRead.Failure? then Failure(tailRead.error) else Success(([x] + tailRead.value.0, tailRead.value.1))
  {
    var ts := [Tok(Float(x))] + rest;
    assert ts[1..] == rest;
    assert ConsumeFloat(ts) == Success((x, rest));
  }

  /** The separator after a float, if any, is one comma, and nothing after it starts with a comma. */
  lemma FloatSeparator(xs: seq<real>, punctuated: bool, tail: Tokens)
    requires |xs| > 0 && NoLeadingComma(tail)
    ensures var sep: Tokens := if punctuated && |xs| > 1 then [Tok(Comma)] else [];
      ConsumeOrNot(sep + (FloatTokens(xs[1..], punctuated) + tail), Comma) == FloatTokens(xs[1..], punctuated) + tail
  {
    if |xs| > 1 {
      assert xs[1..][0] == xs[1];
    } else {
      assert FloatTokens(xs[1..], punctuated) + tail == tail;
    }
  }

  lemma {:induction false} FloatsRead(xs: seq<real>, punctuated: bool, tail: Tokens)
    requires NoLeadingComma(tail)
    ensures Floats(FloatTokens(xs, punctuated) + tail, |xs|) == Success((xs, tail))
    decreases |xs|
  {
    if |xs| > 0 {
      var sep: Tokens := if punctuated && |xs| > 1 then [Tok(Comma)] else [];
      var more := FloatTokens(xs[1..], punctuated) + tail;
      AppendAssociates([Tok(Float(xs[0]))] + sep, FloatTokens(xs[1..], punctuated), tail);
      AppendAssociates([Tok(Float(xs[0]))], sep, more);
      FloatsCons(xs[0], sep + more, |xs|);
      FloatSeparator(xs, punctuated, tail);
      FloatsRead(xs[1..], punctuated, tail);
      assert [xs[0]] + xs[1..] == xs;
    } else {
      assert FloatTokens(xs, punctuated) + tail == tail;
    }
  }

  lemma FloatArrayRead(xs: seq<real>, punctuated: bool, tail: Tokens)
    requires |xs| == 3
    ensures FloatArray(ArrayTokens(xs, punctuated) + tail) == Success((xs, tail))
  {
    var inner := FloatTokens(xs, punctuated);
    AppendAssociates([Tok(BracketOpen)] + inner, [Tok(BracketClose)], tail);
    AppendAssociates([Tok(BracketOpen)], inner, [Tok(BracketClose)] + tail);
    FloatsRead(xs, punctuated, [Tok(BracketClose)] + tail);
  }

  lemma TuneGroupRead(key: string, xs: seq<real>, punctuated: bool, sep: Tokens, tail: Tokens)
    requires |xs| == 3 && (sep == [] || sep == [Tok(Comma)]) && (sep == [] ==> NoLeadingComma(tail))
    ensures TuneGroup(GroupTokens(key, xs, punctuated) + sep + tail) == Success((key, xs, tail))
  {
    var colon: Tokens := if punctuated then [Tok(Colon)] else [];
    var after := ArrayTokens(xs, punctuated) + (sep + tail);
    var bracketed := ArrayTokens(xs, punctuated);
    AppendAssociates([Tok(Ident(key))] + colon + bracketed, sep, tail);
    AppendAssociates([Tok(Ident(key))] + colon, bracketed, sep + tail);
    AppendAssociates([Tok(Ident(key))], colon, after);
    var ts := GroupTokens(key, xs, punctuated) + sep + tail;
    assert ConsumeIdent(ts) == Success((key, colon + after));
    assert after[0] == Tok(BracketOpen);
    assert ConsumeOrNot(colon + after, Colon) == after;
    FloatArrayRead(xs, punctuated, sep + tail);
    assert ConsumeOrNot(sep + tail, Comma) == tail;
  }

  /** The tokens of the groups and what follows them: the first group, its separator, then the rest. */
  lemma GroupsTokensAppend(keys: seq<string>, values: seq<seq<real>>, punctuated: bool, tail: Tokens)
    requires |keys| == |values| && |keys| > 0
    ensures var sep: Tokens := if punctuated && |keys| > 1 then [Tok(Comma)] else [];
      GroupsTokens(keys, values, punctuated) + tail
        == GroupTokens(keys[0], values[0], punctuated) + sep + (GroupsTokens(keys[1..], values[1..], punctuated) + tail)
  {
    var sep: Tokens := if punctuated && |keys| > 1 then [Tok(Comma)] else [];
    var head := GroupTokens(keys[0], values[0], punctuated) + sep;
    var rest := GroupsTokens(keys[1..], values[1..], punctuated);
    AppendAssociates(head, rest, tail);
  }

  lemma AppendAssociates(a: Tokens, b: Tokens, c: Tokens)
    ensures a + b + c == a + (b + c)
  {
  }

  /** Groups start with a key, so they never start with a comma. */
  lemma GroupsNoLeadingComma(keys: seq<string>, values: seq<seq<real>>, punctuated: bool, tail: Tokens)
    requires |keys| == |values| && NoLeadingComma(tail)
    ensures NoLeadingComma(GroupsTokens(keys, values, punctuated) + tail)
  {
    if |keys| == 0 {
      assert GroupsTokens(keys, values, punctuated) + tail == tail;
    }
  }

  lemma {:induction false} TuneGroupsRead(keys: seq<string>, values: seq<seq<real>>, punctuated: bool, tail: Tokens, table: map<string, seq<real>>)
    requires |keys| == |values| && (forall i :: 0 <= i < |values| ==> |values[i]| == 3)
    requires NoLeadingComma(tail)
    ensures TuneGroups(GroupsTokens(keys, values, punctuated) + tail, |keys|, table)
         == Success((Insert(table, keys, values), tail))
    decreases |keys|
  {
    if |keys| > 0 {
      var sep: Tokens := if punctuated && |keys| > 1 then [Tok(Comma)] else [];
      var more := GroupsTokens(keys[1..], values[1..], punctuated) + tail;
      GroupsTokensAppend(keys, values, punctuated, tail);
      GroupsNoLeadingComma(keys[1..], values[1..], punctuated, tail);
      TuneGroupRead(keys[0], values[0], punctuated, sep, more);
      TuneGroupsRead(keys[1..], values[1..], punctuated, tail, table[keys[0] := values[0]]);
    } else {
      assert GroupsTokens(keys, values, punctuated) + tail == tail;
    }
  }

  /** Every key inserted, and only those, is in the table. */
  lemma {:induction false} InsertKeys(table: map<string, seq<real>>, keys: seq<string>, values: seq<seq<real>>, k: string)
    requires |keys| == |values|
    ensures k in Insert(table, keys, values) <==> k in table || k in keys
    ensures k !in keys && k in table ==> Insert(table, keys, values)[k] == table[k]
    decreases |keys|
  {
    if |keys| > 0 {
      InsertKeys(table[keys[0] := values[0]], keys[1..], values[1..], k);
      assert k in keys <==> k == keys[0] || k in keys[1..];
    }
  }

  /** A key given more than once keeps the value of its last group. */
  lemma {:induction false} LaterKeyWins(table: map<string, seq<real>>, keys: seq<string>, values: seq<seq<real>>, i: nat)
    requires |keys| == |values| && i < |keys|
    requires forall j :: i < j < |keys| ==> keys[j] != keys[i]
    ensures keys[i] in Insert(table, keys, values) && Insert(table, keys, values)[keys[i]] == values[i]
    decreases |keys|
  {
    if i == 0 {
      var rest := table[keys[0] := values[0]];
      assert keys[0] !in keys[1..] by {
        forall j | 0 <= j < |keys| - 1 ensures keys[1..][j] != keys[0] {
          assert keys[1..][j] == keys[j + 1];
        }
      }
      InsertKeys(rest, keys[1..], values[1..], keys[0]);
    } else {
      forall j | i - 1 < j < |keys| - 1 ensures keys[1..][j] != keys[1..][i - 1] {
        assert keys[1..][j] == keys[j + 1];
      }
      LaterKeyWins(table[keys[0] := values[0]], keys[1..], values[1..], i - 1);
    }
  }

  /** What `request`'s gain for `key` is. */
  function Gain(request: Request, key: string): seq<real>
    requires request.SetTune?
  {
    if key == "kp" then request.kp else if key == "ki" then request.ki else request.kd
  }

  /** A tune request's groups fill the table in turn, then the gains are looked up. */
  lemma TuneReadsTable(keys: seq<string>, values: seq<seq<real>>, punctuated: bool, tail: Tokens)
    requires |keys| == |values| == 3 && (forall i :: 0 <= i < 3 ==> |values[i]| == 3)
    ensures var r := Parse(TuneTokens(keys, values, punctuated) + tail);
      var g := LookupGains(Insert(map[], keys, values));
      (g.Success? ==> r == Success(Some(g.value))) && (g.Failure? ==> r == Failure(g.error))
  {
    var groups := GroupsTokens(keys, values, punctuated);
    var ts := TuneTokens(keys, values, punctuated) + tail;
    var rest := ts[1..];
    assert ts[0] == Tok(Ident("SetTune"));
    assert rest == [Tok(ParenOpen)] + (groups + ([Tok(ParenClose)] + tail));
    assert Consume(rest, ParenOpen) == Success(groups + ([Tok(ParenClose)] + tail));
    TuneGroupsRead(keys, values, punctuated, [Tok(ParenClose)] + tail, map[]);
    assert ParseSetTune(rest) == LookupGains(Insert(map[], keys, values));
  }

  /** The three gains can be given in any order. */
  lemma TuneAnyOrder(keys: seq<string>, values: seq<seq<real>>, punctuated: bool, tail: Tokens)
    requires |keys| == |values| == 3 && (forall i :: 0 <= i < 3 ==> |values[i]| == 3)
    requires {keys[0], keys[1], keys[2]} == {"kp", "ki", "kd"}
    ensures var r := Parse(TuneTokens(keys, values, punctuated) + tail);
      r.Success? && r.value.Some? && r.value.value.SetTune?
      && forall i :: 0 <= i < 3 ==> Gain(r.value.value, keys[i]) == values[i]
  {
    TuneOrderGains(keys, values);
    TuneReadsTable(keys, values, punctuated, tail);
  }

  lemma TuneOrderGains(keys: seq<string>, values: seq<seq<real>>)
    requires |keys| == |values| == 3
    requires {keys[0], keys[1], keys[2]} == {"kp", "ki", "kd"}
    ensures var g := LookupGains(Insert(map[], keys, values));
      g.Success? && g.value.SetTune? && forall i :: 0 <= i < 3 ==> Gain(g.value, keys[i]) == values[i]
  {
    GainNamesDistinct(keys);
    DistinctKeysTable(keys, values);
    var table := Insert(map[], keys, values);
    assert "kp" in table && "ki" in table && "kd" in table;
    var request := SetTune(table["kp"], table["ki"], table["kd"]);
    forall i | 0 <= i < 3 ensures Gain(request, keys[i]) == values[i] {
      assert keys[i] in {keys[0], keys[1], keys[2]};
      GainOfTable(table, keys[i]);
    }
  }

  lemma GainOfTable(table: map<string, seq<real>>, key: string)
    requires "kp" in table && "ki" in table && "kd" in table && key in {"kp", "ki", "kd"}
    ensures Gain(SetTune(table["kp"], table["ki"], table["kd"]), key) == table[key]
  {
  }

  lemma DistinctKeysTable(keys: seq<string>, values: seq<seq<real>>)
    requires |keys| == |values| == 3
    requires keys[0] != keys[1] && keys[0] != keys[2] && keys[1] != keys[2]
    ensures var table := Insert(map[], keys, values);
      forall i :: 0 <= i < 3 ==> keys[i] in table && table[keys[i]] == values[i]
  {
    LaterKeyWins(map[], keys, values, 0);
    LaterKeyWins(map[], keys, values, 1);
    LaterKeyWins(map[], keys, values, 2);
  }

  lemma GainNamesDistinct(keys: seq<string>)
    requires |keys| == 3 && {keys[0], keys[1], keys[2]} == {"kp", "ki", "kd"}
    ensures keys[0] != keys[1] && keys[0] != keys[2] && keys[1] != keys[2]
    ensures keys[0] == "kp" || keys[1] == "kp" || keys[2] == "kp"
    ensures keys[0] == "ki" || keys[1] == "ki" || keys[2] == "ki"
    ensures keys[0] == "kd" || keys[1] == "kd" || keys[2] == "kd"
  {
    var named := {keys[0], keys[1], keys[2]};
    assert "kp" in named && "ki" in named && "kd" in named;
  }

  /** A gain no group names is reported missing, checked in the order kp, ki, kd. */
  lemma TuneMissingGain(keys: seq<string>, values: seq<seq<real>>, punctuated: bool, tail: Tokens)
    requires |keys| == |values| == 3 && (forall i :: 0 <= i < 3 ==> |values[i]| == 3)
    requires "kp" !in keys || "ki" !in keys || "kd" !in keys
    ensures var r := Parse(TuneTokens(keys, values, punctuated) + tail);
      r.Failure? && r.error.MissingKey? && r.error.key in {"kp", "ki", "kd"} && r.error.key !in keys
  {
    TuneReadsTable(keys, values, punctuated, tail);
    InsertKeys(map[], keys, values, "kp");
    InsertKeys(map[], keys, values, "ki");
    InsertKeys(map[], keys, values, "kd");
  }

  /** A key given twice leaves a gain unset, so the request is refused. */
  lemma TuneDuplicateRefused(keys: seq<string>, values: seq<seq<real>>, punctuated: bool, tail: Tokens, i: nat, j: nat)
    requires |keys| == |values| == 3 && (forall k :: 0 <= k < 3 ==> |values[k]| == 3)
    requires i < j < 3 && keys[i] == keys[j]
    ensures var r := Parse(TuneTokens(keys, values, punctuated) + tail);
      r.Failure? && r.error.MissingKey?
  {
    var k := 3 - i - j;
    assert forall x | x in keys :: x == keys[i] || x == keys[k] by {
      assert keys == [keys[0], keys[1], keys[2]];
    }
    TuneMissingGain(keys, values, punctuated, tail);
  }

  /** Every request survives rendering and parsing, with or without the optional punctuation, whatever follows it. */
  lemma ParseRender(r: Request, punctuated: bool, tail: Tokens)
    requires WellFormed(r)
    ensures Parse(Render(r, punctuated) + tail) == Success(Some(r))
  {
    match r
    case SetTarget(xs) => ParseRenderTarget(xs, punctuated, tail);
    case SetTune(kp, ki, kd) => ParseRenderTune(kp, ki, kd, punctuated, tail);
    case SetArm(b) => ParseRenderArm(b, punctuated, tail);
    case SetThrust(x) => ParseRenderThrust(x, punctuated, tail);
    case _ =>
  }

  lemma ParseRenderArm(b: bool, punctuated: bool, tail: Tokens)
    ensures Parse(Render(SetArm(b), punctuated) + tail) == Success(Some(SetArm(b)))
  {
    var ts := Render(SetArm(b), punctuated) + tail;
    assert ts[1..] == [Tok(ParenOpen), Tok(Bool(b)), Tok(ParenClose)] + tail;
  }

  lemma ParseRenderThrust(x: real, punctuated: bool, tail: Tokens)
    ensures Parse(Render(SetThrust(x), punctuated) + tail) == Success(Some(SetThrust(x)))
  {
    var ts := Render(SetThrust(x), punctuated) + tail;
    assert ts[1..] == [Tok(ParenOpen), Tok(Float(x)), Tok(ParenClose)] + tail;
  }

  lemma ParseRenderTarget(xs: seq<real>, punctuated: bool, tail: Tokens)
    requires |xs| == 3
    ensures Parse(Render(SetTarget(xs), punctuated) + tail) == Success(Some(SetTarget(xs)))
  {
    var ts := Render(SetTarget(xs), punctuated) + tail;
    var inner := ArrayTokens(xs, punctuated) + ([Tok(ParenClose)] + tail);
    assert ts[1..] == [Tok(ParenOpen)] + inner;
    assert Consume(ts[1..], ParenOpen) == Success(inner);
    FloatArrayRead(xs, punctuated, [Tok(ParenClose)] + tail);
    assert ParseSetTarget(ts[1..]) == Success(SetTarget(xs));
  }

  lemma ParseRenderTune(kp: seq<real>, ki: seq<real>, kd: seq<real>, punctuated: bool, tail: Tokens)
    requires |kp| == 3 && |ki| == 3 && |kd| == 3
    ensures Parse(Render(SetTune(kp, ki, kd), punctuated) + tail) == Success(Some(SetTune(kp, ki, kd)))
  {
    var keys, values := ["kp", "ki", "kd"], [kp, ki, kd];
    assert Render(SetTune(kp, ki, kd), punctuated) == TuneTokens(keys, values, punctuated);
    TuneReadsTable(keys, values, punctuated, tail);
    DistinctKeysTable(keys, values);
  }

  // ---------------------------------------------------------------------
  // The tab's input state machine
  // ---------------------------------------------------------------------

  datatype InputMode = Inactive | Editing

  datatype Key = Esc | Enter | Character(c: char) | OtherKey

  /** A terminal event: a key, or anything else (mouse, resize, focus). */
  datatype Event = KeyPress(key: Key) | OtherEvent

  /** The mode, the edited text, and the parse shown under the box. */
  datatype Tab = Tab(mode: InputMode, input: string, parsed: Result<Option<Request>, ParseError>)

  /** The shown parse is the parse of the text in the box. */
  predicate Consistent(tab: Tab, lex: string -> Tokens) {
    tab.parsed == ParseInput(tab.input, lex)
  }

  /** `ControlTab::new`: inactive, empty, nothing parsed. */
  function NewTab(): (tab: Tab)
    ensures tab.mode == Inactive && tab.input == ""
    ensures forall lex: string -> Tokens :: Consistent(tab, lex)
  {
    Tab(Inactive, "", Success(None))
  }

  /** Whether the event was consumed, the tab after it, and the requests sent on the channel. */
  datatype Handled = Handled(consumed: bool, tab: Tab, sent: seq<Request>)

  /**
    `handle_event`.  An inactive tab consumes nothing.  Otherwise Esc leaves
    editing; Enter sends the request shown (if the shown parse is one), clears
    the text and leaves editing.  The line editor (`edit`) then sees the event
    in every case, and the new text is parsed.
   */
  function HandleEvent(tab: Tab, event: Event, edit: (string, Event) -> string, lex: string -> Tokens): (h: Handled)
    ensures tab.mode == Inactive ==> h == Handled(false, tab, [])
    ensures tab.mode == Editing ==> h.consumed && Consistent(h.tab, lex)
    ensures tab.mode == Editing ==>
      (h.tab.mode == Inactive <==> event in {KeyPress(Esc), KeyPress(Enter)})
    ensures |h.sent| <= 1
    ensures |h.sent| == 1 <==>
      (tab.mode == Editing && event == KeyPress(Enter) && tab.parsed.Success? && tab.parsed.value.Some?)
    ensures |h.sent| == 1 ==> h.sent[0] == tab.parsed.value.value
  {
    if tab.mode == Inactive then Handled(false, tab, [])
    else
      var mode := if event in {KeyPress(Esc), KeyPress(Enter)} then Inactive else Editing;
      var text := if event == KeyPress(Enter) then "" else tab.input;
      var sent := if event == KeyPress(Enter) && tab.parsed.Success? && tab.parsed.value.Some? then [tab.parsed.value.value] else [];
      var edited := edit(text, event);
      assert tab.mode == Editing;
      Handled(true, Tab(mode, edited, ParseInput(edited, lex)), sent)
  }

  /** `toggle_input`: editing becomes inactive and the other way round; nothing else changes. */
  function ToggleInput(tab: Tab): (t: Tab)
    ensures t.mode != tab.mode && t.input == tab.input && t.parsed == tab.parsed
  {
    tab.(mode := if tab.mode == Editing then Inactive else Editing)
  }

  lemma ToggleTwice(tab: Tab)
    ensures ToggleInput(ToggleInput(tab)) == tab
  {
  }

  /** Every event and every toggle keeps the shown parse in step with the text. */
  lemma StaysConsistent(tab: Tab, event: Event, edit: (string, Event) -> string, lex: string -> Tokens)
    requires Consistent(tab, lex)
    ensures Consistent(HandleEvent(tab, event, edit, lex).tab, lex)
    ensures Consistent(ToggleInput(tab), lex)
  {
  }

  /** Enter sends exactly the request the text in the box parses to, and nothing for blank or bad text. */
  lemma EnterSendsParsedText(tab: Tab, edit: (string, Event) -> string, lex: string -> Tokens)
    requires Consistent(tab, lex) && tab.mode == Editing
    ensures var h := HandleEvent(tab, KeyPress(Enter), edit, lex);
      var p := ParseInput(tab.input, lex);
      (p.Success? && p.value.Some? ==> h.sent == [p.value.value])
      && (p.Failure? || p.value.None? ==> h.sent == [])
      && h.tab.mode == Inactive && h.tab.input == edit("", KeyPress(Enter))
  {
  }

  /** Esc leaves editing but keeps the text, edited as the line editor sees the key. */
  lemma EscKeepsText(tab: Tab, edit: (string, Event) -> string, lex: string -> Tokens)
    requires tab.mode == Editing
    ensures var h := HandleEvent(tab, KeyPress(Esc), edit, lex);
      h.tab.mode == Inactive && h.tab.input == edit(tab.input, KeyPress(Esc)) && h.sent == []
  {
  }

  /** A sent request is always a well-formed one. */
  lemma SentWellFormed(tab: Tab, event: Event, edit: (string, Event) -> string, lex: string -> Tokens)
    requires Consistent(tab, lex)
    ensures forall i :: 0 <= i < |HandleEvent(tab, event, edit, lex).sent| ==>
      WellFormed(HandleEvent(tab, event, edit, lex).sent[i])
  {
    var p := ParseInput(tab.input, lex);
    if p.Success? && p.value.Some? {
      assert !Blank(tab.input);
    }
  }
}
