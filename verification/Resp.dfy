/** RESP: the printer for commands (arrays of bulk strings) and the resumable reply parser.
    A reply may arrive cut into pieces anywhere; what the parser cannot finish it carries over
    and puts in front of the next piece. */
module Resp {
  import opened Common

  type Byte = b: int | 0 <= b < 256
  type Bytes = seq<Byte>

  const CR: Byte := 13
  const LF: Byte := 10
  const CRLF: Bytes := [CR, LF]
  const MINUS: Byte := 45
  const PLUS: Byte := 43
  const COLON: Byte := 58
  const DOLLAR: Byte := 36
  const STAR: Byte := 42

  // ----- decimal numbers

  /** What sprintf("%d") prints for a non-negative number. */
  function Dec(n: nat): (s: Bytes)
    ensures s != [] && forall i :: 0 <= i < |s| ==> 48 <= s[i] <= 57
  {
    if n < 10 then [48 + n] else Dec(n / 10) + [48 + n % 10]
  }

  predicate IsDigit(b: Byte) {
    48 <= b <= 57
  }

  predicate IsSpace(b: Byte) {
    b == 32 || 9 <= b <= 13
  }

  function AtoiDigits(s: Bytes, acc: nat): nat {
    if s == [] || !IsDigit(s[0]) then acc else AtoiDigits(s[1..], 10 * acc + (s[0] - 48))
  }

  /** atoi: leading space, an optional sign, digits up to the first other character. */
  function Atoi(s: Bytes): int {
    if s == [] then 0
    else if IsSpace(s[0]) then Atoi(s[1..])
    else if s[0] == MINUS then -(AtoiDigits(s[1..], 0) as int)
    else if s[0] == PLUS then AtoiDigits(s[1..], 0)
    else AtoiDigits(s, 0)
  }

  lemma {:induction false} AtoiDigitsSnoc(s: Bytes, d: Byte, acc: nat)
    requires (forall i :: 0 <= i < |s| ==> IsDigit(s[i])) && IsDigit(d)
    ensures AtoiDigits(s + [d], acc) == 10 * AtoiDigits(s, acc) + (d - 48)
  {
    if s == [] {
      assert (s + [d])[1..] == [];
    } else {
      assert (s + [d])[1..] == s[1..] + [d];
      AtoiDigitsSnoc(s[1..], d, 10 * acc + (s[0] - 48));
    }
  }

  lemma {:induction false} AtoiDigitsDec(n: nat)
    ensures AtoiDigits(Dec(n), 0) == n
  {
    if n >= 10 {
      AtoiDigitsDec(n / 10);
      AtoiDigitsSnoc(Dec(n / 10), 48 + n % 10, 0);
    } else {
      assert Dec(n)[1..] == [];
    }
  }

  /** Reading back a printed number. */
  lemma AtoiDec(n: nat)
    ensures Atoi(Dec(n)) == n
  {
    AtoiDigitsDec(n);
  }

  // ----- the printer

  function Bulk(s: Bytes): Bytes {
    [DOLLAR] + Dec(|s|) + CRLF + s + CRLF
  }

  function Body(args: seq<Bytes>): Bytes {
    if args == [] then [] else Bulk(args[0]) + Body(args[1..])
  }

  function Command(args: seq<Bytes>): Bytes {
    [STAR] + Dec(|args|) + CRLF + Body(args)
  }

  lemma {:induction false} BodySnoc(args: seq<Bytes>, s: Bytes)
    ensures Body(args + [s]) == Body(args) + Bulk(s)
  {
    if args == [] {
      assert (args + [s])[1..] == [];
    } else {
      assert (args + [s])[1..] == args[1..] + [s];
      BodySnoc(args[1..], s);
    }
  }

  /** createRedisCommand: false for an empty parameter list, else the command's bytes. */
  method CreateRedisCommand(params: seq<Bytes>) returns (ok: bool, cmd: Bytes)
    ensures ok <==> params != []
    ensures ok ==> cmd == Command(params)
  {
    if params == [] { return false, []; }
    cmd := [STAR] + Dec(|params|) + CRLF;
    ghost var head := cmd;
    for i := 0 to |params|
      invariant cmd == head + Body(params[..i])
    {
      BodySnoc(params[..i], params[i]);
      assert params[..i + 1] == params[..i] + [params[i]];
      cmd := cmd + ([DOLLAR] + Dec(|params[i]|) + CRLF);
      cmd := cmd + params[i];
      cmd := cmd + CRLF;
    }
    assert params[..|params|] == params;
    ok := true;
  }

  // ----- the parser as a value

  datatype ParseState = Unknown | Type | Integer | Result | Length | Str | ArrayLength

  datatype ReplyType = NoReply | Error | Status | IntegerReply | StringReply | ArrayReply | UnknownReply

  datatype Item = Text(bytes: Bytes) | Nil

  /** The members of the connection that survive between two pieces, and the reply so far. */
  datatype Parser = Parser(
    state: ParseState, valid: bool, arrayNum: int, doneNum: int, arrayLen: int,
    reply: ReplyType, intValue: int, text: Bytes, items: seq<Item>)

  const Fresh := Parser(Unknown, false, 0, 0, 0, NoReply, 0, [], [])

  /** strstr(buf, CR LF) on a buffer that is followed by zero bytes. */
  function FindCrlf(s: Bytes): (r: Option<nat>)
    ensures r.Some? ==> r.value + 2 <= |s| && s[r.value] == CR && s[r.value + 1] == LF
  {
    if |s| < 2 || s[0] == 0 then None
    else if s[0] == CR && s[1] == LF then Some(0)
    else
      match FindCrlf(s[1..])
      case Some(i) => Some(i + 1)
      case None => None
  }

  /** What one pass through the parse loop does: go on with the rest, wait for more data, or
      give up. */
  datatype Outcome =
    | Go(parser: Parser, rest: Bytes, haveArray: bool)
    | Wait(parser: Parser, rest: Bytes)
    | Fail(parser: Parser)

  function Push(p: Parser, item: Item): Parser {
    var q := p.(items := p.items + [item], doneNum := p.doneNum + 1);
    if q.doneNum < q.arrayNum then q.(state := Length) else q.(valid := true)
  }

  function Step(p: Parser, s: Bytes, haveArray: bool): (o: Outcome)
    requires s != []
    ensures o.Go? ==> |o.rest| < |s|
    ensures o.Wait? ==> |o.rest| <= |s|
  {
    match p.state
    case Unknown => Fail(p)
    case Type =>
      if s[0] == MINUS then Go(p.(state := Result, reply := Error), s[1..], haveArray)
      else if s[0] == PLUS then Go(p.(state := Result, reply := Status), s[1..], haveArray)
      else if s[0] == COLON then Go(p.(state := Integer, reply := IntegerReply), s[1..], haveArray)
      else if s[0] == DOLLAR then Go(p.(state := Length, reply := StringReply, arrayNum := 1), s[1..], haveArray)
      else if s[0] == STAR then Go(p.(state := ArrayLength, reply := ArrayReply), s[1..], haveArray)
      else Fail(p.(reply := UnknownReply))
    case Integer =>
      (match FindCrlf(s)
       case None => Wait(p, s)
       case Some(i) => Go(p.(intValue := Atoi(s[..i]), valid := true), s[i + 2..], haveArray))
    case Result =>
      (match FindCrlf(s)
       case None => Wait(p, s)
       case Some(i) => Go(p.(text := s[..i], valid := true), s[i + 2..], haveArray))
    case Length =>
      if haveArray && (s[0] == MINUS || s[0] == PLUS || s[0] == COLON) then
        (match FindCrlf(s)
         case None => Wait(p, s)
         case Some(i) => Go(Push(p, Text(s[..i])), s[i + 2..], haveArray))
      else
        var t := if s[0] == DOLLAR then s[1..] else s;
        (match FindCrlf(t)
         case None => Wait(p, t)
         case Some(i) =>
           var n := Atoi(t[..i]);
           Go(if n != -1 then p.(arrayLen := n, state := Str) else Push(p.(arrayLen := n), Nil), t[i + 2..], haveArray))
    case Str =>
      if p.arrayLen < 0 then Fail(p)
      else if |s| >= p.arrayLen + 2 then Go(Push(p, Text(s[..p.arrayLen])), s[p.arrayLen + 2..], haveArray)
      else Wait(p, s)
    case ArrayLength =>
      (match FindCrlf(s)
       case None => Wait(p, s)
       case Some(i) =>
         var q := p.(arrayNum := Atoi(s[..i]));
         if q.arrayNum == 0 then Go(q.(valid := true), s[i + 2..], haveArray)
         else if q.arrayNum == -1 then Go(q.(valid := true, intValue := -1), s[i + 2..], haveArray)
         else Go(q.(state := Length), s[i + 2..], true))
  }

  /** The parse loop: the parser afterwards, the bytes to carry over, and whether it gave up. */
  datatype Parsed = Parsed(parser: Parser, carry: Bytes, ok: bool)

  function Loop(p: Parser, s: Bytes, haveArray: bool): Parsed
    decreases |s|
  {
    if s == [] then Parsed(p, [], true)
    else
      match Step(p, s, haveArray)
      case Go(q, rest, ha) => Loop(q, rest, ha)
      case Wait(q, rest) => Parsed(q, if q.valid then [] else rest, true)
      case Fail(q) => Parsed(q, [], false)
  }

  /** One call of parse.  `haveArray` is a local of that call. */
  function Parse(p: Parser, s: Bytes): Parsed {
    Loop(if p.state.Unknown? then p.(state := Type) else p, s, false)
  }

  /** recv: pieces are parsed as they arrive until the reply is complete. */
  function Recv(p: Parser, carry: Bytes, pieces: seq<Bytes>): Parsed
    decreases |pieces|
  {
    if p.valid || pieces == [] then Parsed(p, carry, true)
    else
      var r := Parse(p, carry + pieces[0]);
      Recv(r.parser, r.carry, pieces[1..])
  }

  function Concat(pieces: seq<Bytes>): Bytes {
    if pieces == [] then [] else pieces[0] + Concat(pieces[1..])
  }
}
