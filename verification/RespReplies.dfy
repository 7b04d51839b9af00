/** What the parser makes of a reply that is not an array of elements: a status, an error, an integer,
    one bulk string, and the two arrays without elements. */
module RespReplies {
  import opened Common
  import opened Resp
  import opened RespProofs

  // ----- replies of one line

  datatype Single = StatusLine(text: Bytes) | ErrorLine(text: Bytes) | Number(value: int) | EmptyArray | NilArray

  /** What sprintf("%d") prints. */
  function Print(n: int): Bytes {
    if n < 0 then [MINUS] + Dec(-n) else Dec(n)
  }

  function Mark(r: Single): Byte {
    match r
    case StatusLine(_) => PLUS
    case ErrorLine(_) => MINUS
    case Number(_) => COLON
    case EmptyArray | NilArray => STAR
  }

  function LineOf(r: Single): Bytes {
    match r
    case StatusLine(x) => x
    case ErrorLine(x) => x
    case Number(n) => Print(n)
    case EmptyArray => Print(0)
    case NilArray => Print(-1)
  }

  function Sent(r: Single): Bytes {
    [Mark(r)] + (LineOf(r) + CRLF)
  }

  ghost predicate SingleOk(r: Single) {
    Plain(LineOf(r))
  }

  /** The reply as it should be reported. */
  ghost predicate Reports(p: Parser, r: Single) {
    && p.valid && p.items == []
    && match r
       case StatusLine(x) => p.reply == Status && p.text == x
       case ErrorLine(x) => p.reply == Error && p.text == x
       case Number(n) => p.reply == IntegerReply && p.intValue == n
       case EmptyArray => p.reply == ArrayReply && p.intValue == 0
       case NilArray => p.reply == ArrayReply && p.intValue == -1
  }

  lemma PrintOk(n: int)
    ensures Atoi(Print(n)) == n && Plain(Print(n))
  {
    if n < 0 {
      AtoiDigitsDec(-n);
      assert Print(n)[1..] == Dec(-n);
    } else {
      AtoiDec(n);
    }
  }

  /** Behind the first byte. */
  function Marked(r: Single): Parser {
    match r
    case StatusLine(_) => Fresh.(state := Result, reply := Status)
    case ErrorLine(_) => Fresh.(state := Result, reply := Error)
    case Number(_) => Fresh.(state := Integer, reply := IntegerReply)
    case EmptyArray | NilArray => Fresh.(state := ArrayLength, reply := ArrayReply)
  }

  /** The parser is inside the reply with exactly `s` still to come. */
  ghost predicate OnSingle(p: Parser, s: Bytes, r: Single) {
    if p.valid then s == [] && Reports(p, r)
    else if AtType(p) then (p == Fresh || p == Fresh.(state := Type)) && s == Sent(r)
    else p == Marked(r) && s == LineOf(r) + CRLF
  }

  lemma PassMark(p: Parser, s: Bytes, more: Bytes, r: Single)
    requires p == Fresh.(state := Type) && s != [] && s + more == Sent(r)
    ensures Step(p, s, false) == Go(Marked(r), s[1..], false) && OnSingle(Marked(r), s[1..] + more, r)
  {
    assert s[0] == Sent(r)[0] && s[1..] + more == Sent(r)[1..] && Sent(r)[1..] == LineOf(r) + CRLF;
  }

  /** The line is read when all of it has arrived, and waited for otherwise. */
  lemma PassSingle(s: Bytes, more: Bytes, r: Single)
    requires SingleOk(r) && s != [] && s + more == LineOf(r) + CRLF
    ensures var o := Step(Marked(r), s, false);
            || (o == Wait(Marked(r), s) && more != [])
            || (o.Go? && Reports(o.parser, r) && o.rest == [] && more == [] && !o.haveArray)
  {
    var d := LineOf(r);
    assert d + CRLF + [] == d + CRLF;
    LineArrives(d, s, more, []);
    if |s| < |d| + 2 { assert more != []; }
    match r
    case Number(n) => PrintOk(n);
    case EmptyArray => PrintOk(0);
    case NilArray => PrintOk(-1);
    case _ =>
  }

  lemma {:induction false} LoopSingle(p: Parser, s: Bytes, more: Bytes, r: Single)
    requires SingleOk(r) && !p.valid && !p.state.Unknown? && OnSingle(p, s + more, r)
    ensures var t := Loop(p, s, false); OnSingle(t.parser, t.carry + more, r) && !t.parser.state.Unknown?
    ensures Loop(p, s, false).parser.valid || more != []
    decreases |s|
  {
    if s == [] {
      assert s + more == more && [] + more == more;
    } else if p.state.Type? {
      PassMark(p, s, more, r);
      LoopSingle(Marked(r), s[1..], more, r);
    } else {
      PassSingle(s, more, r);
      assert [] + more == more;
    }
  }

  lemma {:induction false} RecvSingle(p: Parser, carry: Bytes, pieces: seq<Bytes>, r: Single)
    requires SingleOk(r) && OnSingle(p, carry + Concat(pieces), r) && (p.valid || Concat(pieces) != [])
    ensures var t := Recv(p, carry, pieces); Reports(t.parser, r) && t.carry == []
    decreases |pieces|
  {
    if !p.valid {
      var more := Concat(pieces[1..]);
      assert carry + Concat(pieces) == (carry + pieces[0]) + more;
      LoopSingle(Started(p), carry + pieces[0], more, r);
      var t := Parse(p, carry + pieces[0]);
      RecvSingle(t.parser, t.carry, pieces[1..], r);
    }
  }

  /** A reply of one line, cut into pieces in any way, is reported with its type and its value: the
      text of a status or an error, the number, the array without elements, the nil array. */
  lemma SingleComesBack(r: Single, pieces: seq<Bytes>)
    requires SingleOk(r) && Concat(pieces) == Sent(r)
    ensures Reports(Recv(Fresh, [], pieces).parser, r)
  {
    assert [] + Concat(pieces) == Concat(pieces);
    RecvSingle(Fresh, [], pieces, r);
  }

  lemma StatusComesBack(x: Bytes, pieces: seq<Bytes>)
    requires Plain(x) && Concat(pieces) == [PLUS] + x + CRLF
    ensures var p := Recv(Fresh, [], pieces).parser; p.valid && p.reply == Status && p.text == x
  {
    assert [PLUS] + x + CRLF == [PLUS] + (x + CRLF);
    SingleComesBack(StatusLine(x), pieces);
  }

  lemma ErrorComesBack(x: Bytes, pieces: seq<Bytes>)
    requires Plain(x) && Concat(pieces) == [MINUS] + x + CRLF
    ensures var p := Recv(Fresh, [], pieces).parser; p.valid && p.reply == Error && p.text == x
  {
    assert [MINUS] + x + CRLF == [MINUS] + (x + CRLF);
    SingleComesBack(ErrorLine(x), pieces);
  }

  /** Every number, negative ones included, comes back as an integer reply. */
  lemma NumberComesBack(n: int, pieces: seq<Bytes>)
    requires Concat(pieces) == [COLON] + Print(n) + CRLF
    ensures var p := Recv(Fresh, [], pieces).parser; p.valid && p.reply == IntegerReply && p.intValue == n
  {
    assert [COLON] + Print(n) + CRLF == [COLON] + (Print(n) + CRLF);
    PrintOk(n);
    SingleComesBack(Number(n), pieces);
  }

  lemma EmptyComesBack(n: int, pieces: seq<Bytes>)
    requires -1 <= n <= 0 && Concat(pieces) == [STAR] + Print(n) + CRLF
    ensures var p := Recv(Fresh, [], pieces).parser; p.valid && p.reply == ArrayReply && p.items == [] && p.intValue == n
  {
    assert [STAR] + Print(n) + CRLF == [STAR] + (Print(n) + CRLF);
    PrintOk(n);
    SingleComesBack(if n == 0 then EmptyArray else NilArray, pieces);
  }

  /** Anything else is refused at its first byte, and reported as a reply of unknown type. */
  lemma UnknownRefused(s: Bytes)
    requires s != [] && s[0] !in [PLUS, MINUS, COLON, DOLLAR, STAR]
    ensures var r := Parse(Fresh, s); !r.ok && !r.parser.valid && r.parser.reply == UnknownReply
  {
  }

  // ----- one bulk string

  /** The parser is inside the bulk string with exactly `s` still to come. */
  ghost predicate OnBulk(p: Parser, s: Bytes, e: Element) {
    if p.valid then s == [] && p.reply == StringReply && p.items == [ItemOf(e)]
    else if AtType(p) then (p == Fresh || p == Fresh.(state := Type)) && s == Wire(e)
    else p.reply == StringReply && p.arrayNum == 1 && p.doneNum == 0 && p.items == [] && InElement(p, e, s, [])
  }

  /** Nothing of it is to come only when it is there. */
  ghost predicate MoreToCome(t: Parsed, more: Bytes) {
    t.parser.valid || more != []
  }

  lemma PassDollar(p: Parser, s: Bytes, more: Bytes, e: Element)
    requires p == Fresh.(state := Type) && !e.Line? && s != [] && s + more == Wire(e)
    ensures var q := Fresh.(state := Length, reply := StringReply, arrayNum := 1);
            Step(p, s, false) == Go(q, s[1..], false) && OnBulk(q, s[1..] + more, e)
  {
    if e.Blob? { WireBlob(e); }
    var q := Fresh.(state := Length, reply := StringReply, arrayNum := 1);
    var cur := s[1..] + more;
    assert s[0] == Wire(e)[0] == DOLLAR && cur == Wire(e)[1..] && [DOLLAR] + cur == Wire(e);
    InWhole(q, e, cur, []);
    assert cur + [] == cur;
  }

  lemma PassBulk(p: Parser, s: Bytes, more: Bytes, e: Element)
    requires !e.Line? && !p.valid && !AtType(p) && s != [] && OnBulk(p, s + more, e)
    ensures ElementPassed(p, e, Step(p, s, false), more, [], false)
  {
    if e.Absent? {
      PassAbsent(p, s, more, [], false);
    } else if p.state.Length? {
      PassBlobLength(p, e, s, more, [], false);
    } else {
      PassBlobData(p, e, s, more, [], false);
    }
  }

  lemma {:induction false} LoopBulk(p: Parser, s: Bytes, more: Bytes, e: Element)
    requires !e.Line? && !p.state.Unknown? && OnBulk(p, s + more, e)
    ensures var t := Loop(p, s, false); OnBulk(t.parser, t.carry + more, e) && MoreToCome(t, more)
    decreases |s|
  {
    if s == [] {
      assert s + more == more && [] + more == more;
      if !p.valid && !AtType(p) { var cur := Whole(p, e, more, []); }
    } else if p.state.Type? {
      PassDollar(p, s, more, e);
      LoopBulk(Step(p, s, false).parser, s[1..], more, e);
    } else {
      PassBulk(p, s, more, e);
      match Step(p, s, false)
      case Go(q, rest, _) => LoopBulk(q, rest, more, e);
      case Wait(_, _) =>
    }
  }

  lemma {:induction false} RecvBulk(p: Parser, carry: Bytes, pieces: seq<Bytes>, e: Element)
    requires !e.Line? && OnBulk(p, carry + Concat(pieces), e) && (p.valid || Concat(pieces) != [])
    ensures var t := Recv(p, carry, pieces); OnBulk(t.parser, t.carry, e) && t.parser.valid
    decreases |pieces|
  {
    if p.valid {
      assert carry == [];
    } else {
      var more := Concat(pieces[1..]);
      assert carry + Concat(pieces) == (carry + pieces[0]) + more;
      LoopBulk(Started(p), carry + pieces[0], more, e);
      var t := Parse(p, carry + pieces[0]);
      RecvBulk(t.parser, t.carry, pieces[1..], e);
    }
  }

  /** A bulk string, whatever its bytes, and the nil bulk string come back as a string reply with that
      one item. */
  lemma BulkComesBack(e: Element, pieces: seq<Bytes>)
    requires !e.Line? && Concat(pieces) == Wire(e)
    ensures var p := Recv(Fresh, [], pieces).parser;
            p.valid && p.reply == StringReply && p.items == [if e.Blob? then Text(e.bytes) else Nil]
  {
    assert [] + Concat(pieces) == Concat(pieces);
    if e.Blob? { WireBlob(e); }
    RecvBulk(Fresh, [], pieces, e);
  }
}
