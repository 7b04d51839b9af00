/** What the parser makes of an array that arrives in pieces. */
module RespProofs {
  import opened Common
  import opened Resp

  // ----- arrays

  /** The elements of an array: bulk strings, the nil bulk string, and lines that begin with a sign or
      a colon. */
  datatype Element = Blob(bytes: Bytes) | Absent | Line(bytes: Bytes)

  const MINUS_ONE: Bytes := [MINUS, 49]

  function Wire(e: Element): Bytes {
    match e
    case Blob(b) => Bulk(b)
    case Absent => [DOLLAR] + (MINUS_ONE + CRLF)
    case Line(b) => b + CRLF
  }

  function ItemOf(e: Element): Item {
    if e.Absent? then Nil else Text(e.bytes)
  }

  function Elements(es: seq<Element>): Bytes {
    if es == [] then [] else Wire(es[0]) + Elements(es[1..])
  }

  function Reply(es: seq<Element>): Bytes {
    [STAR] + (Dec(|es|) + CRLF + Elements(es))
  }

  function Items(es: seq<Element>): (items: seq<Item>)
    ensures |items| == |es| && forall i :: 0 <= i < |es| ==> items[i] == ItemOf(es[i])
  {
    seq(|es|, i requires 0 <= i < |es| => ItemOf(es[i]))
  }

  predicate IsSign(b: Byte) {
    b == MINUS || b == PLUS || b == COLON
  }

  /** Free of zero bytes, at which strstr stops, and of the end of a line. */
  ghost predicate Plain(b: Bytes) {
    forall i :: 0 <= i < |b| ==> b[i] != 0 && (b[i] == CR && i + 1 < |b| ==> b[i + 1] != LF)
  }

  /** Lines that atoi does not take for a positive number: all but `+` followed by a digit. */
  ghost predicate ElementOk(e: Element) {
    e.Line? ==> e.bytes != [] && IsSign(e.bytes[0]) && Plain(e.bytes) && Atoi(e.bytes) <= 0
  }

  ghost predicate AllOk(es: seq<Element>) {
    forall i :: 0 <= i < |es| ==> ElementOk(es[i])
  }

  ghost predicate HasLine(es: seq<Element>) {
    exists e :: e in es && e.Line?
  }

  // ----- one element

  /** `cur` is what is still to come of the element the parser is in; in state Length the dollar
      sign may have been consumed already. */
  ghost predicate Current(p: Parser, e: Element, cur: Bytes) {
    match p.state
    case Length => cur == Wire(e) || (!e.Line? && [DOLLAR] + cur == Wire(e))
    case Str => e.Blob? && p.arrayLen == |e.bytes| && cur == e.bytes + CRLF
    case _ => false
  }

  ghost predicate InElement(p: Parser, e: Element, s: Bytes, tail: Bytes) {
    |s| >= |tail| && s[|s| - |tail|..] == tail && Current(p, e, s[..|s| - |tail|])
  }

  ghost predicate SameCount(p: Parser, q: Parser) {
    q.items == p.items && q.doneNum == p.doneNum && q.arrayNum == p.arrayNum && q.valid == p.valid && q.reply == p.reply
  }

  /** The parser has gone on inside the element, has finished it, or waits for more of it. */
  ghost predicate ElementPassed(p: Parser, e: Element, o: Outcome, more: Bytes, tail: Bytes, ha: bool) {
    match o
    case Go(q, rest, ha') =>
      && ha' == ha
      && (|| (SameCount(p, q) && q.state.Str? && InElement(q, e, rest + more, tail))
          || (rest + more == tail && exists n :: q == Push(p.(arrayLen := n), ItemOf(e))))
    case Wait(q, rest) => SameCount(p, q) && InElement(q, e, rest + more, tail) && |more| > |tail|
    case Fail(_) => false
  }

  /** A line: the terminator is found exactly when all of it has arrived. */
  lemma {:induction false} LineArrives(d: Bytes, s: Bytes, more: Bytes, tail: Bytes)
    requires s + more == d + CRLF + tail && Plain(d)
    ensures |s| < |d| + 2 ==> FindCrlf(s).None?
    ensures |s| >= |d| + 2 ==> FindCrlf(s) == Some(|d|) && s[..|d|] == d && s[|d| + 2..] + more == tail
    decreases |d|
  {
    var all := s + more;
    assert forall i :: 0 <= i < |s| ==> s[i] == all[i];
    if d == [] {
      assert all[0] == CR && all[1] == LF;
      if |s| >= 2 { assert s[2..] + more == all[2..] && all[2..] == tail; }
    } else if |s| > 0 {
      assert s[1..] + more == all[1..] && all[1..] == d[1..] + CRLF + tail;
      assert s[0] == d[0];
      LineArrives(d[1..], s[1..], more, tail);
      if |s| >= |d| + 2 {
        assert s[..|d|] == [s[0]] + s[1..][..|d| - 1];
        assert s[|d| + 2..] == s[1..][|d| + 1..];
      }
    }
  }

  lemma InWhole(p: Parser, e: Element, cur: Bytes, tail: Bytes)
    requires Current(p, e, cur)
    ensures InElement(p, e, cur + tail, tail)
  {
    var s := cur + tail;
    assert s[|s| - |tail|..] == tail && s[..|s| - |tail|] == cur;
  }

  lemma Whole(p: Parser, e: Element, s: Bytes, tail: Bytes) returns (cur: Bytes)
    requires InElement(p, e, s, tail)
    ensures Current(p, e, cur) && s == cur + tail
  {
    cur := s[..|s| - |tail|];
  }

  lemma PassLine(p: Parser, e: Element, s: Bytes, more: Bytes, tail: Bytes)
    requires ElementOk(e) && e.Line? && p.state.Length? && InElement(p, e, s + more, tail) && s != []
    ensures ElementPassed(p, e, Step(p, s, true), more, tail, true)
  {
    var cur := Whole(p, e, s + more, tail);
    assert s[0] == (s + more)[0] == e.bytes[0];
    LineArrives(e.bytes, s, more, tail);
    if |s| < |e.bytes| + 2 {
      assert Step(p, s, true) == Wait(p, s) && |s + more| == |e.bytes| + 2 + |tail|;
    } else {
      assert Step(p, s, true) == Go(Push(p, Text(e.bytes)), s[|e.bytes| + 2..], true);
      assert p.(arrayLen := p.arrayLen) == p;
    }
  }

  /** A line that is met without the flag is taken for the length of a bulk string. */
  lemma MissLine(p: Parser, e: Element, s: Bytes, more: Bytes, tail: Bytes)
    requires ElementOk(e) && e.Line? && p.state.Length? && InElement(p, e, s + more, tail) && s != []
    ensures var n := Atoi(e.bytes);
            || (ElementPassed(p, e, Step(p, s, false), more, tail, false) && Step(p, s, false).Wait?)
            || (Step(p, s, false).Go? && Step(p, s, false).parser
                == if n != -1 then p.(arrayLen := n, state := Str) else Push(p.(arrayLen := n), Nil))
  {
    var cur := Whole(p, e, s + more, tail);
    assert s[0] == (s + more)[0] == e.bytes[0];
    LineArrives(e.bytes, s, more, tail);
    if |s| < |e.bytes| + 2 {
      assert Step(p, s, false) == Wait(p, s) && |s + more| == |e.bytes| + 2 + |tail|;
    }
  }

  lemma DecPlain(n: nat)
    ensures Plain(Dec(n))
  {
  }

  function BulkBody(b: Bytes): Bytes {
    Dec(|b|) + CRLF + (b + CRLF)
  }

  lemma WireBlob(e: Element)
    requires e.Blob?
    ensures Wire(e) == [DOLLAR] + BulkBody(e.bytes)
  {
    var d, b := Dec(|e.bytes|), e.bytes;
    assert [DOLLAR] + d + CRLF + b + CRLF == [DOLLAR] + (d + CRLF + (b + CRLF));
  }

  lemma StripDollar(s: Bytes, more: Bytes, body: Bytes, tail: Bytes)
    requires s != [] && body != [] && IsDigit(body[0])
    requires s + more == ([DOLLAR] + body) + tail || s + more == body + tail
    ensures !IsSign(s[0]) && (if s[0] == DOLLAR then s[1..] else s) + more == body + tail
  {
    var all := s + more;
    assert s[0] == all[0] && s[1..] + more == all[1..];
    assert (([DOLLAR] + body) + tail)[1..] == body + tail;
  }

  lemma DropFirst(c: Byte, a: Bytes, b: Bytes)
    requires [c] + a == [c] + b
    ensures a == b
  {
    assert a == ([c] + a)[1..];
  }

  lemma BodyGroups(d: Bytes, b: Bytes, tail: Bytes)
    ensures (d + CRLF + (b + CRLF)) + tail == d + CRLF + (b + CRLF + tail)
  {
  }

  /** Behind the dollar sign, if it is still there, comes a line of digits. */
  lemma DollarOrNot(p: Parser, e: Element, s: Bytes, more: Bytes, tail: Bytes) returns (t: Bytes)
    requires e.Blob? && p.state.Length? && InElement(p, e, s + more, tail) && s != []
    ensures t == if s[0] == DOLLAR then s[1..] else s
    ensures !IsSign(s[0]) && t + more == BulkBody(e.bytes) + tail
    ensures InElement(p, e, t + more, tail)
  {
    var body := BulkBody(e.bytes);
    var cur := Whole(p, e, s + more, tail);
    WireBlob(e);
    if cur != Wire(e) { DropFirst(DOLLAR, cur, body); }
    StripDollar(s, more, body, tail);
    t := if s[0] == DOLLAR then s[1..] else s;
    InWhole(p, e, body, tail);
  }

  lemma PassBlobLength(p: Parser, e: Element, s: Bytes, more: Bytes, tail: Bytes, ha: bool)
    requires e.Blob? && p.state.Length? && InElement(p, e, s + more, tail) && s != []
    ensures ElementPassed(p, e, Step(p, s, ha), more, tail, ha)
  {
    var d := Dec(|e.bytes|);
    var t := DollarOrNot(p, e, s, more, tail);
    DecPlain(|e.bytes|);
    BodyGroups(d, e.bytes, tail);
    LineArrives(d, t, more, e.bytes + CRLF + tail);
    AtoiDec(|e.bytes|);
    if |t| < |d| + 2 {
      assert Step(p, s, ha) == Wait(p, t);
      assert |t + more| == |d| + 2 + (|e.bytes| + 2 + |tail|);
    } else {
      var q := p.(arrayLen := |e.bytes|, state := Str);
      assert Step(p, s, ha) == Go(q, t[|d| + 2..], ha);
      InWhole(q, e, e.bytes + CRLF, tail);
    }
  }

  lemma PassBlobData(p: Parser, e: Element, s: Bytes, more: Bytes, tail: Bytes, ha: bool)
    requires e.Blob? && p.state.Str? && InElement(p, e, s + more, tail) && s != []
    ensures ElementPassed(p, e, Step(p, s, ha), more, tail, ha)
  {
    var cur := Whole(p, e, s + more, tail);
    var len, all := |e.bytes|, s + more;
    if |s| >= len + 2 {
      assert s[..len] == all[..len] && all[..len] == e.bytes;
      assert s[len + 2..] + more == all[len + 2..] && all[len + 2..] == tail;
      assert Step(p, s, ha) == Go(Push(p, Text(e.bytes)), s[len + 2..], ha);
      assert p.(arrayLen := p.arrayLen) == p;
    } else {
      assert Step(p, s, ha) == Wait(p, s) && |all| == len + 2 + |tail|;
    }
  }

  /** The nil bulk string.  With the flag set it has to be met with its dollar sign, or it would be
      taken for a line. */
  lemma PassAbsent(p: Parser, s: Bytes, more: Bytes, tail: Bytes, ha: bool)
    requires p.state.Length? && InElement(p, Absent, s + more, tail) && s != []
    requires ha ==> s + more == Wire(Absent) + tail
    ensures ElementPassed(p, Absent, Step(p, s, ha), more, tail, ha)
  {
    var body := MINUS_ONE + CRLF;
    var cur := Whole(p, Absent, s + more, tail);
    if cur != Wire(Absent) { DropFirst(DOLLAR, cur, body); }
    var t := if s[0] == DOLLAR then s[1..] else s;
    StripAbsent(s, more, tail);
    assert body + tail == MINUS_ONE + CRLF + tail;
    LineArrives(MINUS_ONE, t, more, tail);
    AtoiMinusOne();
    if |t| < 4 {
      assert Step(p, s, ha) == Wait(p, t);
      assert |t + more| == 4 + |tail|;
      InWhole(p, Absent, body, tail);
    } else {
      assert t[..2] == MINUS_ONE;
      assert Step(p, s, ha) == Go(Push(p.(arrayLen := -1), Nil), t[4..], ha);
    }
  }

  lemma StripAbsent(s: Bytes, more: Bytes, tail: Bytes)
    requires s != [] && (s + more == Wire(Absent) + tail || s + more == (MINUS_ONE + CRLF) + tail)
    ensures (if s[0] == DOLLAR then s[1..] else s) + more == (MINUS_ONE + CRLF) + tail
    ensures s + more == Wire(Absent) + tail ==> s[0] == DOLLAR
  {
    var all := s + more;
    assert s[0] == all[0] && s[1..] + more == all[1..];
    assert (Wire(Absent) + tail)[1..] == (MINUS_ONE + CRLF) + tail;
  }

  lemma AtoiMinusOne()
    ensures Atoi(MINUS_ONE) == -1
  {
    assert MINUS_ONE[1..] == [49] && [49][1..] == [];
  }

  // ----- the whole array

  predicate Before(p: Parser) {
    p.state.Unknown? || p.state.Type? || p.state.ArrayLength?
  }

  predicate AtType(p: Parser) {
    p.state.Unknown? || p.state.Type?
  }

  /** The parser is inside Reply(es) with exactly `s` still to come. */
  ghost predicate At(p: Parser, s: Bytes, es: seq<Element>) {
    && es != [] && 0 <= p.doneNum <= |es| && p.items == Items(es[..p.doneNum]) && (!AtType(p) ==> p.reply == ArrayReply)
    && if p.valid then !Before(p) && p.doneNum == |es| && s == []
       else if Before(p) then p.doneNum == 0 && s == HeaderLeft(p, es) + Elements(es)
       else p.arrayNum == |es| && p.doneNum < |es| && InElement(p, es[p.doneNum], s, Elements(es[p.doneNum + 1..]))
  }

  function HeaderLeft(p: Parser, es: seq<Element>): Bytes {
    (if p.state.ArrayLength? then [] else [STAR]) + (Dec(|es|) + CRLF)
  }

  /** More is to come than the elements behind the current one. */
  ghost predicate Short(p: Parser, more: Bytes, es: seq<Element>) {
    if Before(p) then |more| > |Elements(es)|
    else 0 <= p.doneNum < |es| && |more| > |Elements(es[p.doneNum + 1..])|
  }

  /** Nothing of the current element has been consumed, not even a dollar sign. */
  ghost predicate AtStart(p: Parser, s: Bytes, es: seq<Element>) {
    0 <= p.doneNum <= |es| && s == Elements(es[p.doneNum..])
  }

  /** What one pass does to a parser inside the array. */
  ghost predicate PassOk(p: Parser, o: Outcome, more: Bytes, es: seq<Element>, ha: bool) {
    match o
    case Go(q, rest, ha') =>
      && At(q, rest + more, es) && !q.state.Unknown? && ha' == (ha || p.state.ArrayLength?)
      && (Before(q) ==> Before(p)) && (Before(p) ==> Before(q) || p.state.ArrayLength?)
      && p.doneNum <= q.doneNum <= p.doneNum + 1 && (q.state.Length? ==> AtStart(q, rest + more, es))
    case Wait(q, rest) =>
      && At(q, rest + more, es) && !q.state.Unknown? && Short(q, more, es) && !q.valid
      && Before(q) == Before(p) && q.doneNum == p.doneNum
    case Fail(_) => false
  }

  lemma PassType(p: Parser, s: Bytes, more: Bytes, es: seq<Element>, ha: bool)
    requires s != [] && At(p, s + more, es) && !p.valid && p.state.Type?
    ensures PassOk(p, Step(p, s, ha), more, es, ha)
  {
    var line, all := Dec(|es|) + CRLF, s + more;
    assert s[0] == all[0] && s[1..] + more == all[1..];
    StarFirst(line, Elements(es));
    var q := p.(state := ArrayLength, reply := ArrayReply);
    assert Step(p, s, ha) == Go(q, s[1..], ha);
    assert HeaderLeft(q, es) == line;
  }

  lemma StarFirst(line: Bytes, tail: Bytes)
    ensures ([STAR] + line + tail)[0] == STAR && ([STAR] + line + tail)[1..] == line + tail
  {
  }

  lemma PassArrayLength(p: Parser, s: Bytes, more: Bytes, es: seq<Element>, ha: bool)
    requires s != [] && At(p, s + more, es) && !p.valid && p.state.ArrayLength?
    ensures PassOk(p, Step(p, s, ha), more, es, ha)
  {
    var d := Dec(|es|);
    assert HeaderLeft(p, es) == d + CRLF;
    DecPlain(|es|);
    LineArrives(d, s, more, Elements(es));
    AtoiDec(|es|);
    if |s| < |d| + 2 {
      assert |s + more| == |d| + 2 + |Elements(es)|;
      assert Step(p, s, ha) == Wait(p, s);
    } else {
      var q := p.(arrayNum := |es|, state := Length);
      assert Step(p, s, ha) == Go(q, s[|d| + 2..], true);
      InWhole(q, es[0], Wire(es[0]), Elements(es[1..]));
    }
  }

  /** The element is finished: the parser stands before the next one, or is done. */
  lemma PushAt(p: Parser, es: seq<Element>, n: int)
    requires es != [] && (p.state.Length? || p.state.Str?)
    requires !p.valid && p.reply == ArrayReply && p.arrayNum == |es| && 0 <= p.doneNum < |es| && p.items == Items(es[..p.doneNum])
    ensures At(Push(p.(arrayLen := n), ItemOf(es[p.doneNum])), Elements(es[p.doneNum + 1..]), es)
  {
    var k := p.doneNum;
    var q := Push(p.(arrayLen := n), ItemOf(es[k]));
    assert Items(es[..k + 1]) == Items(es[..k]) + [ItemOf(es[k])];
    if k + 1 < |es| {
      assert es[k + 1..][1..] == es[k + 2..];
      InWhole(q, es[k + 1], Wire(es[k + 1]), Elements(es[k + 2..]));
    }
  }

  lemma PushCounts(p: Parser, e: Element, n: int)
    ensures var q := Push(p.(arrayLen := n), ItemOf(e));
            q.doneNum == p.doneNum + 1 && (p.state.Length? || p.state.Str? ==> q.state.Length? || q.state.Str?)
  {
  }

  /** The parser is in element e of the array, with `tail` behind it. */
  ghost predicate Among(p: Parser, es: seq<Element>, e: Element, tail: Bytes) {
    && es != [] && 0 <= p.doneNum < |es| && p.items == Items(es[..p.doneNum]) && !p.valid && p.reply == ArrayReply
    && (p.state.Length? || p.state.Str?) && p.arrayNum == |es| && e == es[p.doneNum] && tail == Elements(es[p.doneNum + 1..])
  }

  lemma LiftSame(p: Parser, q: Parser, rest: Bytes, es: seq<Element>, e: Element, tail: Bytes)
    requires Among(p, es, e, tail) && SameCount(p, q) && InElement(q, e, rest, tail)
    ensures At(q, rest, es) && !Before(q) && q.doneNum == p.doneNum && !q.valid
  {
  }

  lemma LiftPush(p: Parser, q: Parser, rest: Bytes, es: seq<Element>, e: Element, tail: Bytes)
    requires Among(p, es, e, tail) && rest == tail && exists n :: q == Push(p.(arrayLen := n), ItemOf(e))
    ensures At(q, rest, es) && !Before(q) && q.doneNum == p.doneNum + 1 && AtStart(q, rest, es)
  {
    var n :| q == Push(p.(arrayLen := n), ItemOf(e));
    PushAt(p, es, n);
    PushCounts(p, e, n);
  }

  lemma LiftGo(p: Parser, q: Parser, rest: Bytes, more: Bytes, es: seq<Element>, e: Element, tail: Bytes, ha: bool)
    requires Among(p, es, e, tail) && ElementPassed(p, e, Go(q, rest, ha), more, tail, ha)
    ensures PassOk(p, Go(q, rest, ha), more, es, ha)
  {
    if SameCount(p, q) && q.state.Str? && InElement(q, e, rest + more, tail) {
      LiftSame(p, q, rest + more, es, e, tail);
    } else {
      LiftPush(p, q, rest + more, es, e, tail);
    }
  }

  lemma LiftWait(p: Parser, q: Parser, rest: Bytes, more: Bytes, es: seq<Element>, e: Element, tail: Bytes, ha: bool)
    requires Among(p, es, e, tail) && ElementPassed(p, e, Wait(q, rest), more, tail, ha)
    ensures PassOk(p, Wait(q, rest), more, es, ha)
  {
    LiftSame(p, q, rest + more, es, e, tail);
  }

  lemma LiftPass(p: Parser, o: Outcome, more: Bytes, es: seq<Element>, e: Element, tail: Bytes, ha: bool)
    requires Among(p, es, e, tail) && ElementPassed(p, e, o, more, tail, ha)
    ensures PassOk(p, o, more, es, ha)
  {
    match o
    case Go(q, rest, _) => LiftGo(p, q, rest, more, es, e, tail, ha);
    case Wait(q, rest) => LiftWait(p, q, rest, more, es, e, tail, ha);
  }

  /** A pass that meets no line, or meets it with the flag set. */
  lemma PassAt(p: Parser, s: Bytes, more: Bytes, es: seq<Element>, ha: bool)
    requires s != [] && At(p, s + more, es) && !p.valid && !p.state.Unknown?
    requires Before(p) || !es[p.doneNum].Line? || (ha && ElementOk(es[p.doneNum]))
    requires ha && p.state.Length? ==> AtStart(p, s + more, es)
    ensures PassOk(p, Step(p, s, ha), more, es, ha)
  {
    if p.state.Type? {
      PassType(p, s, more, es, ha);
    } else if p.state.ArrayLength? {
      PassArrayLength(p, s, more, es, ha);
    } else {
      var e, tail := es[p.doneNum], Elements(es[p.doneNum + 1..]);
      if e.Line? {
        PassLine(p, e, s, more, tail);
      } else if e.Absent? {
        if ha { ElementsFrom(es, p.doneNum); }
        PassAbsent(p, s, more, tail, ha);
      } else if p.state.Length? {
        PassBlobLength(p, e, s, more, tail, ha);
      } else {
        PassBlobData(p, e, s, more, tail, ha);
      }
      LiftPass(p, Step(p, s, ha), more, es, e, tail, ha);
    }
  }

  // ----- off the rails

  /** An item is not what it should be, or the next one will not be. */
  ghost predicate Derailed(p: Parser, es: seq<Element>) {
    exists m: nat :: m < |es| && DerailedAt(p, es, m)
  }

  ghost predicate DerailedAt(p: Parser, es: seq<Element>, m: nat)
    requires m < |es|
  {
    || (m < |p.items| && p.items[m] != ItemOf(es[m]))
    || (p.state.Str? && !p.valid && p.arrayLen <= 0 && |p.items| == m && ItemOf(es[m]) != Text([]))
  }

  /** Items are only ever added. */
  lemma StepKeepsItems(p: Parser, s: Bytes, ha: bool)
    requires s != []
    ensures p.items <= Step(p, s, ha).parser.items
  {
    if p.state.Length? { LengthKeepsItems(p, s, ha); }
  }

  lemma LengthKeepsItems(p: Parser, s: Bytes, ha: bool)
    requires s != [] && p.state.Length?
    ensures p.items <= Step(p, s, ha).parser.items
  {
    if ha && IsSign(s[0]) {
      if FindCrlf(s).Some? { assert Step(p, s, ha).parser == Push(p, Text(s[..FindCrlf(s).value])); }
    } else {
      var t := if s[0] == DOLLAR then s[1..] else s;
      var r := FindCrlf(t);
      if r.Some? {
        var n := Atoi(t[..r.value]);
        assert Step(p, s, ha).parser == if n != -1 then p.(arrayLen := n, state := Str) else Push(p.(arrayLen := n), Nil);
      }
    }
  }

  lemma StepEmpty(p: Parser, s: Bytes, ha: bool)
    requires s != [] && p.state.Str? && p.arrayLen <= 0
    ensures var q := Step(p, s, ha).parser; q == p || q == Push(p, Text([]))
  {
    assert s[..0] == [];
  }

  lemma StepDerailed(p: Parser, s: Bytes, es: seq<Element>, m: nat, ha: bool)
    requires s != [] && m < |es| && DerailedAt(p, es, m)
    ensures DerailedAt(Step(p, s, ha).parser, es, m)
  {
    StepKeepsItems(p, s, ha);
    if m >= |p.items| { StepEmpty(p, s, ha); }
  }

  lemma {:induction false} LoopDerailed(p: Parser, s: Bytes, es: seq<Element>, m: nat, ha: bool)
    requires m < |es| && DerailedAt(p, es, m)
    ensures DerailedAt(Loop(p, s, ha).parser, es, m)
    decreases |s|
  {
    if s != [] {
      StepDerailed(p, s, es, m, ha);
      match Step(p, s, ha)
      case Go(q, rest, ha') => LoopDerailed(q, rest, es, m, ha');
      case Wait(_, _) =>
      case Fail(_) =>
    }
  }

  lemma {:induction false} RecvDerailed(p: Parser, carry: Bytes, pieces: seq<Bytes>, es: seq<Element>, m: nat)
    requires m < |es| && DerailedAt(p, es, m)
    ensures DerailedAt(Recv(p, carry, pieces).parser, es, m)
    decreases |pieces|
  {
    if !p.valid && pieces != [] {
      var q := if p.state.Unknown? then p.(state := Type) else p;
      LoopDerailed(q, carry + pieces[0], es, m, false);
      var r := Parse(p, carry + pieces[0]);
      RecvDerailed(r.parser, r.carry, pieces[1..], es, m);
    }
  }

  /** The array has come back: complete, and item by item what was sent. */
  ghost predicate Received(p: Parser, es: seq<Element>) {
    p.valid && p.reply == ArrayReply && p.items == Items(es)
  }

  lemma DerailedIsLost(p: Parser, es: seq<Element>, m: nat)
    requires m < |es| && DerailedAt(p, es, m)
    ensures !Received(p, es)
  {
  }

  lemma MissDerails(p: Parser, s: Bytes, more: Bytes, es: seq<Element>)
    requires s != [] && At(p, s + more, es) && !p.valid && !Before(p)
    requires es[p.doneNum].Line? && ElementOk(es[p.doneNum])
    ensures var o := Step(p, s, false);
            (o.Wait? && PassOk(p, o, more, es, false)) || (o.Go? && DerailedAt(o.parser, es, p.doneNum))
  {
    var e, tail := es[p.doneNum], Elements(es[p.doneNum + 1..]);
    MissLine(p, e, s, more, tail);
    if Step(p, s, false).Wait? {
      LiftPass(p, Step(p, s, false), more, es, e, tail, false);
    }
  }

  // ----- a piece

  /** Every line still to come is met with the flag set. */
  ghost predicate Clear(p: Parser, es: seq<Element>, ha: bool) {
    Before(p) || ha || NoLineFrom(es, p.doneNum)
  }

  ghost predicate NoLineFrom(es: seq<Element>, n: int) {
    0 <= n <= |es| && !HasLine(es[n..])
  }

  /** The parser after a piece: still inside the array, with all it could use consumed. */
  ghost predicate LoopOk(r: Parsed, more: Bytes, es: seq<Element>) {
    && r.ok && At(r.parser, r.carry + more, es) && !r.parser.state.Unknown?
    && (r.parser.valid || Short(r.parser, more, es))
  }

  lemma FewerLines(es: seq<Element>, n: nat, m: nat)
    requires n <= m <= |es| && HasLine(es[m..])
    ensures HasLine(es[n..])
  {
    var e :| e in es[m..] && e.Line?;
    assert es[m..] == es[n..][m - n..];
    assert e in es[n..];
  }

  lemma LinesStay(es: seq<Element>, n: nat, m: nat)
    requires n < |es| && n <= m <= n + 1 && !es[n].Line? && HasLine(es[n..])
    ensures HasLine(es[m..])
  {
    var e :| e in es[n..] && e.Line?;
    assert es[n..] == [es[n]] + es[n + 1..];
    assert e in es[n + 1..];
  }

  /** Where nothing of an element has been consumed, it is still to come. */
  lemma ShortNow(p: Parser, more: Bytes, es: seq<Element>)
    requires At(p, more, es) && !p.valid
    ensures Short(p, more, es)
  {
    if !Before(p) {
      var e, tail := es[p.doneNum], Elements(es[p.doneNum + 1..]);
      var cur := Whole(p, e, more, tail);
    }
  }

  /** A pass that leaves every line to be met with the flag set. */
  lemma PassClear(p: Parser, s: Bytes, more: Bytes, es: seq<Element>, ha: bool)
    requires AllOk(es) && At(p, s + more, es) && !p.state.Unknown? && Clear(p, es, ha) && s != []
    requires ha && p.state.Length? ==> AtStart(p, s + more, es)
    ensures var o := Step(p, s, ha); PassOk(p, o, more, es, ha) && (o.Go? ==> Clear(o.parser, es, o.haveArray))
  {
    if !Before(p) { assert es[p.doneNum] in es[p.doneNum..]; }
    PassAt(p, s, more, es, ha);
    match Step(p, s, ha)
    case Go(q, rest, ha') => ClearStays(p, q, es, ha, ha');
    case Wait(_, _) =>
  }

  lemma ClearStays(p: Parser, q: Parser, es: seq<Element>, ha: bool, ha': bool)
    requires Clear(p, es, ha) && ha' == (ha || p.state.ArrayLength?) && 0 <= p.doneNum <= q.doneNum <= |es|
    requires Before(p) ==> Before(q) || p.state.ArrayLength?
    ensures Clear(q, es, ha')
  {
    if HasLine(es[q.doneNum..]) { FewerLines(es, p.doneNum, q.doneNum); }
  }

  lemma {:induction false} LoopClear(p: Parser, s: Bytes, more: Bytes, es: seq<Element>, ha: bool)
    requires AllOk(es) && At(p, s + more, es) && !p.state.Unknown? && Clear(p, es, ha)
    requires ha && p.state.Length? ==> AtStart(p, s + more, es)
    ensures LoopOk(Loop(p, s, ha), more, es)
    decreases |s|
  {
    if s == [] {
      assert s + more == more && [] + more == more;
      if !p.valid { ShortNow(p, more, es); }
    } else {
      PassClear(p, s, more, es, ha);
      match Step(p, s, ha)
      case Go(q, rest, ha') => LoopClear(q, rest, more, es, ha');
      case Wait(_, _) =>
    }
  }

  /** A later piece, while a line is still to come. */
  ghost predicate LoopMissed(r: Parsed, more: Bytes, es: seq<Element>) {
    || Derailed(r.parser, es)
    || (At(r.parser, r.carry + more, es) && !Before(r.parser) && HasLine(es[r.parser.doneNum..]))
  }

  lemma {:induction false} LoopMisses(p: Parser, s: Bytes, more: Bytes, es: seq<Element>)
    requires AllOk(es) && At(p, s + more, es) && !Before(p) && HasLine(es[p.doneNum..])
    ensures LoopMissed(Loop(p, s, false), more, es)
    decreases |s|
  {
    if s == [] {
      assert s + more == more && [] + more == more;
    } else if es[p.doneNum].Line? {
      MissDerails(p, s, more, es);
      match Step(p, s, false)
      case Go(q, rest, ha') => LoopDerailed(q, rest, es, p.doneNum, ha');
      case Wait(_, _) =>
    } else {
      PassAt(p, s, more, es, false);
      match Step(p, s, false)
      case Go(q, rest, _) =>
        LinesStay(es, p.doneNum, q.doneNum);
        LoopMisses(q, rest, more, es);
      case Wait(_, _) =>
    }
  }

  // ----- all pieces

  /** The elements behind the last line. */
  ghost function Tail(es: seq<Element>): seq<Element> {
    if HasLine(es) then Tail(es[1..]) else es
  }

  lemma {:induction false} Suffix(es: seq<Element>, n: nat)
    requires n <= |es|
    ensures |Elements(es[n..])| <= |Elements(es)|
    ensures |Elements(Tail(es))| <= |Elements(es)|
  {
    if es != [] {
      Suffix(es[1..], if n == 0 then 0 else n - 1);
      if n > 0 { assert es[1..][n - 1..] == es[n..]; } else { assert es[0..] == es; }
    }
  }

  /** A line from element n on is in front of the tail; otherwise the tail has begun. */
  lemma {:induction false} TailAt(es: seq<Element>, n: nat)
    requires n <= |es|
    ensures HasLine(es[n..]) ==> n < |es| && |Elements(Tail(es))| <= |Elements(es[n + 1..])|
    ensures !HasLine(es[n..]) ==> |Elements(es[n..])| <= |Elements(Tail(es))|
  {
    if n == 0 {
      assert es[0..] == es;
      if HasLine(es) { Suffix(es[1..], 0); }
    } else if HasLine(es) {
      TailAt(es[1..], n - 1);
      assert es[1..][n - 1..] == es[n..];
      if n < |es| { assert es[1..][n..] == es[n + 1..]; }
    } else {
      NoLineBehind(es, n);
      Suffix(es, n);
    }
  }

  lemma NoLineBehind(es: seq<Element>, n: nat)
    requires n <= |es| && !HasLine(es)
    ensures !HasLine(es[n..])
  {
    forall e | e in es[n..] ensures !e.Line? { assert e in es; }
  }

  /** Behind the header no more is to come than the elements not yet finished. */
  lemma AtMost(p: Parser, s: Bytes, es: seq<Element>, n: nat)
    requires n < |es| && InElement(p, es[n], s, Elements(es[n + 1..]))
    ensures |s| <= |Elements(es[n..])|
  {
    ElementsFrom(es, n);
    InFits(p, es[n], s, Elements(es[n + 1..]));
  }

  lemma AtLength(p: Parser, s: Bytes, es: seq<Element>, n: nat)
    requires At(p, s, es) && !Before(p) && n == p.doneNum
    ensures |s| <= |Elements(es[n..])|
  {
    if !p.valid { AtMost(p, s, es, n); }
  }

  lemma InFits(p: Parser, e: Element, s: Bytes, tail: Bytes)
    requires InElement(p, e, s, tail)
    ensures |s| <= |Wire(e) + tail|
  {
    var cur := Whole(p, e, s, tail);
    CurrentFits(p, e, cur);
  }

  lemma CurrentFits(p: Parser, e: Element, cur: Bytes)
    requires Current(p, e, cur)
    ensures |cur| <= |Wire(e)|
  {
  }

  lemma ElementsFrom(es: seq<Element>, n: nat)
    requires n < |es|
    ensures Elements(es[n..]) == Wire(es[n]) + Elements(es[n + 1..])
  {
    assert es[n..][1..] == es[n + 1..];
  }

  /** With m bytes still to come, the header is complete and the last line is not. */
  ghost predicate Inside(es: seq<Element>, m: nat) {
    |Elements(Tail(es))| < m <= |Elements(es)|
  }

  ghost predicate CutsLines(es: seq<Element>, pieces: seq<Bytes>) {
    exists k: nat :: k <= |pieces| && CutsAt(es, pieces, k)
  }

  ghost predicate CutsAt(es: seq<Element>, pieces: seq<Bytes>, k: nat)
    requires k <= |pieces|
  {
    Inside(es, |Concat(pieces[k..])|)
  }

  lemma CutsLater(es: seq<Element>, pieces: seq<Bytes>)
    requires pieces != [] && CutsLines(es, pieces[1..])
    ensures CutsLines(es, pieces)
  {
    var k: nat :| k <= |pieces[1..]| && CutsAt(es, pieces[1..], k);
    assert pieces[1..][k..] == pieces[k + 1..];
    assert CutsAt(es, pieces, k + 1);
  }

  lemma {:induction false} ConcatSuffix(pieces: seq<Bytes>, k: nat)
    requires k <= |pieces|
    ensures |Concat(pieces[k..])| <= |Concat(pieces)|
  {
    if k > 0 {
      ConcatSuffix(pieces[1..], k - 1);
      assert pieces[1..][k - 1..] == pieces[k..];
    } else {
      assert pieces[0..] == pieces;
    }
  }

  function Started(p: Parser): Parser {
    if p.state.Unknown? then p.(state := Type) else p
  }

  lemma StartedAt(p: Parser, carry: Bytes, pieces: seq<Bytes>, es: seq<Element>)
    requires pieces != [] && At(p, carry + Concat(pieces), es)
    ensures At(Started(p), (carry + pieces[0]) + Concat(pieces[1..]), es)
  {
    assert carry + Concat(pieces) == (carry + pieces[0]) + Concat(pieces[1..]);
  }

  lemma {:induction false} RecvClear(p: Parser, carry: Bytes, pieces: seq<Bytes>, es: seq<Element>)
    requires AllOk(es) && At(p, carry + Concat(pieces), es) && (p.valid || Short(p, Concat(pieces), es))
    requires Clear(p, es, false) && !CutsLines(es, pieces)
    ensures var r := Recv(p, carry, pieces); r.ok && r.carry == [] && Received(r.parser, es)
    decreases |pieces|
  {
    if p.valid {
      assert es[..|es|] == es;
    } else {
      assert pieces != [];
      var more := Concat(pieces[1..]);
      StartedAt(p, carry, pieces, es);
      LoopClear(Started(p), carry + pieces[0], more, es, false);
      var r := Parse(p, carry + pieces[0]);
      assert !CutsAt(es, pieces, 1);
      AtBounded(r.parser, r.carry, more, es);
      StillClear(r.parser, |more|, es);
      if CutsLines(es, pieces[1..]) { CutsLater(es, pieces); }
      RecvClear(r.parser, r.carry, pieces[1..], es);
    }
  }

  /** What is to come reaches into the current element and not beyond its beginning. */
  ghost predicate Bounded(p: Parser, m: nat, es: seq<Element>) {
    && 0 <= p.doneNum <= |es| && (p.valid ==> p.doneNum == |es|)
    && (!p.valid ==> p.doneNum < |es| && Reaches(es, p.doneNum, m))
  }

  ghost predicate Reaches(es: seq<Element>, n: nat, m: nat)
    requires n < |es|
  {
    |Elements(es[n + 1..])| < m <= |Elements(es[n..])|
  }

  lemma AtBounded(p: Parser, carry: Bytes, more: Bytes, es: seq<Element>)
    requires At(p, carry + more, es) && (p.valid || Short(p, more, es))
    ensures Before(p) || Bounded(p, |more|, es)
  {
    if !Before(p) && !p.valid {
      var n := p.doneNum;
      AtMost(p, carry + more, es, n);
      ReachesNow(es, n, |more|, |carry + more|);
    }
  }

  lemma ReachesNow(es: seq<Element>, n: nat, m: nat, m': nat)
    requires n < |es| && |Elements(es[n + 1..])| < m <= m' <= |Elements(es[n..])|
    ensures Reaches(es, n, m)
  {
  }

  lemma StillClear(p: Parser, m: nat, es: seq<Element>)
    requires (Before(p) || Bounded(p, m, es)) && !Inside(es, m)
    ensures Clear(p, es, false)
  {
    if !Before(p) {
      if p.valid { NothingLeft(es, p.doneNum); } else { OutsideClear(es, p.doneNum, m); }
    }
  }

  lemma NothingLeft(es: seq<Element>, n: nat)
    requires n == |es|
    ensures NoLineFrom(es, n)
  {
    assert es[n..] == [];
  }

  lemma OutsideClear(es: seq<Element>, n: nat, m: nat)
    requires n < |es| && Reaches(es, n, m) && !Inside(es, m)
    ensures NoLineFrom(es, n)
  {
    TailAt(es, n);
    Suffix(es, n);
  }

  lemma {:induction false} RecvMisses(p: Parser, carry: Bytes, pieces: seq<Bytes>, es: seq<Element>)
    requires AllOk(es) && At(p, carry + Concat(pieces), es) && !Before(p) && HasLine(es[p.doneNum..])
    ensures !Received(Recv(p, carry, pieces).parser, es)
    decreases |pieces|
  {
    if pieces != [] {
      StartedAt(p, carry, pieces, es);
      LoopMisses(p, carry + pieces[0], Concat(pieces[1..]), es);
      var r := Parse(p, carry + pieces[0]);
      if Derailed(r.parser, es) {
        var m: nat :| m < |es| && DerailedAt(r.parser, es, m);
        RecvDerailed(r.parser, r.carry, pieces[1..], es, m);
        DerailedIsLost(Recv(r.parser, r.carry, pieces[1..]).parser, es, m);
      } else {
        RecvMisses(r.parser, r.carry, pieces[1..], es);
      }
    }
  }

  lemma LineToCome(p: Parser, carry: Bytes, more: Bytes, es: seq<Element>, m: nat)
    requires At(p, carry + more, es) && !Before(p) && m <= |more| && Inside(es, m)
    ensures HasLine(es[p.doneNum..])
  {
    var n := p.doneNum;
    AtLength(p, carry + more, es, n);
    InsideHasLine(es, n, m);
  }

  lemma InsideHasLine(es: seq<Element>, n: nat, m: nat)
    requires n <= |es| && m <= |Elements(es[n..])| && Inside(es, m)
    ensures HasLine(es[n..])
  {
    TailAt(es, n);
  }

  lemma {:induction false} RecvCut(p: Parser, carry: Bytes, pieces: seq<Bytes>, es: seq<Element>)
    requires AllOk(es) && At(p, carry + Concat(pieces), es)
    requires Before(p) && Short(p, Concat(pieces), es) && CutsLines(es, pieces)
    ensures !Received(Recv(p, carry, pieces).parser, es)
    decreases |pieces|
  {
    var k: nat :| k <= |pieces| && CutsAt(es, pieces, k);
    assert pieces[0..] == pieces;
    assert k > 0;
    var more := Concat(pieces[1..]);
    StartedAt(p, carry, pieces, es);
    LoopClear(Started(p), carry + pieces[0], more, es, false);
    var r := Parse(p, carry + pieces[0]);
    assert pieces[1..][k - 1..] == pieces[k..];
    ConcatSuffix(pieces[1..], k - 1);
    if Before(r.parser) {
      assert CutsAt(es, pieces[1..], k - 1);
      RecvCut(r.parser, r.carry, pieces[1..], es);
    } else {
      LineToCome(r.parser, r.carry, more, es, |Concat(pieces[k..])|);
      RecvMisses(r.parser, r.carry, pieces[1..], es);
    }
  }

  lemma FreshAt(es: seq<Element>, s: Bytes)
    requires es != [] && s == Reply(es)
    ensures At(Fresh, [] + s, es) && Short(Fresh, s, es)
  {
    assert [] + s == s;
    StarGroups(Dec(|es|) + CRLF, Elements(es));
  }

  lemma StarGroups(line: Bytes, tail: Bytes)
    ensures [STAR] + (line + tail) == ([STAR] + line) + tail
  {
  }

  /** An array of bulk strings and lines comes back from the pieces exactly when no piece ends
      behind the header and before the end of the last line. */
  lemma ReceivedIff(es: seq<Element>, pieces: seq<Bytes>)
    requires es != [] && AllOk(es) && Concat(pieces) == Reply(es)
    ensures Received(Recv(Fresh, [], pieces).parser, es) <==> !CutsLines(es, pieces)
  {
    FreshAt(es, Concat(pieces));
    if CutsLines(es, pieces) { RecvCut(Fresh, [], pieces, es); } else { RecvClear(Fresh, [], pieces, es); }
  }

  /** It does go wrong: an array with the integer 5, cut behind the header. */
  lemma CutLosesInteger(five: Bytes)
    requires five == [COLON, 53]
    ensures Reply([Line(five)]) == ([STAR, 49] + CRLF) + (five + CRLF)
    ensures !Received(Recv(Fresh, [], [[STAR, 49] + CRLF, five + CRLF]).parser, [Line(five)])
  {
    var es := [Line(five)];
    var head: Bytes, body: Bytes := [STAR, 49] + CRLF, five + CRLF;
    var pieces: seq<Bytes>, last: seq<Bytes> := [head, body], [body];
    assert es[1..] == [] && Elements(es) == body;
    assert Dec(1) == [49];
    assert pieces[1..] == last && last[1..] == [] && Concat(last) == body;
    assert es[0] in es && HasLine(es) && Tail(es) == [];
    assert CutsAt(es, pieces, 1);
    ReceivedIff(es, pieces);
  }

  // ----- commands

  function Blobs(args: seq<Bytes>): (es: seq<Element>)
    ensures |es| == |args| && forall i :: 0 <= i < |args| ==> es[i] == Blob(args[i])
  {
    seq(|args|, i requires 0 <= i < |args| => Blob(args[i]))
  }

  lemma {:induction false} BlobsBody(args: seq<Bytes>)
    ensures Elements(Blobs(args)) == Body(args)
  {
    if args != [] {
      BlobsBody(args[1..]);
      assert Blobs(args)[1..] == Blobs(args[1..]);
    }
  }

  lemma CommandIsReply(args: seq<Bytes>)
    ensures Command(args) == Reply(Blobs(args)) && !HasLine(Blobs(args))
  {
    BlobsBody(args);
    assert Command(args) == [STAR] + (Dec(|args|) + CRLF + Body(args));
  }

  /** The round trip: for every non-empty list of byte strings and every way of cutting the
      command into pieces, receiving the pieces yields exactly that list. */
  lemma RoundTrip(args: seq<Bytes>, pieces: seq<Bytes>)
    requires args != [] && Concat(pieces) == Command(args)
    ensures var p := Recv(Fresh, [], pieces).parser;
            p.valid && p.reply == ArrayReply && |p.items| == |args| && forall i :: 0 <= i < |args| ==> p.items[i] == Text(args[i])
  {
    CommandIsReply(args);
    ReceivedIff(Blobs(args), pieces);
  }

  /** With a byte still missing the command is not complete. */
  lemma NotBeforeTheEnd(args: seq<Bytes>, pieces: seq<Bytes>, missing: Bytes)
    requires args != [] && missing != [] && Concat(pieces) + missing == Command(args)
    ensures !Recv(Fresh, [], pieces).parser.valid
  {
    CommandIsReply(args);
    var es := Blobs(args);
    FreshAt(es, Concat(pieces) + missing);
    Partial(Fresh, [], pieces, missing, es);
  }

  lemma Regroup(a: Bytes, b: Bytes, c: Bytes, d: Bytes)
    ensures a + ((b + c) + d) == (a + b) + (c + d)
  {
  }

  lemma {:induction false} Partial(p: Parser, carry: Bytes, pieces: seq<Bytes>, missing: Bytes, es: seq<Element>)
    requires AllOk(es) && !HasLine(es) && At(p, carry + (Concat(pieces) + missing), es) && missing != []
    ensures !Recv(p, carry, pieces).parser.valid
    decreases |pieces|
  {
    if pieces != [] {
      var more := Concat(pieces[1..]) + missing;
      Regroup(carry, pieces[0], Concat(pieces[1..]), missing);
      NoLineBehind(es, p.doneNum);
      LoopClear(Started(p), carry + pieces[0], more, es, false);
      var r := Parse(p, carry + pieces[0]);
      Partial(r.parser, r.carry, pieces[1..], missing, es);
    }
  }
}
