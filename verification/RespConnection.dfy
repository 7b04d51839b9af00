/** The receiving side of a connection: the bytes that arrive are put behind what was carried
    over, in a buffer that is doubled when it gets too small, and parsed there. */
module RespConnection {
  import opened Common
  import opened Resp

  const READ_SIZE: nat := 4096      // REDIS_READ_BUFF_SIZE; a read fills at most one byte less

  function Plus(o: Option<nat>, n: nat): Option<nat> {
    if o.Some? then Some(o.value + n) else None
  }

  /** No line end at j: the search goes on behind it. */
  lemma FindNext(s: Bytes, j: nat)
    requires j < |s| && s[j] != 0 && !(j + 1 < |s| && s[j] == CR && s[j + 1] == LF)
    requires FindCrlf(s) == Plus(FindCrlf(s[j..]), j)
    ensures FindCrlf(s) == Plus(FindCrlf(s[j + 1..]), j + 1)
  {
    assert s[j..][1..] == s[j + 1..];
  }

  lemma FoundHere(s: Bytes, j: nat)
    requires j + 1 < |s| && s[j] == CR && s[j + 1] == LF && FindCrlf(s) == Plus(FindCrlf(s[j..]), j)
    ensures FindCrlf(s) == Some(j)
  {
  }

  /** One more piece: it is parsed behind what was carried over. */
  lemma RecvNext(p: Parser, carry: Bytes, pieces: seq<Bytes>, i: nat)
    requires i < |pieces| && !p.valid
    ensures var r := Parse(p, carry + pieces[i]);
            Recv(p, carry, pieces[i..]) == Recv(r.parser, r.carry, pieces[i + 1..])
  {
    assert pieces[i..][0] == pieces[i] && pieces[i..][1..] == pieces[i + 1..];
  }

  class Connection {
    var parser: Parser
    var unparse: Bytes

    constructor ()
      ensures parser == Fresh && unparse == []
    {
      parser, unparse := Fresh, [];
    }

    /** `len` bytes of data and zero bytes behind them. */
    static ghost predicate Holds(buf: array<Byte>, len: nat)
      reads buf
    {
      len < buf.Length && forall i :: len <= i < buf.Length ==> buf[i] == 0
    }

    /** strstr at `pos`, where the text s and a zero byte are: reads no further than that byte. */
    static method StrStr(buf: array<Byte>, pos: nat, ghost s: Bytes) returns (r: Option<nat>)
      requires pos + |s| < buf.Length && buf[pos + |s|] == 0 && forall j :: 0 <= j < |s| ==> buf[pos + j] == s[j]
      ensures r == FindCrlf(s)
    {
      var j := 0;
      assert s[0..] == s;
      while buf[pos + j] != 0
        invariant 0 <= j <= |s| && FindCrlf(s) == Plus(FindCrlf(s[j..]), j)
        decreases |s| - j
      {
        if buf[pos + j] == CR && buf[pos + j + 1] == LF {
          FoundHere(s, j);
          return Some(j);
        }
        FindNext(s, j);
        j := j + 1;
      }
      return None;
    }

    /** The line at `from`, once its terminator has arrived, and where the next one starts. */
    static method TakeLine(buf: array<Byte>, from: nat, ghost len: nat) returns (line: Option<Bytes>, next: nat)
      requires Holds(buf, len) && from <= len
      ensures next <= len
      ensures match FindCrlf(buf[from..len])
              case None => line == None && next == from
              case Some(i) => line == Some(buf[from..len][..i]) && buf[next..len] == buf[from..len][i + 2..] && from < next
    {
      var r := StrStr(buf, from, buf[from..len]);
      if r.None? { return None, from; }
      var i := r.value;
      assert i + 2 <= |buf[from..len]| == len - from;
      assert buf[from..len][..i] == buf[from..from + i];
      assert buf[from..len][i + 2..] == buf[from + i + 2..len];
      return Some(buf[from..from + i]), from + i + 2;
    }

    /** The line of an integer, a status, an error or an array length. */
    method PassLine(buf: array<Byte>, pos: nat, haveArray: bool, len: nat)
      returns (pos': nat, ha: bool, stop: bool)
      requires Holds(buf, len) && pos < len
      requires parser.state.Integer? || parser.state.Result? || parser.state.ArrayLength?
      modifies this`parser
      ensures pos' <= len
      ensures match Step(old(parser), buf[pos..len], haveArray)
              case Go(q, rest, h) => !stop && parser == q && rest == buf[pos'..len] && ha == h && pos < pos'
              case Wait(q, rest) => stop && parser == q && rest == buf[pos'..len]
              case Fail(q) => false
    {
      ha := haveArray;
      var r, next := TakeLine(buf, pos, len);
      if r.None? { return pos, ha, true; }
      var line := r.value;
      pos', stop := next, false;
      if parser.state.Integer? {
        parser := parser.(intValue := Atoi(line), valid := true);
      } else if parser.state.Result? {
        parser := parser.(text := line, valid := true);
      } else {
        parser := parser.(arrayNum := Atoi(line));
        if parser.arrayNum == 0 {
          parser := parser.(valid := true);
        } else if parser.arrayNum == -1 {
          parser := parser.(valid := true, intValue := -1);
        } else {
          parser := parser.(state := Length);
          ha := true;
        }
      }
    }

    /** An element of an array that is a line of its own. */
    method PassInline(buf: array<Byte>, pos: nat, haveArray: bool, len: nat)
      returns (pos': nat, ha: bool, stop: bool)
      requires Holds(buf, len) && pos < len && parser.state.Length?
      requires (haveArray && (buf[pos] == MINUS || buf[pos] == PLUS || buf[pos] == COLON))
      modifies this`parser
      ensures pos' <= len
      ensures match Step(old(parser), buf[pos..len], haveArray)
              case Go(q, rest, h) => !stop && parser == q && rest == buf[pos'..len] && ha == h && pos < pos'
              case Wait(q, rest) => stop && parser == q && rest == buf[pos'..len]
              case Fail(q) => false
    {
      ha := haveArray;
      var r, next := TakeLine(buf, pos, len);
      if r.None? { return pos, ha, true; }
      parser := Push(parser, Text(r.value));
      return next, ha, false;
    }

    /** The line in front of a bulk string; its first byte may be gone already. */
    method PassBulkLength(buf: array<Byte>, pos: nat, haveArray: bool, len: nat)
      returns (pos': nat, ha: bool, stop: bool)
      requires Holds(buf, len) && pos < len && parser.state.Length?
      requires !(haveArray && (buf[pos] == MINUS || buf[pos] == PLUS || buf[pos] == COLON))
      modifies this`parser
      ensures pos' <= len
      ensures match Step(old(parser), buf[pos..len], haveArray)
              case Go(q, rest, h) => !stop && parser == q && rest == buf[pos'..len] && ha == h && pos < pos'
              case Wait(q, rest) => stop && parser == q && rest == buf[pos'..len]
              case Fail(q) => false
    {
      ha := haveArray;
      var from := if buf[pos] == DOLLAR then pos + 1 else pos;
      assert buf[pos..len][1..] == buf[pos + 1..len];
      var r, next := TakeLine(buf, from, len);
      if r.None? { return from, ha, true; }
      parser := parser.(arrayLen := Atoi(r.value));
      parser := if parser.arrayLen != -1 then parser.(state := Str) else Push(parser, Nil);
      return next, ha, false;
    }

    /** One pass through the parse loop. */
    method Pass(buf: array<Byte>, pos: nat, haveArray: bool, len: nat)
      returns (pos': nat, ha: bool, stop: bool, ok: bool)
      requires Holds(buf, len) && pos < len
      modifies this`parser
      ensures pos' <= len
      ensures match Step(old(parser), buf[pos..len], haveArray)
              case Go(q, rest, h) => !stop && parser == q && rest == buf[pos'..len] && ha == h && pos < pos'
              case Wait(q, rest) => stop && ok && parser == q && rest == buf[pos'..len]
              case Fail(q) => stop && !ok && parser == q
    {
      pos', ha, stop, ok := pos, haveArray, false, true;
      var c := buf[pos];
      assert buf[pos..len][1..] == buf[pos + 1..len];
      match parser.state
      case Unknown => stop, ok := true, false;
      case Type =>
        pos' := pos + 1;
        if c == MINUS { parser := parser.(state := Result, reply := Error); }
        else if c == PLUS { parser := parser.(state := Result, reply := Status); }
        else if c == COLON { parser := parser.(state := Integer, reply := IntegerReply); }
        else if c == DOLLAR { parser := parser.(state := Length, reply := StringReply, arrayNum := 1); }
        else if c == STAR { parser := parser.(state := ArrayLength, reply := ArrayReply); }
        else {
          parser := parser.(reply := UnknownReply);
          stop, ok := true, false;
        }
      case Str =>
        if parser.arrayLen < 0 {
          stop, ok := true, false;
        } else if len - pos >= parser.arrayLen + 2 {
          pos' := pos + parser.arrayLen + 2;
          assert buf[pos..len][..parser.arrayLen] == buf[pos..pos + parser.arrayLen];
          assert buf[pos..len][parser.arrayLen + 2..] == buf[pos'..len];
          parser := Push(parser, Text(buf[pos..pos + parser.arrayLen]));
        } else {
          stop := true;
        }
      case Length =>
        if haveArray && (c == MINUS || c == PLUS || c == COLON) {
          pos', ha, stop := PassInline(buf, pos, haveArray, len);
        } else {
          pos', ha, stop := PassBulkLength(buf, pos, haveArray, len);
        }
      case _ => pos', ha, stop := PassLine(buf, pos, haveArray, len);
    }

    /** parse: on return `unparse` is what the next piece must be put behind. */
    method Parse(buf: array<Byte>, len: nat) returns (ok: bool)
      requires Holds(buf, len) && unparse == []
      modifies this
      ensures Parsed(parser, unparse, ok) == Resp.Parse(old(parser), buf[..len]) && |unparse| <= len
    {
      if parser.state.Unknown? { parser := parser.(state := Type); }
      var pos, haveArray := 0, false;
      ghost var target := Resp.Parse(old(parser), buf[..len]);
      assert buf[0..len] == buf[..len];
      while pos < len
        invariant 0 <= pos <= len && unparse == [] && Loop(parser, buf[pos..len], haveArray) == target
        decreases len - pos
      {
        var stop;
        pos, haveArray, stop, ok := Pass(buf, pos, haveArray, len);
        if stop {
          if ok && !parser.valid { unparse := buf[pos..len]; }
          return;
        }
      }
      ok := true;
    }

    /** recv: `pieces` are what the reads deliver; running out of them is a failed read.  The
        data to parse always fits the buffer with room for a terminating zero byte. */
    method Recv(pieces: seq<Bytes>) returns (ok: bool)
      requires forall i :: 0 <= i < |pieces| ==> |pieces[i]| < READ_SIZE
      modifies this
      ensures var r := Resp.Recv(Fresh, [], pieces); parser == r.parser && (ok <==> r.parser.valid)
    {
      parser, unparse := Fresh, [];
      var mallocLen := READ_SIZE;
      var toParse := new Byte[READ_SIZE](_ => 0);
      var i := 0;
      while !parser.valid
        invariant 0 <= i <= |pieces| && fresh(toParse) && toParse.Length == mallocLen
        invariant READ_SIZE <= mallocLen && |unparse| < mallocLen
        invariant Resp.Recv(parser, unparse, pieces[i..]) == Resp.Recv(Fresh, [], pieces)
        decreases |pieces| - i
      {
        if i == |pieces| { return false; }
        RecvNext(parser, unparse, pieces, i);
        var data := unparse + pieces[i];
        if |unparse| != 0 && |data| >= mallocLen {
          mallocLen := mallocLen * 2;
          toParse := new Byte[mallocLen](_ => 0);
        }
        Load(toParse, data);
        unparse := [];
        var _ := Parse(toParse, |data|);
        i := i + 1;
      }
      return true;
    }

    /** memset and memcpy. */
    static method Load(buf: array<Byte>, data: Bytes)
      requires |data| < buf.Length
      modifies buf
      ensures Holds(buf, |data|) && buf[..|data|] == data
    {
      for i := 0 to buf.Length
        invariant forall j :: 0 <= j < i ==> buf[j] == if j < |data| then data[j] else 0
      {
        buf[i] := if i < |data| then data[i] else 0;
      }
    }
  }
}
