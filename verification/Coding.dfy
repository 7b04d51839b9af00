/** Variable-length integers, seven bits to a byte, and slices with their length in front. */
module Coding {
  import opened Common

  type Byte = b: int | 0 <= b < 256
  type Bytes = seq<Byte>

  const TWO32: nat := 0x1_0000_0000
  const TWO64: nat := 0x1_0000_0000_0000_0000

  // ----- what the bytes mean

  /** Low digits first, in base 128; every byte but the last is marked by its top bit. */
  function Varint(v: nat): (s: Bytes)
    ensures |s| >= 1
  {
    if v < 128 then [v] else [v % 128 + 128] + Varint(v / 128)
  }

  datatype Read = Read(value: nat, rest: Bytes)

  /** One more digit; or is a sum, since the bits or-ed in lie above those already there. */
  function Plus(acc: nat, digit: nat, unit: nat, width: nat): nat
    requires width > 0
  {
    Positive(digit, unit);
    (acc + digit * unit) % width
  }

  /** At most k bytes, the next one worth `unit`, in an integer of limited width. */
  function Decode(s: Bytes, k: nat, unit: nat, acc: nat, width: nat): (r: Option<Read>)
    requires width > 0
    ensures r.Some? ==> |r.value.rest| < |s|
  {
    if k == 0 || s == [] then None
    else if s[0] >= 128 then Decode(s[1..], k - 1, unit * 128, Plus(acc, s[0] - 128, unit, width), width)
    else Some(Read(Plus(acc, s[0], unit, width), s[1..]))
  }

  function Decode32(s: Bytes): Option<Read> { Decode(s, 5, 1, 0, TWO32) }

  function Decode64(s: Bytes): Option<Read> { Decode(s, 10, 1, 0, TWO64) }

  lemma DigitSplit(v: nat, unit: nat)
    ensures v * unit == v % 128 * unit + v / 128 * (unit * 128)
  {
    var q, r := v / 128, v % 128;
    assert v == q * 128 + r;
    assert (q * 128 + r) * unit == q * 128 * unit + r * unit;
    assert q * 128 * unit == q * (unit * 128);
  }

  lemma SmallMod(x: nat, m: nat)
    requires x < m
    ensures x % m == x
  {
  }

  lemma DecodeLast(s: Bytes, k: nat, unit: nat, acc: nat, width: nat)
    requires width > 0 && k > 0 && s != [] && s[0] < 128 && acc + s[0] * unit < width
    ensures Decode(s, k, unit, acc, width) == Some(Read(acc + s[0] * unit, s[1..]))
  {
    assert 0 <= s[0] * unit;
    SmallMod(acc + s[0] * unit, width);
  }

  lemma DecodeMore(s: Bytes, k: nat, unit: nat, acc: nat, width: nat)
    requires width > 0 && k > 0 && s != [] && s[0] >= 128 && acc + (s[0] - 128) * unit < width
    ensures Decode(s, k, unit, acc, width) == Decode(s[1..], k - 1, unit * 128, acc + (s[0] - 128) * unit, width)
  {
    assert 0 <= (s[0] - 128) * unit;
    SmallMod(acc + (s[0] - 128) * unit, width);
  }

  /** Whatever follows, an integer that fits is read back and no byte more is taken. */
  lemma {:induction false} DecodeVarint(v: nat, rest: Bytes, k: nat, unit: nat, acc: nat, width: nat)
    requires width > 0 && |Varint(v)| <= k && acc + v * unit < width
    ensures Decode(Varint(v) + rest, k, unit, acc, width) == Some(Read(acc + v * unit, rest))
    decreases v
  {
    var s := Varint(v) + rest;
    if v < 128 {
      assert s[0] == v && s[1..] == rest;
      DecodeLast(s, k, unit, acc, width);
    } else {
      var low, high := v % 128 * unit, v / 128 * (unit * 128);
      DigitSplit(v, unit);
      Positive(v / 128, unit * 128);
      assert s[0] - 128 == v % 128 && s[1..] == Varint(v / 128) + rest;
      DecodeMore(s, k, unit, acc, width);
      Positive(v % 128, unit);
      DecodeVarint(v / 128, rest, k - 1, unit * 128, acc + low, width);
    }
  }

  lemma Positive(a: nat, b: nat)
    ensures a * b >= 0
  {
  }

  ghost predicate AllMarked(s: Bytes) { forall i :: 0 <= i < |s| ==> s[i] >= 128 }

  lemma {:induction false} NoEndRefused(s: Bytes, k: nat, unit: nat, acc: nat, width: nat)
    requires width > 0 && AllMarked(s)
    ensures Decode(s, k, unit, acc, width).None?
    decreases |s|
  {
    if k > 0 && s != [] {
      NoEndRefused(s[1..], k - 1, unit * 128, Plus(acc, s[0] - 128, unit, width), width);
    }
  }

  lemma {:induction false} PrefixMarked(v: nat, n: nat)
    requires n < |Varint(v)|
    ensures AllMarked(Varint(v)[..n])
    decreases v
  {
    if v >= 128 && n > 0 {
      PrefixMarked(v / 128, n - 1);
      assert Varint(v)[..n] == [v % 128 + 128] + Varint(v / 128)[..n - 1];
    }
  }

  /** A varint that is cut short is refused. */
  lemma PrefixRefused(v: nat, n: nat, k: nat, unit: nat, acc: nat, width: nat)
    requires width > 0 && n < |Varint(v)|
    ensures Decode(Varint(v)[..n], k, unit, acc, width).None?
  {
    PrefixMarked(v, n);
    NoEndRefused(Varint(v)[..n], k, unit, acc, width);
  }

  /** The number whose digits in base 128 these bytes are, lowest first. */
  function Value(s: Bytes): nat {
    if s == [] then 0 else s[0] % 128 + 128 * Value(s[1..])
  }

  /** A varint ends with its first unmarked byte, at s[n]. */
  ghost predicate EndsAt(s: Bytes, n: nat) {
    n < |s| && s[n] < 128 && forall i :: 0 <= i < n ==> s[i] >= 128
  }

  lemma ModPlus(a: nat, b: nat, m: nat)
    requires m > 0
    ensures (a % m + b) % m == (a + b) % m
  {
    ModTimes(a / m, a % m + b, m);
    assert a / m * m + (a % m + b) == a + b;
  }

  lemma {:induction false} ModTimes(q: nat, x: nat, m: nat)
    requires m > 0
    ensures (q * m + x) % m == x % m
  {
    if q == 0 {
      assert q * m == 0;
    } else {
      assert q * m == (q - 1) * m + m;
      ModTimes(q - 1, m + x, m);
      ModOnce(x, m);
    }
  }

  lemma ModOnce(x: nat, m: nat)
    requires m > 0
    ensures (m + x) % m == x % m
  {
    var q, r := x / m, x % m;
    var q', r' := (m + x) / m, (m + x) % m;
    var d := q' - q - 1;
    assert d * m == r - r' by {
      assert x == q * m + r && m + x == q' * m + r';
      assert d * m == q' * m - q * m - m;
    }
    NoMultiple(d, m, r - r');
  }

  /** Less than m from zero there is no other multiple of m. */
  lemma NoMultiple(d: int, m: nat, x: int)
    requires d * m == x && x < m && 0 < x + m
    ensures x == 0
  {
    if d > 0 { AtLeastOne(d, m); }
    if d < 0 { AtLeastOne(-d, m); }
  }

  lemma AtLeastOne(d: int, m: nat)
    requires d >= 1
    ensures d * m >= m
  {
    assert d * m == m + (d - 1) * m;
    Positive(d - 1, m);
  }

  lemma Digits(unit: nat, low: nat, rest: nat)
    ensures unit * (low + 128 * rest) == low * unit + (unit * 128) * rest
  {
  }

  lemma ValueCons(s: Bytes, n: nat)
    requires 0 < n < |s| && s[0] >= 128
    ensures Value(s[..n + 1]) == (s[0] - 128) + 128 * Value(s[1..][..n]) && s[1..][n..] == s[n + 1..]
  {
    assert s[..n + 1][1..] == s[1..][..n];
  }

  /** What any bytes decode to, as few or as many as there are: the digits up to the first unmarked
      byte, cut to the width, if that byte is among the first k; otherwise nothing. */
  lemma {:induction false} DecodeMeans(s: Bytes, k: nat, unit: nat, acc: nat, width: nat, n: nat)
    requires width > 0 && EndsAt(s, n)
    ensures Decode(s, k, unit, acc, width)
         == if n < k then Some(Read((acc + unit * Value(s[..n + 1])) % width, s[n + 1..])) else None
    decreases n
  {
    if k > 0 && n == 0 {
      assert s[..1][1..] == [] && Value(s[..1]) == s[0];
    } else if k > 0 {
      var low, rest := s[0] - 128, Value(s[1..][..n]);
      DecodeMeans(s[1..], k - 1, unit * 128, Plus(acc, low, unit, width), width, n - 1);
      ValueCons(s, n);
      PlusMore(acc, low, unit, rest, width);
    }
  }

  lemma PlusMore(acc: nat, low: nat, unit: nat, rest: nat, width: nat)
    requires width > 0
    ensures (Plus(acc, low, unit, width) + (unit * 128) * rest) % width == (acc + unit * (low + 128 * rest)) % width
  {
    Digits(unit, low, rest);
    Positive(low, unit);
    Positive(unit * 128, rest);
    ModPlus(acc + low * unit, (unit * 128) * rest, width);
  }

  function Power128(k: nat): nat { if k == 0 then 1 else 128 * Power128(k - 1) }

  /** k bytes suffice below 128 to the k. */
  lemma {:induction false} LengthOf(v: nat, k: nat)
    requires k >= 1 && v < Power128(k)
    ensures |Varint(v)| <= k
    decreases v
  {
    if v >= 128 { LengthOf(v / 128, k - 1); }
  }

  lemma Length32(v: nat)
    requires v < TWO32
    ensures |Varint(v)| <= 5
  {
    assert Power128(4) == 268435456 && Power128(5) == 128 * Power128(4);
    LengthOf(v, 5);
  }

  lemma Length64(v: nat)
    requires v < TWO64
    ensures |Varint(v)| <= 10
  {
    assert Power128(4) == 268435456 && Power128(5) == 128 * Power128(4) && Power128(6) == 128 * Power128(5);
    assert Power128(7) == 128 * Power128(6) && Power128(8) == 128 * Power128(7);
    assert Power128(9) == 128 * Power128(8) && Power128(10) == 128 * Power128(9);
    LengthOf(v, 10);
  }

  lemma RoundTrip32(v: nat, rest: Bytes)
    requires v < TWO32
    ensures Decode32(Varint(v) + rest) == Some(Read(v, rest))
  {
    Length32(v);
    DecodeVarint(v, rest, 5, 1, 0, TWO32);
  }

  lemma RoundTrip64(v: nat, rest: Bytes)
    requires v < TWO64
    ensures Decode64(Varint(v) + rest) == Some(Read(v, rest))
  {
    Length64(v);
    DecodeVarint(v, rest, 10, 1, 0, TWO64);
  }

  // ----- slices

  function PutSlice(s: Bytes): Bytes { Varint(|s| % TWO32) + s }

  function PutSlices(l: seq<Bytes>): Bytes {
    if l == [] then [] else PutSlice(l[0]) + PutSlices(l[1..])
  }

  datatype Slice = Slice(data: Bytes, rest: Bytes)

  function GetSlice(s: Bytes): Option<Slice> {
    match Decode32(s)
    case None => None
    case Some(Read(n, rest)) => if n <= |rest| then Some(Slice(rest[..n], rest[n..])) else None
  }

  /** Read slices one after another until the input is used up. */
  function GetSlices(s: Bytes): Option<seq<Bytes>>
    decreases |s|
  {
    if s == [] then Some([])
    else
      match GetSlice(s)
      case None => None
      case Some(Slice(data, rest)) =>
        match GetSlices(rest)
        case None => None
        case Some(l) => Some([data] + l)
  }

  /** A slice comes back whole exactly when its length fits 32 bits. */
  lemma SliceRoundTrip(s: Bytes, rest: Bytes)
    ensures |s| < TWO32 ==> GetSlice(PutSlice(s) + rest) == Some(Slice(s, rest))
    ensures |s| >= TWO32 ==> GetSlice(PutSlice(s) + rest) != Some(Slice(s, rest))
  {
    var n := |s| % TWO32;
    assert PutSlice(s) + rest == Varint(n) + (s + rest);
    RoundTrip32(n, s + rest);
    if |s| < TWO32 {
      assert (s + rest)[..n] == s && (s + rest)[n..] == rest;
    } else {
      assert |(s + rest)[..n]| == n < |s|;
    }
  }

  lemma {:induction false} SlicesRoundTrip(l: seq<Bytes>)
    requires forall i :: 0 <= i < |l| ==> |l[i]| < TWO32
    ensures GetSlices(PutSlices(l)) == Some(l)
  {
    if l != [] {
      SliceRoundTrip(l[0], PutSlices(l[1..]));
      SlicesRoundTrip(l[1..]);
      assert l == [l[0]] + l[1..];
    }
  }

  // ----- the encoders

  function High(x: nat): Byte { x % 128 + 128 }

  lemma Shape2(v: nat)
    requires 128 <= v < 16384
    ensures Varint(v) == [High(v), v / 128]
  {
  }

  lemma Shape3(v: nat)
    requires 16384 <= v < 2097152
    ensures Varint(v) == [High(v), High(v / 128), v / 16384]
  {
    Shape2(v / 128);
    assert v / 128 / 128 == v / 16384;
  }

  lemma Shape4(v: nat)
    requires 2097152 <= v < 268435456
    ensures Varint(v) == [High(v), High(v / 128), High(v / 16384), v / 2097152]
  {
    Shape3(v / 128);
    assert v / 128 / 128 == v / 16384 && v / 128 / 16384 == v / 2097152;
  }

  lemma Shape5(v: nat)
    requires 268435456 <= v < TWO32
    ensures Varint(v) == [High(v), High(v / 128), High(v / 16384), High(v / 2097152), v / 268435456]
  {
    Shape4(v / 128);
    assert v / 128 / 128 == v / 16384 && v / 128 / 16384 == v / 2097152 && v / 128 / 2097152 == v / 268435456;
  }

  /** Write to `dst` from `at` on, and nowhere else; the caller leaves room for five bytes. */
  method EncodeVarint32(dst: array<Byte>, at: nat, v: nat) returns (end: nat)
    requires v < TWO32 && at + 5 <= dst.Length
    modifies dst
    ensures at <= end <= at + 5 && dst[at..end] == Varint(v)
    ensures forall i :: 0 <= i < at || end <= i < dst.Length ==> dst[i] == old(dst[i])
  {
    if v < 128 {
      dst[at] := v;
      end := at + 1;
    } else if v < 16384 {
      Shape2(v);
      dst[at], dst[at + 1] := High(v), v / 128;
      end := at + 2;
    } else if v < 2097152 {
      Shape3(v);
      dst[at], dst[at + 1], dst[at + 2] := High(v), High(v / 128), v / 16384;
      end := at + 3;
    } else if v < 268435456 {
      Shape4(v);
      dst[at], dst[at + 1], dst[at + 2], dst[at + 3] := High(v), High(v / 128), High(v / 16384), v / 2097152;
      end := at + 4;
    } else {
      Shape5(v);
      dst[at], dst[at + 1], dst[at + 2] := High(v), High(v / 128), High(v / 16384);
      dst[at + 3], dst[at + 4] := High(v / 2097152), v / 268435456;
      end := at + 5;
    }
  }

  lemma VarintStep(done: seq<Byte>, x: nat)
    requires x >= 128
    ensures done + Varint(x) == done + [High(x)] + Varint(x / 128)
  {
  }

  method EncodeVarint64(dst: array<Byte>, at: nat, v: nat) returns (end: nat)
    requires v < TWO64 && at + 10 <= dst.Length
    modifies dst
    ensures at <= end <= at + 10 && dst[at..end] == Varint(v)
    ensures forall i :: 0 <= i < at || end <= i < dst.Length ==> dst[i] == old(dst[i])
  {
    Length64(v);
    var x := v;
    end := at;
    while x >= 128
      invariant 0 <= x && at <= end && end + |Varint(x)| == at + |Varint(v)|
      invariant dst[at..end] + Varint(x) == Varint(v)
      invariant forall i :: 0 <= i < at || end <= i < dst.Length ==> dst[i] == old(dst[i])
      decreases x
    {
      ghost var done := dst[at..end];
      dst[end] := High(x);
      assert dst[at..end + 1] == done + [High(x)];
      VarintStep(done, x);
      x := x / 128;
      end := end + 1;
    }
    ghost var done := dst[at..end];
    dst[end] := x;
    assert dst[at..end + 1] == done + [x];
    end := end + 1;
  }

  method VarintLength(v: nat) returns (len: nat)
    ensures len == |Varint(v)|
  {
    len := 1;
    var x := v;
    while x >= 128
      invariant 0 <= x && len + |Varint(x)| == |Varint(v)| + 1
      decreases x
    {
      x := x / 128;
      len := len + 1;
    }
  }

  // ----- the decoders

  /** The loop of GetVarint32PtrFallback and of GetVarint64Ptr, for k bytes at most. */
  method DecodeLoop(s: Bytes, k: nat, width: nat) returns (r: Option<Read>)
    requires width > 0
    ensures r == Decode(s, k, 1, 0, width)
  {
    var i, unit: nat, result: nat := 0, 1, 0;
    while i < k && i < |s|
      invariant 0 <= i <= k && i <= |s| && Decode(s[i..], k - i, unit, result, width) == Decode(s, k, 1, 0, width)
    {
      var byte := s[i];
      assert s[i..][0] == byte && s[i..][1..] == s[i + 1..];
      if byte >= 128 {
        result := Plus(result, byte - 128, unit, width);
      } else {
        return Some(Read(Plus(result, byte, unit, width), s[i + 1..]));
      }
      i, unit := i + 1, unit * 128;
    }
    return None;
  }

  /** GetVarint32Ptr: one byte is read without the loop. */
  method GetVarint32(s: Bytes) returns (r: Option<Read>)
    ensures r == Decode32(s)
  {
    if |s| > 0 && s[0] < 128 { return Some(Read(s[0], s[1..])); }
    r := DecodeLoop(s, 5, TWO32);
  }

  method GetVarint64(s: Bytes) returns (r: Option<Read>)
    ensures r == Decode64(s)
  {
    r := DecodeLoop(s, 10, TWO64);
  }

  /** Append to a string by way of a buffer of five bytes. */
  method PutVarint32(dst: Bytes, v: nat) returns (r: Bytes)
    requires v < TWO32
    ensures r == dst + Varint(v)
  {
    var buf := new Byte[5](_ => 0);
    var end := EncodeVarint32(buf, 0, v);
    r := dst + buf[..end];
  }

  method PutLengthPrefixedSlice(dst: Bytes, s: Bytes) returns (r: Bytes)
    ensures r == dst + PutSlice(s)
  {
    r := PutVarint32(dst, |s| % TWO32);
    r := r + s;
  }

  /** `left` is what the input is afterwards: a call that is refused for want of bytes has consumed
      the length all the same. */
  method GetLengthPrefixedSlice(input: Bytes) returns (r: Option<Bytes>, left: Bytes)
    ensures GetSlice(input) == if r.Some? then Some(Slice(r.value, left)) else None
    ensures r.None? && Decode32(input).None? ==> left == input
    ensures r.None? && Decode32(input).Some? ==> left == Decode32(input).value.rest && |left| < |input|
  {
    var n := GetVarint32(input);
    match n
    case None => r, left := None, input;
    case Some(Read(len, rest)) =>
      if |rest| >= len { r, left := Some(rest[..len]), rest[len..]; } else { r, left := None, rest; }
  }
}
