/** backend/rendezvous: the byte string a browser signs. A Go string is a sequence of bytes; here it is a
    `string` with one char per byte. */
module Canonical {
  import opened Common

  const TWO_32: int := 0x1_0000_0000

  // ---------- length-prefixed segments ----------

  /** Four bytes read as a number, most significant first. */
  function ReadBe32(b: string): int
    requires |b| >= 4
  {
    b[0] as int * 0x100_0000 + b[1] as int * 0x1_0000 + b[2] as int * 0x100 + b[3] as int
  }

  lemma ByteSum(n: nat)
    requires n < TWO_32
    ensures n / 0x100_0000 * 0x100_0000 + n / 0x1_0000 % 0x100 * 0x1_0000 + n / 0x100 % 0x100 * 0x100 + n % 0x100 == n
  {
    var q := n / 0x100;
    var r := q / 0x100;
    assert n / 0x1_0000 == r && n / 0x100_0000 == r / 0x100;
  }

  /** The four bytes that PutUint32 writes for uint32(n), most significant first. */
  function Be32(n: nat): (b: string)
    ensures |b| == 4 && forall c | c in b :: c as int < 0x100
    ensures ReadBe32(b) == n % TWO_32
  {
    var u := n % TWO_32;
    ByteSum(u);
    [(u / 0x100_0000) as char, (u / 0x1_0000 % 0x100) as char, (u / 0x100 % 0x100) as char, (u % 0x100) as char]
  }

  function Segment(s: string): string {
    Be32(|s|) + s
  }

  function Segments(fields: seq<string>): string {
    if fields == [] then "" else Segment(fields[0]) + Segments(fields[1..])
  }

  /** What CanonicalMessage returns. */
  function Encode(domain: string, fields: seq<string>): string {
    Segments([domain] + fields)
  }

  /** A segment short enough for its length to fit the prefix. */
  predicate Short(s: string) {
    |s| < TWO_32
  }

  predicate AllShort(fields: seq<string>) {
    forall i | 0 <= i < |fields| :: Short(fields[i])
  }

  /** The inverse reading of a canonical message; None when the bytes are not a list of segments. */
  function Decode(b: string): Option<seq<string>>
    decreases |b|
  {
    if |b| == 0 then Some([])
    else if |b| < 4 || |b| < 4 + ReadBe32(b) then None
    else
      var end := 4 + ReadBe32(b);
      match Decode(b[end..])
      case None => None
      case Some(rest) => Some([b[4..end]] + rest)
  }

  lemma PrefixReadsBack(n: nat)
    requires n < TWO_32
    ensures ReadBe32(Be32(n)) == n
  {
  }

  lemma {:induction false} DecodeInvertsSegments(fields: seq<string>)
    requires AllShort(fields)
    ensures Decode(Segments(fields)) == Some(fields)
  {
    if fields != [] {
      var s, rest := fields[0], Segments(fields[1..]);
      var b := Segments(fields);
      assert b == Segment(s) + rest;
      PrefixReadsBack(|s|);
      assert b[..4] == Be32(|s|);
      assert ReadBe32(b) == ReadBe32(b[..4]);
      assert b[4..4 + |s|] == s;
      assert b[4 + |s|..] == rest;
      DecodeInvertsSegments(fields[1..]);
      assert [s] + fields[1..] == fields;
    }
  }

  /** Equal canonical messages have equal domain tags and equal field lists, of whatever lengths. */
  lemma {:induction false} EncodeInjective(d1: string, f1: seq<string>, d2: string, f2: seq<string>)
    requires Short(d1) && AllShort(f1) && Short(d2) && AllShort(f2)
    requires Encode(d1, f1) == Encode(d2, f2)
    ensures d1 == d2 && f1 == f2
  {
    DecodeInvertsSegments([d1] + f1);
    DecodeInvertsSegments([d2] + f2);
    assert ([d1] + f1)[1..] == f1 && ([d2] + f2)[1..] == f2;
    assert d1 == ([d1] + f1)[0] && d2 == ([d2] + f2)[0];
  }

  /** A field of 2^32 bytes has the prefix of the empty one: the encoding is not injective past that length. */
  lemma LongFieldLosesItsLength(long: string)
    requires |long| == TWO_32
    ensures long != "" && Be32(|long|) == Be32(|""|)
  {
    assert long[0] in long;
  }

  // ---------- CanonicalMessage, which fills a preallocated buffer by offset ----------

  /** Copies s into the buffer and leaves what is before it. */
  method Copy(buf: array<char>, off: nat, s: string)
    requires off + |s| <= buf.Length
    modifies buf
    ensures buf[..off + |s|] == old(buf[..off]) + s
  {
    forall k | 0 <= k < |s| {
      buf[off + k] := s[k];
    }
    assert buf[..off] == old(buf[..off]);
    assert buf[off..off + |s|] == s;
    assert buf[..off + |s|] == buf[..off] + buf[off..off + |s|];
  }

  method Put(buf: array<char>, off: nat, s: string) returns (next: nat)
    requires off + 4 + |s| <= buf.Length
    modifies buf
    ensures next == off + 4 + |s|
    ensures buf[..next] == old(buf[..off]) + Segment(s)
  {
    ghost var before := buf[..off];
    var prefix := Be32(|s|);
    Copy(buf, off, prefix);
    Copy(buf, off + 4, s);
    next := off + 4 + |s|;
    Associate(before, prefix, s);
  }

  lemma {:induction false} SegmentsAppend(fields: seq<string>, last: string)
    ensures Segments(fields + [last]) == Segments(fields) + Segment(last)
  {
    if fields == [] {
      assert Segments([last][1..]) == "";
      assert fields + [last] == [last];
    } else {
      SegmentsAppend(fields[1..], last);
      assert (fields + [last])[1..] == fields[1..] + [last];
      assert (fields + [last])[0] == fields[0];
      Associate(Segment(fields[0]), Segments(fields[1..]), Segment(last));
    }
  }

  method TotalLength(domain: string, fields: seq<string>) returns (total: nat)
    ensures total == |Encode(domain, fields)|
  {
    total := 4 + |domain|;
    assert Segments([domain][1..]) == "";
    for i := 0 to |fields|
      invariant total == |Segments([domain] + fields[..i])|
    {
      SegmentsAppend([domain] + fields[..i], fields[i]);
      assert [domain] + fields[..i + 1] == [domain] + fields[..i] + [fields[i]];
      total := total + (4 + |fields[i]|);
    }
    assert fields[..|fields|] == fields;
  }

  method CanonicalMessage(domain: string, fields: seq<string>) returns (msg: string)
    ensures msg == Encode(domain, fields)
  {
    ghost var all := [domain] + fields;
    var total := TotalLength(domain, fields);
    var buf := new char[total];
    SegmentsMonotone(all, 1);
    assert all[..1] == [domain] && Segments([domain][1..]) == "";
    var off := Put(buf, 0, domain);
    for i := 0 to |fields|
      invariant 0 <= off <= buf.Length
      invariant buf[..off] == Segments(all[..i + 1])
    {
      SegmentsAppend(all[..i + 1], fields[i]);
      assert all[..i + 2] == all[..i + 1] + [fields[i]];
      SegmentsMonotone(all, i + 2);
      off := Put(buf, off, fields[i]);
    }
    assert all[..|fields| + 1] == all;
    msg := buf[..];
    assert buf[..off] == buf[..];
  }

  lemma {:induction false} SegmentsMonotone(all: seq<string>, k: nat)
    requires k <= |all|
    ensures |Segments(all[..k])| <= |Segments(all)|
    decreases |all| - k
  {
    if k < |all| {
      SegmentsAppend(all[..k], all[k]);
      assert all[..k + 1] == all[..k] + [all[k]];
      SegmentsMonotone(all, k + 1);
    } else {
      assert all[..k] == all;
    }
  }

  // ---------- itoa ----------

  function Digit(d: nat): char
    requires d < 10
  {
    '0' + d as char
  }

  /** Decimal digits of n, none for zero. */
  function Digits(n: nat): (s: string)
    ensures n > 0 ==> s != ""
    ensures forall c | c in s :: '0' <= c <= '9'
  {
    if n == 0 then "" else Digits(n / 10) + [Digit(n % 10)]
  }

  /** itoa: the negation of the least int64 wraps back to itself, so that value gets no digits. */
  function Itoa(v: int): string
    requires IsInt64(v)
  {
    if v == 0 then "0"
    else if v < 0 then "-" + (if v == MIN_INT64 then "" else Digits(-v))
    else Digits(v)
  }

  /** %d of a number that is not negative. */
  function Decimal(n: nat): string {
    if n == 0 then "0" else Digits(n)
  }

  /** Base-10 reading of an unsigned number. */
  function Value(s: string): int {
    if s == "" then 0 else Value(s[..|s| - 1]) * 10 + (s[|s| - 1] as int - '0' as int)
  }

  function Parse(s: string): int {
    if s != "" && s[0] == '-' then -Value(s[1..]) else Value(s)
  }

  lemma {:induction false} DigitsValue(n: nat)
    ensures Value(Digits(n)) == n
  {
    if n > 0 {
      DigitsValue(n / 10);
      var s := Digits(n);
      assert s[..|s| - 1] == Digits(n / 10);
      assert s[|s| - 1] == Digit(n % 10);
    }
  }

  lemma ParseOfDigits(n: int)
    requires n >= 0
    ensures Parse("-" + Digits(n)) == -n
    ensures n > 0 ==> Parse(Digits(n)) == n && Digits(n) != "-"
  {
    DigitsValue(n);
    assert ("-" + Digits(n))[1..] == Digits(n);
    if n > 0 { assert Digits(n)[0] in Digits(n); }
  }

  /** itoa is inverted by base-10 parsing on exactly the int64 values other than the least one. */
  lemma {:induction false} ItoaParsesBack(v: int)
    requires IsInt64(v)
    ensures Parse(Itoa(v)) == v <==> v != MIN_INT64
    ensures v == MIN_INT64 ==> Itoa(v) == "-"
  {
    if v == 0 {
      assert Value("0"[..0]) == 0;
    } else if v > 0 {
      ParseOfDigits(v);
    } else if v == MIN_INT64 {
      ParseOfDigits(0);
    } else {
      ParseOfDigits(-v);
    }
  }

  /** Two int64 values never share a spelling, the least one included. */
  lemma {:induction false} ItoaInjective(v: int, w: int)
    requires IsInt64(v) && IsInt64(w) && Itoa(v) == Itoa(w)
    ensures v == w
  {
    ItoaParsesBack(v);
    ItoaParsesBack(w);
    assert Parse("-") == 0;
  }

  function Pow10(k: nat): nat {
    if k == 0 then 1 else 10 * Pow10(k - 1)
  }

  lemma {:induction false} DigitsFit(n: nat, k: nat)
    requires n < Pow10(k)
    ensures |Digits(n)| <= k
  {
    if n > 0 {
      DigitsFit(n / 10, k - 1);
    }
  }

  /** Nineteen digits are enough for every int64, so the 20-byte buffer also has room for the sign. */
  lemma {:induction false} NineteenDigits(n: nat)
    requires n <= MAX_INT64
    ensures |Digits(n)| <= 19
  {
    assert Pow10(4) == 10_000;
    assert Pow10(8) == 10_000 * Pow10(4);
    assert Pow10(12) == 10_000 * Pow10(8);
    assert Pow10(16) == 10_000 * Pow10(12);
    assert Pow10(19) == 1000 * Pow10(16);
    DigitsFit(n, 19);
  }

  lemma {:induction false} LastDigitMoves(u: nat, tail: string)
    requires u > 0
    ensures Digits(u) + tail == Digits(u / 10) + ([Digit(u % 10)] + tail)
    ensures |Digits(u)| == |Digits(u / 10)| + 1
  {
    assert Digits(u) == Digits(u / 10) + [Digit(u % 10)];
  }

  method WriteBefore(buf: array<char>, i: nat, c: char) returns (next: nat)
    requires 0 < i <= buf.Length
    modifies buf
    ensures next == i - 1 && buf[next..] == [c] + old(buf[i..])
  {
    next := i - 1;
    buf[next] := c;
    assert buf[i..] == old(buf[i..]);
  }

  /** The digit loop of itoa: digits are written backwards from the end of the buffer. */
  method WriteDigits(buf: array<char>, n: nat) returns (i: nat)
    requires buf.Length == 20 && |Digits(n)| <= 19
    modifies buf
    ensures 1 <= i <= 20 && buf[i..] == Digits(n)
  {
    i := buf.Length;
    var u := n;
    ghost var tail: string := "";
    while u > 0
      invariant i == 20 - |tail| && |Digits(u)| + |tail| <= 19
      invariant buf[i..] == tail
      invariant Digits(u) + tail == Digits(n)
      decreases u
    {
      LastDigitMoves(u, tail);
      i := WriteBefore(buf, i, Digit(u % 10));
      tail := [Digit(u % 10)] + tail;
      u := u / 10;
    }
  }

  method FormatInt(v: int) returns (s: string)
    requires IsInt64(v)
    ensures s == Itoa(v)
  {
    if v == 0 { return "0"; }
    var neg := v < 0;
    var buf := new char[20];
    var u := v;
    if neg { u := Wrap64(-v); }
    var n: nat := if u > 0 then u else 0;  // the loop does not run on a negative u
    NineteenDigits(n);
    var i := WriteDigits(buf, n);
    ItoaOfMagnitude(v, n);
    if neg {
      i := WriteBefore(buf, i, '-');
    }
    s := buf[i..];
  }

  lemma ItoaOfMagnitude(v: int, n: nat)
    requires IsInt64(v) && v != 0
    requires n == if v == MIN_INT64 then 0 else if v < 0 then -v else v
    ensures Itoa(v) == (if v < 0 then "-" + Digits(n) else Digits(n))
  {
  }
}
