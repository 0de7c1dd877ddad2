/**
 UTF-8 byte sequences: the grammar of section 4 of RFC 3629 as the reference, and the
 two library tests the frame scanner relies on (`utf8.Valid`, `utf8.FullRune`), with
 the proof of what those tests say about a byte sequence that grows byte by byte.
 */
module Utf8 {
  import opened Common

  predicate Tail(b: Byte) {
    0x80 <= b <= 0xBF
  }

  /** UTF8-char of RFC 3629, section 4. */
  predicate IsChar(s: seq<Byte>) {
    if |s| == 1 then s[0] <= 0x7F
    else if |s| == 2 then 0xC2 <= s[0] <= 0xDF && Tail(s[1])
    else if |s| == 3 then
      || (s[0] == 0xE0 && 0xA0 <= s[1] <= 0xBF && Tail(s[2]))
      || (0xE1 <= s[0] <= 0xEC && Tail(s[1]) && Tail(s[2]))
      || (s[0] == 0xED && 0x80 <= s[1] <= 0x9F && Tail(s[2]))
      || (0xEE <= s[0] <= 0xEF && Tail(s[1]) && Tail(s[2]))
    else if |s| == 4 then
      || (s[0] == 0xF0 && 0x90 <= s[1] <= 0xBF && Tail(s[2]) && Tail(s[3]))
      || (0xF1 <= s[0] <= 0xF3 && Tail(s[1]) && Tail(s[2]) && Tail(s[3]))
      || (s[0] == 0xF4 && 0x80 <= s[1] <= 0x8F && Tail(s[2]) && Tail(s[3]))
    else false
  }

  /** UTF8-octets of RFC 3629, section 4: a concatenation of characters. */
  ghost predicate ValidUtf8(s: seq<Byte>)
    decreases |s|
  {
    s == [] || exists n :: 1 <= n <= |s| && StartsWithChar(s, n) && ValidUtf8(s[n..])
  }

  predicate StartsWithChar(s: seq<Byte>, n: nat)
    requires n <= |s|
  {
    IsChar(s[..n])
  }

  /** Some continuation makes the bytes valid. */
  ghost predicate Extendable(s: seq<Byte>) {
    exists t :: ValidUtf8(s + t)
  }

  /** A proper prefix of the encoding of a character (possibly empty). */
  ghost predicate Partial(s: seq<Byte>) {
    exists c :: IsChar(c) && s < c
  }

  // The library tests. `SizeOf` is the size that the library's table assigns to a lead byte.

  function SizeOf(lead: Byte): nat {
    if lead < 0x80 then 1
    else if 0xC2 <= lead <= 0xDF then 2
    else if 0xE0 <= lead <= 0xEF then 3
    else if 0xF0 <= lead <= 0xF4 then 4
    else 0
  }

  predicate AcceptSecond(lead: Byte, second: Byte) {
    if lead == 0xE0 then 0xA0 <= second <= 0xBF
    else if lead == 0xED then 0x80 <= second <= 0x9F
    else if lead == 0xF0 then 0x90 <= second <= 0xBF
    else if lead == 0xF4 then 0x80 <= second <= 0x8F
    else Tail(second)
  }

  /** `utf8.Valid`. */
  predicate LibValid(p: seq<Byte>) {
    if p == [] then true
    else if p[0] < 0x80 then LibValid(p[1..])
    else
      var size := SizeOf(p[0]);
      if size == 0 || |p| < size then false
      else if !AcceptSecond(p[0], p[1]) then false
      else if size >= 3 && !Tail(p[2]) then false
      else if size >= 4 && !Tail(p[3]) then false
      else LibValid(p[size..])
  }

  /** `utf8.FullRune`: the bytes begin with a complete or an invalid encoding. */
  predicate LibFullRune(p: seq<Byte>) {
    if p == [] then false
    else if SizeOf(p[0]) <= |p| then true
    else if |p| > 1 && !AcceptSecond(p[0], p[1]) then true
    else if |p| > 2 && !Tail(p[2]) then true
    else false
  }

  // Characters

  /** The encoding of a character, by the table of section 3 of RFC 3629. */
  function Encode(c: char): (s: seq<Byte>)
    ensures |s| == CharBytes(c)
  {
    var n := c as int;
    if n < 0x80 then [n as Byte]
    else if n < 0x800 then [(0xC0 + n / 0x40) as Byte, Continuation(n)]
    else if n < 0x10000 then [(0xE0 + n / 0x1000) as Byte, Continuation(n / 0x40), Continuation(n)]
    else [(0xF0 + n / 0x40000) as Byte, Continuation(n / 0x1000), Continuation(n / 0x40), Continuation(n)]
  }

  function Continuation(n: int): Byte
    requires n >= 0
  {
    (0x80 + n % 0x40) as Byte
  }

  /** The number that a lead byte and continuation bytes carry. */
  function Scalar(s: seq<Byte>): int {
    if |s| == 1 then s[0] as int
    else if |s| == 2 then (s[0] as int - 0xC0) * 0x40 + Low(s[1])
    else if |s| == 3 then (s[0] as int - 0xE0) * 0x1000 + Low(s[1]) * 0x40 + Low(s[2])
    else if |s| == 4 then (s[0] as int - 0xF0) * 0x40000 + Low(s[1]) * 0x1000 + Low(s[2]) * 0x40 + Low(s[3])
    else 0
  }

  function Low(b: Byte): int {
    b as int - 0x80
  }

  /** The grammar of section 4 derives exactly the encodings of characters. */
  lemma CharsAreEncodings(s: seq<Byte>)
    ensures IsChar(s) <==> exists c: char :: Encode(c) == s
  {
    if IsChar(s) {
      ScalarIsChar(s);
      EncodeScalar(s);
      assert Encode(Scalar(s) as char) == s;
    }
    if c: char :| Encode(c) == s {
      EncodesChar(c);
    }
  }

  function EncodeAll(s: string): seq<Byte> {
    if s == [] then [] else Encode(s[0]) + EncodeAll(s[1..])
  }

  /** The length that limits are checked against is that of the encoding, which is valid. */
  lemma {:induction false} ByteLenIsUtf8(s: string)
    ensures ByteLen(s) == |EncodeAll(s)| && ValidUtf8(EncodeAll(s))
  {
    if s != [] {
      ByteLenIsUtf8(s[1..]);
      EncodesChar(s[0]);
      ConsChar(Encode(s[0]), EncodeAll(s[1..]));
    }
  }

  lemma ScalarIsChar(s: seq<Byte>)
    requires IsChar(s)
    ensures 0 <= Scalar(s) < 0xD800 || 0xE000 <= Scalar(s) < 0x110000
    ensures CharBytes(Scalar(s) as char) == |s|
  {
  }

  lemma EncodeScalar(s: seq<Byte>)
    requires IsChar(s) && (0 <= Scalar(s) < 0xD800 || 0xE000 <= Scalar(s) < 0x110000)
    requires CharBytes(Scalar(s) as char) == |s|
    ensures Encode(Scalar(s) as char) == s
  {
    if |s| == 2 {
      Sextet(s[0] as int - 0xC0, Low(s[1]));
    } else if |s| == 3 {
      TwoSextets(s[0] as int - 0xE0, Low(s[1]), Low(s[2]));
    } else if |s| == 4 {
      ThreeSextets(s[0] as int - 0xF0, Low(s[1]), Low(s[2]), Low(s[3]));
    }
  }

  lemma Sextet(a: int, b: int)
    requires 0 <= a && 0 <= b < 0x40
    ensures (a * 0x40 + b) / 0x40 == a && (a * 0x40 + b) % 0x40 == b
  {
  }

  lemma TwoSextets(a: int, b: int, c: int)
    requires 0 <= a && 0 <= b < 0x40 && 0 <= c < 0x40
    ensures var n := a * 0x1000 + b * 0x40 + c;
      n / 0x1000 == a && n / 0x40 == a * 0x40 + b && n / 0x40 % 0x40 == b && n % 0x40 == c
  {
    Sextet(a * 0x40 + b, c);
    Sextet(a, b);
  }

  lemma ThreeSextets(a: int, b: int, c: int, d: int)
    requires 0 <= a && 0 <= b < 0x40 && 0 <= c < 0x40 && 0 <= d < 0x40
    ensures var n := a * 0x40000 + b * 0x1000 + c * 0x40 + d;
      n / 0x40000 == a && n / 0x1000 % 0x40 == b && n / 0x40 % 0x40 == c && n % 0x40 == d
  {
    TwoSextets(a * 0x40 + b, c, d);
    Sextet(a, b);
  }

  lemma EncodesChar(c: char)
    ensures IsChar(Encode(c))
  {
  }

  lemma CharShape(c: seq<Byte>)
    ensures IsChar(c) <==>
      && c != [] && SizeOf(c[0]) == |c|
      && (|c| > 1 ==> AcceptSecond(c[0], c[1])) && (|c| > 2 ==> Tail(c[2])) && (|c| > 3 ==> Tail(c[3]))
  {
  }

  /** No encoding is a proper prefix of another. */
  lemma CharsPrefixFree(c: seq<Byte>, d: seq<Byte>)
    requires IsChar(c) && IsChar(d) && c <= d
    ensures c == d
  {
  }

  /** Shape of a proper prefix of an encoding. */
  predicate PrefixShape(s: seq<Byte>) {
    s == [] || (|s| < SizeOf(s[0]) && (|s| > 1 ==> AcceptSecond(s[0], s[1])) && (|s| > 2 ==> Tail(s[2])))
  }

  /** A way to complete a sequence of that shape. */
  function Completion(s: seq<Byte>): (c: seq<Byte>)
    requires PrefixShape(s)
    ensures IsChar(c) && s < c
  {
    if s == [] then [0x41]
    else
      var second: Byte := if |s| > 1 then s[1] else if s[0] == 0xE0 then 0xA0 else if s[0] == 0xF0 then 0x90 else 0x80;
      var third: Byte := if |s| > 2 then s[2] else 0x80;
      if SizeOf(s[0]) == 2 then [s[0], second]
      else if SizeOf(s[0]) == 3 then [s[0], second, third]
      else [s[0], second, third, 0x80]
  }

  lemma PartialShape(s: seq<Byte>)
    ensures Partial(s) <==> PrefixShape(s)
  {
    if PrefixShape(s) {
      assert s < Completion(s);
    }
  }

  // Valid sequences

  lemma ConsChar(c: seq<Byte>, s: seq<Byte>)
    requires IsChar(c)
    ensures ValidUtf8(c + s) <==> ValidUtf8(s)
  {
    var n := |c|;
    CharShape(c);
    assert (c + s)[..n] == c && (c + s)[n..] == s;
    assert StartsWithChar(c + s, n);
    if ValidUtf8(c + s) {
      var m :| 1 <= m <= |c + s| && StartsWithChar(c + s, m) && ValidUtf8((c + s)[m..]);
      var d := (c + s)[..m];
      CharShape(d);
      assert d[0] == c[0];
      assert m == n;
    }
  }

  lemma {:induction false} ValidConcat(w: seq<Byte>, s: seq<Byte>)
    requires ValidUtf8(w)
    ensures ValidUtf8(w + s) <==> ValidUtf8(s)
    decreases |w|
  {
    if w == [] {
      assert w + s == s;
    } else {
      var n :| 1 <= n <= |w| && StartsWithChar(w, n) && ValidUtf8(w[n..]);
      ValidConcat(w[n..], s);
      ConsChar(w[..n], w[n..] + s);
      assert w + s == w[..n] + (w[n..] + s);
    }
  }

  lemma CharValid(c: seq<Byte>)
    requires IsChar(c)
    ensures ValidUtf8(c)
  {
    ConsChar(c, []);
    assert c + [] == c;
  }

  /** Valid bytes in front do not matter for extendability. */
  lemma ExtendableTail(w: seq<Byte>, q: seq<Byte>)
    requires ValidUtf8(w)
    ensures Extendable(w + q) <==> Extendable(q)
  {
    forall t ensures ValidUtf8(w + q + t) <==> ValidUtf8(q + t) {
      ValidConcat(w, q + t);
      assert w + q + t == w + (q + t);
    }
  }

  lemma PartialExtendable(q: seq<Byte>)
    requires Partial(q)
    ensures Extendable(q)
  {
    var c :| IsChar(c) && q < c;
    CharValid(c);
    assert q + c[|q|..] == c;
  }

  /**
   The trichotomy behind incremental validation. One more byte after a proper prefix of
   an encoding either completes the encoding, or extends the prefix, or makes the bytes
   unextendable; the library tests tell the three apart.
   */
  lemma NextByte(q: seq<Byte>, b: Byte)
    requires Partial(q)
    ensures LibValid(q + [b]) <==> IsChar(q + [b])
    ensures !LibFullRune(q + [b]) <==> Partial(q + [b])
    ensures Extendable(q + [b]) <==> IsChar(q + [b]) || Partial(q + [b])
    ensures !(IsChar(q + [b]) && Partial(q + [b]))
  {
    var p := q + [b];
    PartialShape(q);
    PartialShape(p);
    CharShape(p);
    assert q != [] ==> p[0] == q[0];
    if IsChar(p) { CharValid(p); assert p + [] == p; }
    if Partial(p) { PartialExtendable(p); }
    if t :| ValidUtf8(p + t) {
      var n :| 1 <= n <= |p + t| && StartsWithChar(p + t, n) && ValidUtf8((p + t)[n..]);
      var c := (p + t)[..n];
      CharShape(c);
      if n > |p| {
        assert p < c;
      } else {
        assert c == p[..n];
      }
    }
    LibValidSingle(p);
  }

  lemma LibValidSingle(p: seq<Byte>)
    requires p != [] && (|p| <= SizeOf(p[0]) || |p| == 1)
    ensures LibValid(p) <==> IsChar(p)
  {
  }

  // The pending bytes are determined by the stream.

  lemma NoCharWithin(p: seq<Byte>, c: seq<Byte>)
    requires Partial(p) && IsChar(c)
    ensures !(c <= p)
  {
    var d :| IsChar(d) && p < d;
    if c <= p { CharsPrefixFree(c, d); }
  }

  /** The first encoding of a valid sequence, and what follows it. */
  lemma FirstChar(w: seq<Byte>) returns (c: seq<Byte>, rest: seq<Byte>)
    requires ValidUtf8(w) && w != []
    ensures IsChar(c) && ValidUtf8(rest) && w == c + rest && |rest| < |w|
  {
    var n :| 1 <= n <= |w| && StartsWithChar(w, n) && ValidUtf8(w[n..]);
    c, rest := w[..n], w[n..];
  }

  lemma NothingBefore(p: seq<Byte>, v: seq<Byte>, q: seq<Byte>)
    requires Partial(p) && ValidUtf8(v) && p == v + q
    ensures v == [] && p == q
  {
    hide IsChar, ValidUtf8, Partial;
    if v == [] {
      assert v + q == q;
    } else {
      var c, rest := FirstChar(v);
      assert c <= v + q;
      NoCharWithin(p, c);
    }
  }

  /** A stream splits in at most one way into valid bytes and a proper prefix of an encoding. */
  lemma {:induction false} SplitUnique(w: seq<Byte>, p: seq<Byte>, v: seq<Byte>, q: seq<Byte>)
    requires ValidUtf8(w) && Partial(p) && ValidUtf8(v) && Partial(q) && w + p == v + q
    ensures w == v && p == q
    decreases |w|
  {
    hide IsChar, ValidUtf8, Partial;
    if w == [] {
      assert w + p == p;
      NothingBefore(p, v, q);
    } else if v == [] {
      assert v + q == q;
      NothingBefore(q, w, p);
    } else {
      var c, rest := FirstChar(w);
      var d, more := FirstChar(v);
      assert c + (rest + p) == w + p && d + (more + q) == v + q;
      SameChar(c, rest + p, d, more + q);
      SplitUnique(rest, p, more, q);
    }
  }

  /** A sequence starts with at most one encoding. */
  lemma SameChar(c: seq<Byte>, x: seq<Byte>, d: seq<Byte>, y: seq<Byte>)
    requires IsChar(c) && IsChar(d) && c + x == d + y
    ensures c == d && x == y
  {
    hide IsChar;
    assert c <= c + x && d <= d + y;
    if |c| <= |d| { CharsPrefixFree(c, d); } else { CharsPrefixFree(d, c); }
    assert (c + x)[|c|..] == x && (d + y)[|d|..] == y;
  }
}
