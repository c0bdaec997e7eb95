// Base64 with the standard alphabet and strict padding: section 4 of RFC 4648.
// The decoder refuses missing padding and non-zero left-over bits.
module Base64 {
  import opened Base

  type sextet = n: int | 0 <= n < 64

  function Digit(n: sextet): char {
    if n < 26 then ('A' as int + n) as char
    else if n < 52 then ('a' as int + (n - 26)) as char
    else if n < 62 then ('0' as int + (n - 52)) as char
    else if n == 62 then '+'
    else '/'
  }

  function Undigit(c: char): Option<sextet> {
    if 'A' <= c <= 'Z' then Some(c as int - 'A' as int)
    else if 'a' <= c <= 'z' then Some(c as int - 'a' as int + 26)
    else if '0' <= c <= '9' then Some(c as int - '0' as int + 52)
    else if c == '+' then Some(62)
    else if c == '/' then Some(63)
    else None
  }

  lemma DigitInverse(n: sextet, c: char)
    ensures Undigit(Digit(n)) == Some(n) && Digit(n) != '='
    ensures Undigit(c).Some? ==> Digit(Undigit(c).value) == c
  {
  }

  // ---- three bytes as four sextets ----------------------------------------

  function Hi(a: byte): sextet { a / 4 }
  function MidHi(a: byte, b: byte): sextet { a % 4 * 16 + b / 16 }
  function MidLo(b: byte, c: byte): sextet { b % 16 * 4 + c / 64 }
  function Lo(c: byte): sextet { c % 64 }

  function First(p: sextet, q: sextet): byte { p * 4 + q / 16 }
  function Second(q: sextet, r: sextet): byte { q % 16 * 16 + r / 4 }
  function Third(r: sextet, s: sextet): byte { r % 4 * 64 + s }

  lemma SextetsOfBytes(a: byte, b: byte, c: byte)
    ensures First(Hi(a), MidHi(a, b)) == a
    ensures Second(MidHi(a, b), MidLo(b, c)) == b
    ensures Third(MidLo(b, c), Lo(c)) == c
  {
  }

  lemma BytesOfSextets(p: sextet, q: sextet, r: sextet, s: sextet)
    ensures Hi(First(p, q)) == p && MidHi(First(p, q), Second(q, r)) == q
    ensures MidLo(Second(q, r), Third(r, s)) == r && Lo(Third(r, s)) == s
  {
  }

  /** Padding leaves no bits over. */
  lemma OnePadded(a: byte, q: sextet)
    requires q == MidHi(a, 0)
    ensures q % 16 == 0 && First(Hi(a), q) == a
  {
  }

  lemma TwoPadded(a: byte, b: byte, q: sextet, r: sextet)
    requires q == MidHi(a, b) && r == MidLo(b, 0)
    ensures r % 4 == 0 && First(Hi(a), q) == a && Second(q, r) == b
  {
  }

  /** And no bits over means padding. */
  lemma PaddedOne(p: sextet, q: sextet, a: byte)
    requires q % 16 == 0 && a == First(p, q)
    ensures Hi(a) == p && MidHi(a, 0) == q
  {
  }

  lemma PaddedTwo(p: sextet, q: sextet, r: sextet, a: byte, b: byte)
    requires r % 4 == 0 && a == First(p, q) && b == Second(q, r)
    ensures Hi(a) == p && MidHi(a, b) == q && MidLo(b, 0) == r
  {
  }

  // ---- whole texts --------------------------------------------------------

  function Encode(bs: bytes): string {
    if bs == [] then ""
    else if |bs| == 1 then [Digit(Hi(bs[0])), Digit(MidHi(bs[0], 0)), '=', '=']
    else if |bs| == 2 then [Digit(Hi(bs[0])), Digit(MidHi(bs[0], bs[1])), Digit(MidLo(bs[1], 0)), '=']
    else
      [Digit(Hi(bs[0])), Digit(MidHi(bs[0], bs[1])), Digit(MidLo(bs[1], bs[2])), Digit(Lo(bs[2]))]
      + Encode(bs[3..])
  }

  /** One quartet; `last` says whether padding may appear in it. */
  function Quartet(s: string, last: bool): Option<bytes>
    requires |s| == 4
  {
    var p, q, r, t := Undigit(s[0]), Undigit(s[1]), Undigit(s[2]), Undigit(s[3]);
    if p.None? || q.None? then None
    else if last && s[2] == '=' && s[3] == '=' then
      if q.value % 16 == 0 then Some([First(p.value, q.value)]) else None
    else if r.None? then None
    else if last && s[3] == '=' then
      if r.value % 4 == 0 then Some([First(p.value, q.value), Second(q.value, r.value)]) else None
    else if t.None? then None
    else Some([First(p.value, q.value), Second(q.value, r.value), Third(r.value, t.value)])
  }

  function Decode(s: string): Option<bytes> {
    if s == "" then Some([])
    else if |s| < 4 then None
    else if |s| == 4 then Quartet(s, true)
    else
      match Quartet(s[..4], false)
      case None => None
      case Some(head) =>
        match Decode(s[4..])
        case None => None
        case Some(tail) => Some(head + tail)
  }

  lemma QuartetOfOne(p: sextet, q: sextet, a: byte)
    requires q % 16 == 0 && a == First(p, q)
    ensures Quartet([Digit(p), Digit(q), '=', '='], true) == Some([a])
  {
    DigitInverse(p, '=');
    DigitInverse(q, '=');
  }

  lemma DecodeOne(a: byte)
    ensures Decode(Encode([a])) == Some([a])
  {
    var p, q := Hi(a), MidHi(a, 0);
    assert Encode([a]) == [Digit(p), Digit(q), '=', '='];
    OnePadded(a, q);
    QuartetOfOne(p, q, a);
  }

  lemma QuartetOfTwo(p: sextet, q: sextet, r: sextet, a: byte, b: byte)
    requires r % 4 == 0 && a == First(p, q) && b == Second(q, r)
    ensures Quartet([Digit(p), Digit(q), Digit(r), '='], true) == Some([a, b])
  {
    DigitInverse(p, '=');
    DigitInverse(q, '=');
    DigitInverse(r, '=');
  }

  lemma DecodeTwo(a: byte, b: byte)
    ensures Decode(Encode([a, b])) == Some([a, b])
  {
    var p, q, r := Hi(a), MidHi(a, b), MidLo(b, 0);
    assert Encode([a, b]) == [Digit(p), Digit(q), Digit(r), '='];
    TwoPadded(a, b, q, r);
    QuartetOfTwo(p, q, r, a, b);
  }

  lemma QuartetOfThree(p: sextet, q: sextet, r: sextet, t: sextet, last: bool)
    ensures Quartet([Digit(p), Digit(q), Digit(r), Digit(t)], last)
            == Some([First(p, q), Second(q, r), Third(r, t)])
  {
    DigitInverse(p, '=');
    DigitInverse(q, '=');
    DigitInverse(r, '=');
    DigitInverse(t, '=');
  }

  /** The text of the first three bytes. */
  function Head(bs: bytes): (s: string)
    requires |bs| >= 3
    ensures |s| == 4 && Encode(bs) == s + Encode(bs[3..])
  {
    [Digit(Hi(bs[0])), Digit(MidHi(bs[0], bs[1])), Digit(MidLo(bs[1], bs[2])), Digit(Lo(bs[2]))]
  }

  lemma DecodeHead(bs: bytes, last: bool)
    requires |bs| >= 3
    ensures Quartet(Head(bs), last) == Some(bs[..3])
  {
    var p, q, r, t := Hi(bs[0]), MidHi(bs[0], bs[1]), MidLo(bs[1], bs[2]), Lo(bs[2]);
    SextetsOfBytes(bs[0], bs[1], bs[2]);
    assert bs[..3] == [First(p, q), Second(q, r), Third(r, t)];
    QuartetOfThree(p, q, r, t, last);
  }

  lemma DecodeAppend(head: string, tail: string, front: bytes, back: bytes)
    requires |head| == 4 && (forall last :: Quartet(head, last) == Some(front)) && Decode(tail) == Some(back)
    ensures Decode(head + tail) == Some(front + back)
  {
    if tail == "" {
      assert head + tail == head && front + back == front;
    } else {
      assert (head + tail)[..4] == head && (head + tail)[4..] == tail;
    }
  }

  lemma {:induction false} DecodeEncoded(bs: bytes)
    ensures Decode(Encode(bs)) == Some(bs)
  {
    if |bs| == 1 {
      DecodeOne(bs[0]);
      assert bs == [bs[0]];
    } else if |bs| == 2 {
      DecodeTwo(bs[0], bs[1]);
      assert bs == [bs[0], bs[1]];
    } else if |bs| >= 3 {
      DecodeHead(bs, true);
      DecodeHead(bs, false);
      DecodeEncoded(bs[3..]);
      DecodeAppend(Head(bs), Encode(bs[3..]), bs[..3], bs[3..]);
      assert bs == bs[..3] + bs[3..];
    }
  }

  lemma Undigited(c: char, n: sextet)
    requires Undigit(c) == Some(n)
    ensures Digit(n) == c && c != '='
  {
  }

  lemma CanonicalThree(s: string, p: sextet, q: sextet, r: sextet, t: sextet)
    requires s == [Digit(p), Digit(q), Digit(r), Digit(t)]
    ensures Encode([First(p, q), Second(q, r), Third(r, t)]) == s
  {
    BytesOfSextets(p, q, r, t);
    var bs: bytes := [First(p, q), Second(q, r), Third(r, t)];
    assert bs[3..] == [] && Encode(bs[3..]) == "";
    assert Encode(bs) == Head(bs) + Encode(bs[3..]);
  }

  lemma CanonicalOne(s: string, p: sextet, q: sextet, a: byte)
    requires s == [Digit(p), Digit(q), '=', '='] && q % 16 == 0 && a == First(p, q)
    ensures Encode([a]) == s
  {
    PaddedOne(p, q, a);
  }

  lemma CanonicalTwo(s: string, p: sextet, q: sextet, r: sextet, a: byte, b: byte)
    requires s == [Digit(p), Digit(q), Digit(r), '='] && r % 4 == 0 && a == First(p, q) && b == Second(q, r)
    ensures Encode([a, b]) == s
  {
    PaddedTwo(p, q, r, a, b);
  }

  lemma Undigits(s: string, k: nat)
    requires k <= |s| && forall i :: 0 <= i < k ==> Undigit(s[i]).Some?
    ensures forall i :: 0 <= i < k ==> Digit(Undigit(s[i]).value) == s[i] && s[i] != '='
  {
    forall i | 0 <= i < k ensures Digit(Undigit(s[i]).value) == s[i] && s[i] != '=' {
      Undigited(s[i], Undigit(s[i]).value);
    }
  }

  lemma QuartetCanonical(s: string, last: bool)
    requires |s| == 4 && Quartet(s, last).Some?
    ensures Encode(Quartet(s, last).value) == s
    ensures !last ==> |Quartet(s, last).value| == 3
  {
    var bs := Quartet(s, last).value;
    var p, q := Undigit(s[0]).value, Undigit(s[1]).value;
    if last && s[2] == '=' && s[3] == '=' {
      Undigits(s, 2);
      CanonicalOne(s, p, q, bs[0]);
    } else if last && s[3] == '=' {
      Undigits(s, 3);
      CanonicalTwo(s, p, q, Undigit(s[2]).value, bs[0], bs[1]);
    } else {
      Undigits(s, 4);
      CanonicalThree(s, p, q, Undigit(s[2]).value, Undigit(s[3]).value);
    }
  }

  lemma EncodeThree(head: bytes, tail: bytes)
    requires |head| == 3
    ensures Encode(head + tail) == Encode(head) + Encode(tail)
  {
    assert (head + tail)[3..] == tail && head[3..] == [];
    assert Encode(head + tail) == Head(head + tail) + Encode(tail);
    assert Encode(head) == Head(head) + Encode([]);
  }

  lemma {:induction false} DecodeCanonical(s: string)
    requires Decode(s).Some?
    ensures Encode(Decode(s).value) == s
  {
    if s != "" {
      if |s| == 4 {
        QuartetCanonical(s, true);
      } else {
        QuartetCanonical(s[..4], false);
        DecodeCanonical(s[4..]);
        EncodeThree(Quartet(s[..4], false).value, Decode(s[4..]).value);
        assert s == s[..4] + s[4..];
      }
    }
  }

  /** The decoder inverts the encoder and accepts nothing else. */
  lemma DecodeExactly(s: string, bs: bytes)
    ensures Decode(s) == Some(bs) <==> s == Encode(bs)
  {
    DecodeEncoded(bs);
    if Decode(s).Some? {
      DecodeCanonical(s);
    }
  }
}
