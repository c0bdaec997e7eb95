// The Postcard wire format of a channel frame body: variable-length integers,
// zigzag for signed ones, length-prefixed bytes, and an enum tag in front.
module Postcard {
  import opened Base

  type u16 = x: int | 0 <= x < 0x1_0000
  type i32 = x: int | -0x8000_0000 <= x < 0x8000_0000

  datatype Sig = Int | Quit | Term

  datatype ChannelMessage =
    | Data(data: bytes)
    | DataErr(data: bytes)
    | Resize(cols: u16, rows: u16)
    | ExitStatus(code: i32)
    | Signal(sig: Sig)

  // ---- varints ------------------------------------------------------------

  function EncVar(n: nat): (b: bytes)
    ensures |b| >= 1
  {
    if n < 128 then [n] else [n % 128 + 128] + EncVar(n / 128)
  }

  /** A varint of at most `k` bytes, the `k`-th of them at most `last`; the value and
      the bytes after it. */
  function DecVar(b: bytes, k: nat, last: nat): Option<(nat, bytes)>
    decreases k
  {
    if k == 0 || b == [] then None
    else if b[0] < 128 then (if k == 1 && b[0] > last then None else Some((b[0], b[1..])))
    else match DecVar(b[1..], k - 1, last)
      case None => None
      case Some((hi, rest)) => Some((b[0] - 128 + 128 * hi, rest))
  }

  /** How many values fit `k` bytes with that limit on the last. */
  function Capacity(k: nat, last: nat): nat
    requires k >= 1
  {
    if k == 1 then last + 1 else 128 * Capacity(k - 1, last)
  }

  lemma {:induction false} VarRoundTrip(n: nat, k: nat, last: nat, rest: bytes)
    requires k >= 1 && last < 128 && n < Capacity(k, last)
    ensures DecVar(EncVar(n) + rest, k, last) == Some((n, rest))
    decreases k
  {
    var b := EncVar(n) + rest;
    if n < 128 {
      assert b[1..] == rest;
    } else {
      VarRoundTrip(n / 128, k - 1, last, rest);
      assert b[1..] == EncVar(n / 128) + rest;
    }
  }

  function DecU16(b: bytes): Option<(nat, bytes)> { DecVar(b, 3, 3) }
  function DecU32(b: bytes): Option<(nat, bytes)> { DecVar(b, 5, 15) }
  function DecU64(b: bytes): Option<(nat, bytes)> { DecVar(b, 10, 1) }

  lemma Capacities()
    ensures Capacity(3, 3) == 0x1_0000
    ensures Capacity(5, 15) == 0x1_0000_0000
    ensures Capacity(10, 1) == 0x1_0000_0000_0000_0000
  {
    assert Capacity(3, 3) == 128 * Capacity(2, 3);
    assert Capacity(4, 15) == 128 * Capacity(3, 15) && Capacity(3, 15) == 128 * Capacity(2, 15);
    assert Capacity(2, 1) == 256;
    assert Capacity(3, 1) == 128 * Capacity(2, 1) && Capacity(4, 1) == 128 * Capacity(3, 1);
    assert Capacity(5, 1) == 128 * Capacity(4, 1) && Capacity(6, 1) == 128 * Capacity(5, 1);
    assert Capacity(7, 1) == 128 * Capacity(6, 1) && Capacity(8, 1) == 128 * Capacity(7, 1);
    assert Capacity(9, 1) == 128 * Capacity(8, 1) && Capacity(10, 1) == 128 * Capacity(9, 1);
  }

  lemma {:induction false} VarLength(n: nat)
    ensures |EncVar(n)| == 1 <==> n < 128
    ensures 128 <= n < 16384 ==> |EncVar(n)| == 2
    ensures 16384 <= n < 2097152 ==> |EncVar(n)| == 3
    ensures n >= 2097152 ==> |EncVar(n)| >= 4
  {
    if n >= 128 {
      assert EncVar(n) == [n % 128 + 128] + EncVar(n / 128);
      if n >= 16384 {
        assert EncVar(n / 128) == [n / 128 % 128 + 128] + EncVar(n / 128 / 128);
        if n >= 2097152 {
          assert EncVar(n / 128 / 128) == [n / 128 / 128 % 128 + 128] + EncVar(n / 128 / 128 / 128);
        }
      }
    }
  }

  function ZigZag(n: int): nat { if n >= 0 then 2 * n else -2 * n - 1 }

  function UnZigZag(z: nat): int { if z % 2 == 0 then z / 2 else -(z / 2) - 1 }

  // ---- messages -----------------------------------------------------------

  function EncBytes(d: bytes): bytes { EncVar(|d|) + d }

  function DecBytes(b: bytes): Option<bytes> {
    match DecU64(b)
    case None => None
    case Some((n, rest)) => if n <= |rest| then Some(rest[..n]) else None
  }

  function SigTag(s: Sig): nat { match s case Int => 0 case Quit => 1 case Term => 2 }

  function Tag(m: ChannelMessage): (t: nat)
    ensures t <= 4
  {
    match m case Data(_) => 0 case DataErr(_) => 1 case Resize(_, _) => 2 case ExitStatus(_) => 3 case Signal(_) => 4
  }

  function EncodeFields(m: ChannelMessage): bytes {
    match m
    case Data(d) => EncBytes(d)
    case DataErr(d) => EncBytes(d)
    case Resize(c, r) => EncVar(c) + EncVar(r)
    case ExitStatus(code) => EncVar(ZigZag(code))
    case Signal(s) => EncVar(SigTag(s))
  }

  function Encode(m: ChannelMessage): bytes { EncVar(Tag(m)) + EncodeFields(m) }

  function DecodeResize(b: bytes): Option<ChannelMessage> {
    match DecU16(b)
    case None => None
    case Some((c, rest)) =>
      match DecU16(rest)
      case None => None
      case Some((r, _)) => if c < 0x1_0000 && r < 0x1_0000 then Some(Resize(c, r)) else None
  }

  function DecodeExit(b: bytes): Option<ChannelMessage> {
    match DecU32(b)
    case None => None
    case Some((z, _)) => if z < 0x1_0000_0000 then Some(ExitStatus(UnZigZag(z))) else None
  }

  function DecodeSignal(b: bytes): Option<ChannelMessage> {
    match DecU32(b)
    case Some((0, _)) => Some(Signal(Int))
    case Some((1, _)) => Some(Signal(Quit))
    case Some((2, _)) => Some(Signal(Term))
    case _ => None
  }

  function DecodeFields(tag: nat, b: bytes): Option<ChannelMessage> {
    if tag == 0 then (match DecBytes(b) case Some(d) => Some(Data(d)) case None => None)
    else if tag == 1 then (match DecBytes(b) case Some(d) => Some(DataErr(d)) case None => None)
    else if tag == 2 then DecodeResize(b)
    else if tag == 3 then DecodeExit(b)
    else if tag == 4 then DecodeSignal(b)
    else None
  }

  /** Total on every byte string; bytes after the message are ignored. */
  function Decode(body: bytes): Option<ChannelMessage> {
    match DecU32(body)
    case None => None
    case Some((tag, rest)) => DecodeFields(tag, rest)
  }

  lemma TagRoundTrip(tag: nat, rest: bytes)
    requires tag <= 4
    ensures DecU32(EncVar(tag) + rest) == Some((tag, rest))
  {
    Capacities();
    VarRoundTrip(tag, 5, 15, rest);
  }

  lemma BytesRoundTrip(d: bytes)
    requires |d| < 0x1_0000_0000_0000_0000
    ensures DecBytes(EncBytes(d)) == Some(d)
  {
    Capacities();
    VarRoundTrip(|d|, 10, 1, d);
    assert d[..|d|] == d;
  }

  lemma ResizeRoundTrip(c: u16, r: u16)
    ensures DecodeResize(EncVar(c) + EncVar(r)) == Some(Resize(c, r))
  {
    Capacities();
    VarRoundTrip(c, 3, 3, EncVar(r));
    VarRoundTrip(r, 3, 3, []);
    assert EncVar(r) + [] == EncVar(r);
  }

  lemma NumberRoundTrip(n: nat)
    requires n < 0x1_0000_0000
    ensures DecU32(EncVar(n)) == Some((n, []))
  {
    Capacities();
    VarRoundTrip(n, 5, 15, []);
    assert EncVar(n) + [] == EncVar(n);
  }

  ghost predicate LengthFits(m: ChannelMessage) {
    m.Data? || m.DataErr? ==> |m.data| < 0x1_0000_0000_0000_0000
  }

  lemma FieldsRoundTrip(m: ChannelMessage)
    requires LengthFits(m)
    ensures DecodeFields(Tag(m), EncodeFields(m)) == Some(m)
  {
    match m
    case Data(d) => BytesRoundTrip(d);
    case DataErr(d) => BytesRoundTrip(d);
    case Resize(c, r) => ResizeRoundTrip(c, r);
    case ExitStatus(code) => NumberRoundTrip(ZigZag(code));
    case Signal(s) => NumberRoundTrip(SigTag(s));
  }

  /** Decoding undoes encoding for every message whose payload length fits the
      64-bit length field. */
  lemma MessageRoundTrip(m: ChannelMessage)
    requires LengthFits(m)
    ensures Decode(Encode(m)) == Some(m)
  {
    TagRoundTrip(Tag(m), EncodeFields(m));
    FieldsRoundTrip(m);
  }

  // ---- what does not decode -----------------------------------------------

  /** A decoded number is always in the range of its type: longer or larger encodings
      are refused. */
  lemma {:induction false} VarInRange(b: bytes, k: nat, last: nat)
    requires k >= 1 && last < 128 && DecVar(b, k, last).Some?
    ensures DecVar(b, k, last).value.0 < Capacity(k, last)
    decreases k
  {
    if k > 1 {
      if b[0] < 128 {
        CapacityAtLeast(k, last);
      } else {
        VarInRange(b[1..], k - 1, last);
      }
    }
  }

  lemma {:induction false} CapacityAtLeast(k: nat, last: nat)
    requires k >= 2
    ensures Capacity(k, last) >= 128
    decreases k
  {
    if k > 2 {
      CapacityAtLeast(k - 1, last);
    }
  }

  /** Messages of an unknown kind, signals of an unknown number, and data that is shorter
      than its length says are refused. */
  lemma MalformedIsRefused(tag: nat, sig: nat, n: nat, d: bytes)
    requires 4 < tag < 0x1_0000_0000 && 2 < sig < 0x1_0000_0000 && |d| < n < 0x1_0000_0000_0000_0000
    ensures Decode(EncVar(tag) + d) == None
    ensures Decode(EncVar(4) + EncVar(sig)) == None
    ensures Decode(EncVar(0) + (EncVar(n) + d)) == None && Decode(EncVar(1) + (EncVar(n) + d)) == None
  {
    Capacities();
    VarRoundTrip(tag, 5, 15, d);
    TagRoundTrip(4, EncVar(sig));
    NumberRoundTrip(sig);
    TagRoundTrip(0, EncVar(n) + d);
    TagRoundTrip(1, EncVar(n) + d);
    VarRoundTrip(n, 10, 1, d);
  }
}
