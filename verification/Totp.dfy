// Time-based one-time codes (sections 5.3 of RFC 4226 and 4.2 of RFC 6238).
// HMAC-SHA1 is a parameter: any function to 20-byte digests.
module Totp {
  import opened Base

  const STEP_SECS: nat := 30
  const SKEW_STEPS: nat := 1
  const CODE_MODULUS: nat := 1_000_000

  type Digest = d: bytes | |d| == 20 witness seq(20, _ => 0)

  type Hmac = (bytes, nat) -> Digest

  /** The 31-bit number that dynamic truncation picks out of a digest. */
  function Truncate(hs: Digest): (v: nat)
    ensures v < 0x8000_0000
  {
    var offset := hs[|hs| - 1] % 16;
    var b0: int, b1: int, b2: int, b3: int := hs[offset], hs[offset + 1], hs[offset + 2], hs[offset + 3];
    (b0 % 128) * 0x100_0000 + b1 * 0x1_0000 + b2 * 0x100 + b3
  }

  /** The number a big-endian run of bytes denotes. */
  function BigEndian(s: bytes): nat {
    if s == [] then 0 else BigEndian(s[..|s| - 1]) * 256 + s[|s| - 1]
  }

  lemma BigEndianSnoc(s: bytes, b: byte)
    ensures BigEndian(s + [b]) == BigEndian(s) * 256 + b
  {
    assert (s + [b])[..|s|] == s;
  }

  lemma BigEndianFour(a: byte, b: byte, c: byte, d: byte)
    ensures BigEndian([a, b, c, d]) == ((a * 256 + b) * 256 + c) * 256 + d
  {
    BigEndianSnoc([], a);
    BigEndianSnoc([a], b);
    BigEndianSnoc([a, b], c);
    BigEndianSnoc([a, b, c], d);
    assert [] + [a] == [a] && [a] + [b] == [a, b] && [a, b] + [c] == [a, b, c];
    assert [a, b, c] + [d] == [a, b, c, d];
  }

  /** Dynamic truncation reads the 32-bit word at the offset that the low nibble of
      the last byte names, and drops its top bit. */
  lemma TruncateIsWord(hs: Digest)
    ensures var offset := hs[19] % 16;
            Truncate(hs) == BigEndian(hs[offset..offset + 4]) % 0x8000_0000
  {
    var k := hs[19] % 16;
    assert hs[k..k + 4] == [hs[k], hs[k + 1], hs[k + 2], hs[k + 3]];
    BigEndianFour(hs[k], hs[k + 1], hs[k + 2], hs[k + 3]);
  }

  function Hotp(hmac: Hmac, secret: bytes, counter: nat): (code: nat)
    ensures code < CODE_MODULUS
  {
    Truncate(hmac(secret, counter)) % CODE_MODULUS
  }

  /** The code shown at second `t` of Unix time. */
  function CodeAt(hmac: Hmac, secret: bytes, t: nat): nat {
    Hotp(hmac, secret, t / STEP_SECS)
  }

  /** The code at `t`, straight from the HMAC of its 30 s step: the 31-bit word at the
      offset that the digest's last nibble names, in six decimal digits. */
  lemma CodeIsTruncatedHmac(hmac: Hmac, secret: bytes, t: nat)
    ensures var digest := hmac(secret, t / 30);
            var offset := digest[19] % 16;
            CodeAt(hmac, secret, t) == BigEndian(digest[offset..offset + 4]) % 0x8000_0000 % 1_000_000
  {
    TruncateIsWord(hmac(secret, t / 30));
  }

  /** Some step from `lo` up to `hi` inclusive, none below zero, has this code. */
  predicate AnyStep(hmac: Hmac, secret: bytes, code: nat, lo: int, hi: int)
    decreases hi - lo + 1
  {
    lo <= hi
    && ((lo >= 0 && Hotp(hmac, secret, lo) == code) || AnyStep(hmac, secret, code, lo + 1, hi))
  }

  predicate VerifyAt(hmac: Hmac, secret: bytes, code: nat, now: nat) {
    var step := now / STEP_SECS;
    AnyStep(hmac, secret, code, step - SKEW_STEPS, step + SKEW_STEPS)
  }

  lemma {:induction false} AnyStepMeaning(hmac: Hmac, secret: bytes, code: nat, lo: int, hi: int)
    ensures AnyStep(hmac, secret, code, lo, hi)
       <==> exists c: nat :: lo <= c <= hi && Hotp(hmac, secret, c) == code
    decreases hi - lo + 1
  {
    if lo <= hi {
      AnyStepMeaning(hmac, secret, code, lo + 1, hi);
    }
  }

  /** A code verifies exactly when it is the code of some mint time whose step is
      this one or a neighbour. */
  lemma VerifiesIffNeighbour(hmac: Hmac, secret: bytes, code: nat, now: nat)
    ensures VerifyAt(hmac, secret, code, now)
       <==> exists t: nat :: -1 <= t / STEP_SECS - now / STEP_SECS <= 1 && CodeAt(hmac, secret, t) == code
  {
    var step := now / STEP_SECS;
    AnyStepMeaning(hmac, secret, code, step - SKEW_STEPS, step + SKEW_STEPS);
    if VerifyAt(hmac, secret, code, now) {
      var c: nat :| step - 1 <= c <= step + 1 && Hotp(hmac, secret, c) == code;
      var t := c * STEP_SECS;
      assert t / STEP_SECS == c;
      assert CodeAt(hmac, secret, t) == code;
    }
    if t: nat :| -1 <= t / STEP_SECS - now / STEP_SECS <= 1 && CodeAt(hmac, secret, t) == code {
      var c: nat := t / STEP_SECS;
      assert Hotp(hmac, secret, c) == code;
    }
  }

  /** The promised tolerance: a code minted within 30 seconds verifies, and a
      verifying code belongs to a mint time less than 60 seconds away. */
  lemma SkewTolerance(hmac: Hmac, secret: bytes, now: nat)
    ensures forall t: nat :: -30 <= t - now <= 30 ==> VerifyAt(hmac, secret, CodeAt(hmac, secret, t), now)
    ensures forall code: nat :: VerifyAt(hmac, secret, code, now)
              ==> exists t: nat :: -60 < t - now < 60 && CodeAt(hmac, secret, t) == code
  {
    forall t: nat | -30 <= t - now <= 30
      ensures VerifyAt(hmac, secret, CodeAt(hmac, secret, t), now)
    {
      VerifiesIffNeighbour(hmac, secret, CodeAt(hmac, secret, t), now);
      assert -1 <= t / STEP_SECS - now / STEP_SECS <= 1;
    }
    forall code: nat | VerifyAt(hmac, secret, code, now)
      ensures exists t: nat :: -60 < t - now < 60 && CodeAt(hmac, secret, t) == code
    {
      VerifiesIffNeighbour(hmac, secret, code, now);
      var t: nat :| -1 <= t / STEP_SECS - now / STEP_SECS <= 1 && CodeAt(hmac, secret, t) == code;
    }
  }
}
