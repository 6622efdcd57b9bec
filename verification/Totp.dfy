/** Time-based one-time passwords: RFC 6238 over the HOTP values of RFC 4226. */
module Totp {
  import opened Radix
  import opened JsBits
  import opened Decimal
  import Base32

  const PERIOD: nat := 30
  const MODULUS: nat := 1_000_000
  const COUNTERS: nat := 0x1_0000_0000_0000_0000

  type Bytes = seq<nat>

  /** HMAC-SHA-1: any function from key and message to twenty bytes. */
  type Hmac = (Bytes, Bytes) -> Bytes

  ghost predicate IsSha1Mac(hmac: Hmac) {
    forall k: Bytes, m: Bytes :: |hmac(k, m)| == 20 && AreDigits(256, hmac(k, m))
  }

  // ---- Reference values ----

  /** The eight-byte big-endian counter; a negative one is in two's complement. */
  function CounterBytes(counter: int): (b: Bytes)
    ensures |b| == 8
  {
    Expand(256, counter % COUNTERS, 8)
  }

  /** Section 5.3 of RFC 4226: the 31 low bits of the four bytes at the offset named by the last byte. */
  function Truncation(h: Bytes): nat
    requires |h| == 20
  {
    var offset := h[19] % 16;
    Value(256, h[offset..offset + 4]) % 0x8000_0000
  }

  function Hotp(hmac: Hmac, key: Bytes, counter: int): nat
    requires |hmac(key, CounterBytes(counter))| == 20
  {
    Truncation(hmac(key, CounterBytes(counter))) % MODULUS
  }

  // ---- The code ----

  method IntToBytes(num: int) returns (buf: array<nat>)
    ensures buf.Length == 8 && buf[..] == CounterBytes(num)
  {
    buf := new nat[8];
    var n := num;
    var i := 7;
    ghost var low := 1;
    assert Pow(256, 0) == 1;
    while i >= 0
      invariant -1 <= i <= 7 && buf.Length == 8
      invariant low == Pow(256, 7 - i) > 0 && n == num / low
      invariant AreDigits(256, buf[i + 1..]) && Value(256, buf[i + 1..]) == num % low
    {
      buf[i] := And(ToUint32(n), 0xff);
      LowByte(n);
      ghost var tail := buf[i + 1..];
      assert buf[i..] == [buf[i]] + tail;
      ValueCons(256, buf[i], tail);
      NextByte(num, low);
      n := n / 256;
      low := 256 * low;
      i := i - 1;
    }
    assert buf[0..] == buf[..];
    assert low == COUNTERS by { EightBytes(); }
    ExpandValue(256, buf[..]);
  }

  lemma EightBytes()
    ensures Pow(256, 8) == COUNTERS
  {
    assert Pow(256, 4) == 0x1_0000_0000;
    PowAdd(256, 4, 4);
  }

  /** n & 0xff, also for a negative n and for one beyond 32 bits. */
  lemma LowByte(n: int)
    ensures And(ToUint32(n), 0xff) == n % 256
  {
    hide And;
    var w := ToUint32(n);
    Masks(w);
    DivModUnique(n, 256, 0x100_0000 * (n / WORD) + w / 256, w % 256);
  }

  lemma NextByte(num: int, low: nat)
    requires low > 0
    ensures num / (256 * low) == (num / low) / 256
    ensures num % (256 * low) == ((num / low) % 256) * low + num % low
  {
    var (q, r) := (num / low, num % low);
    var (q', r') := (q / 256, q % 256);
    StepBound(low, r', r, 256);
    assert num == low * q + r;
    assert low * q == low * (256 * q' + r') == (256 * low) * q' + low * r';
    DivModUnique(num, 256 * low, q', low * r' + r);
  }

  function DynamicTruncate(h: Bytes): nat
    requires |h| == 20
  {
    Masks(h[19]);
    var offset := And(h[19], 0x0f);
    Or(Or(Or(Shl(And(h[offset], 0x7f), 24),
             Shl(And(h[offset + 1], 0xff), 16)),
          Shl(And(h[offset + 2], 0xff), 8)),
       And(h[offset + 3], 0xff))
  }

  lemma WindowValue(a: nat, b: nat, c: nat, d: nat)
    ensures Value(256, [a, b, c, d]) == 0x100_0000 * a + 0x1_0000 * b + 0x100 * c + d
  {
    var (s1, s2, s3) := ([a], [a, b], [a, b, c]);
    assert [a, b, c, d][..3] == s3 && s3[..2] == s2 && s2[..1] == s1 && s1[..0] == [];
    assert Value(256, s1) == a;
    assert Value(256, s2) == 256 * a + b;
    assert Value(256, s3) == 256 * (256 * a + b) + c;
  }

  lemma ShiftedByte(x: nat, k: nat, p: nat)
    requires x < 256 && Pow(2, k) == p <= 0x100_0000
    ensures Shl(x, k) == p * x
  {
    BelowWord(x, p);
  }

  lemma BelowWord(x: nat, p: nat)
    requires x < 256 && p <= 0x100_0000
    ensures x * p < WORD
  {
    assert x * p <= 255 * p;
  }

  /** Four bytes put side by side by | are their big-endian value. */
  lemma OrOfBytes(a: nat, b: nat, c: nat, d: nat)
    requires a < 256 && b < 256 && c < 256 && d < 256
    ensures Or(Or(Or(Shl(a, 24), Shl(b, 16)), Shl(c, 8)), d) == 0x100_0000 * a + 0x1_0000 * b + 0x100 * c + d
  {
    assert Pow(2, 8) == 0x100 && Pow(2, 16) == 0x1_0000 && Pow(2, 24) == 0x100_0000 by { SmallPowers(); }
    hide Pow, Or, Shl;
    ShiftedByte(a, 24, 0x100_0000);
    ShiftedByte(b, 16, 0x1_0000);
    ShiftedByte(c, 8, 0x100);
    OrAt(a, 24, 0x100_0000, 0x1_0000 * b);
    OrAt(0x100 * a + b, 16, 0x1_0000, 0x100 * c);
    OrAt(0x1_0000 * a + 0x100 * b + c, 8, 0x100, d);
  }

  lemma OrAt(x: nat, k: nat, p: nat, y: nat)
    requires p == Pow(2, k) && y < p
    ensures Or(p * x, y) == p * x + y
  {
    OrFields(x, k, y);
  }

  lemma Masks(x: nat)
    ensures And(x, 0x0f) == x % 16 && And(x, 0x7f) == x % 128 && And(x, 0xff) == x % 256
  {
    assert Pow(2, 4) == 16 && Pow(2, 7) == 128 && Pow(2, 8) == 256 by { SmallPowers(); }
    AndMask(x, 4);
    AndMask(x, 7);
    AndMask(x, 8);
  }

  lemma LowBits(a: nat, rest: nat)
    requires rest < 0x100_0000
    ensures (0x100_0000 * a + rest) % 0x8000_0000 == 0x100_0000 * (a % 128) + rest < 0x8000_0000
  {
    DivModUnique(0x100_0000 * a + rest, 0x8000_0000, a / 128, 0x100_0000 * (a % 128) + rest);
  }

  lemma WholeByte(x: nat)
    requires x < 256
    ensures And(x, 0xff) == x
  {
    hide And;
    Masks(x);
  }

  lemma WindowOfBytes(a: nat, b: nat, c: nat, d: nat)
    requires a < 256 && b < 256 && c < 256 && d < 256
    ensures Or(Or(Or(Shl(a % 128, 24), Shl(b, 16)), Shl(c, 8)), d) == Value(256, [a, b, c, d]) % 0x8000_0000
  {
    hide Or, Shl, Value, Pow;
    OrOfBytes(a % 128, b, c, d);
    WindowValue(a, b, c, d);
    LowBits(a, 0x1_0000 * b + 0x100 * c + d);
  }

  lemma MaskedBytes(a: nat, b: nat, c: nat, d: nat)
    requires a < 256 && b < 256 && c < 256 && d < 256
    ensures Or(Or(Or(Shl(And(a, 0x7f), 24), Shl(And(b, 0xff), 16)), Shl(And(c, 0xff), 8)), And(d, 0xff))
         == Value(256, [a, b, c, d]) % 0x8000_0000
  {
    hide Or, And, Shl, Value, Pow;
    Masks(a);
    WholeByte(b);
    WholeByte(c);
    WholeByte(d);
    WindowOfBytes(a, b, c, d);
  }

  /** The shifted and or-ed bytes are the 31-bit big-endian window of section 5.3 of RFC 4226. */
  lemma TruncateIsWindow(h: Bytes)
    requires |h| == 20 && AreDigits(256, h)
    ensures DynamicTruncate(h) == Truncation(h) < 0x8000_0000
  {
    hide Or, And, Shl, Value, Pow;
    Masks(h[19]);
    var o := h[19] % 16;
    MaskedBytes(h[o], h[o + 1], h[o + 2], h[o + 3]);
    assert h[o..o + 4] == [h[o], h[o + 1], h[o + 2], h[o + 3]];
  }

  /** Whether two strings of equal length differ, without stopping at the first difference. */
  method TimingSafeEqual(a: string, b: string) returns (r: bool)
    ensures r <==> a == b
  {
    if |a| != |b| {
      return false;
    }
    var result: nat := 0;
    for i := 0 to |a|
      invariant result == 0 <==> a[..i] == b[..i]
    {
      OrZero(result, Xor(a[i] as nat, b[i] as nat));
      XorZero(a[i] as nat, b[i] as nat);
      assert a[..i + 1] == a[..i] + [a[i]] && b[..i + 1] == b[..i] + [b[i]];
      result := Or(result, Xor(a[i] as nat, b[i] as nat));
    }
    assert a[..|a|] == a && b[..|b|] == b;
    r := result == 0;
  }

  /** The six-digit test of the code. */
  predicate IsCode(code: string) {
    |code| == 6 && AllDigits(code)
  }

  /** truncated.toString().padStart(6, "0") */
  function Formatted(n: nat): string {
    PadStart(ToString(n), 6)
  }

  lemma FormattedIsNumeral(code: string, n: nat)
    requires n < MODULUS && IsCode(code)
    ensures code == Formatted(n) <==> Parse(code) == n
  {
    assert Pow(10, 6) == MODULUS;
    LengthBound(n, 6);
    ParseToString(n);
    PaddingKeepsValue(ToString(n), 6);
    if Parse(code) == n {
      SameNumeral(code, Formatted(n));
    }
  }

  /** Whole seconds and then whole periods: the counter of section 4.2 of RFC 6238, with X = 30 s. */
  lemma CounterIsThirtySeconds(nowMs: nat)
    ensures nowMs / 1000 / PERIOD == nowMs / 30_000
  {
  }

  predicate Matches(hmac: Hmac, upper: Base32.Upper, secret: string, counter: int, code: string)
    requires |hmac(Base32.Decoded(upper, secret), CounterBytes(counter))| == 20
  {
    IsCode(code) && Parse(code) == Hotp(hmac, Base32.Decoded(upper, secret), counter)
  }

  /** A code is accepted exactly when it is the six-digit HOTP value of the current time step or of
      one of its two neighbours. */
  method Verify(hmac: Hmac, upper: Base32.Upper, secret: string, code: string, nowMs: nat) returns (r: bool)
    requires IsSha1Mac(hmac) && Base32.IsUpper(upper)
    ensures var c := nowMs / 30_000;
            r <==> Matches(hmac, upper, secret, c - 1, code) || Matches(hmac, upper, secret, c, code) || Matches(hmac, upper, secret, c + 1, code)
  {
    hide Truncation, DynamicTruncate, CounterBytes, Formatted, Parse, AreDigits;
    if !(|code| == 6 && AllDigits(code)) {
      return false;
    }
    var secretBytes := Base32.Decode(upper, secret);
    var now := nowMs / 1000;
    var currentCounter := now / PERIOD;
    CounterIsThirtySeconds(nowMs);
    var i := -1;
    while i <= 1
      invariant -1 <= i <= 2
      invariant forall c :: currentCounter - 1 <= c < currentCounter + i ==> !Matches(hmac, upper, secret, c, code)
    {
      var counterBytes := IntToBytes(currentCounter + i);
      var digest := hmac(secretBytes, counterBytes[..]);
      TruncateIsWindow(digest);
      var truncated := DynamicTruncate(digest) % MODULUS;
      assert truncated == Hotp(hmac, Base32.Decoded(upper, secret), currentCounter + i);
      FormattedIsNumeral(code, truncated);
      var equal := TimingSafeEqual(code, Formatted(truncated));
      if equal {
        return true;
      }
      i := i + 1;
    }
    return false;
  }
}
