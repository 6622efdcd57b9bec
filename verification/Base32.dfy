/** Base32 without padding, section 6 of RFC 4648, as used for TOTP secrets. */
module Base32 {
  import opened Base
  import opened Radix
  import opened JsBits

  /** Character d of the alphabet "ABCDEFGHIJKLMNOPQRSTUVWXYZ234567". */
  function Symbol(d: nat): char
    requires d < 32
  {
    if d < 26 then 'A' + d as char else '2' + (d - 26) as char
  }

  lemma SymbolIsAlphabet(d: nat)
    requires d < 32
    ensures Symbol(d) == "ABCDEFGHIJKLMNOPQRSTUVWXYZ234567"[d]
  {
  }

  // ---- What the codec means ----

  /** What toUpperCase makes of one character, which may be several: any function that is right on ASCII. */
  type Upper = char -> string

  ghost predicate IsUpper(upper: Upper) {
    forall c: char :: c < '\U{80}' ==> upper(c) == [if 'a' <= c <= 'z' then c - 'a' + 'A' else c]
  }

  function Uppercase(upper: Upper, s: string): string {
    if s == [] then [] else Uppercase(upper, s[..|s| - 1]) + upper(s[|s| - 1])
  }

  /** The position of c in the alphabet, with None for -1. */
  function IndexOf(c: char): (r: Option<nat>)
    ensures r.Some? ==> r.value < 32 && Symbol(r.value) == c
    ensures r.None? ==> forall d: nat :: d < 32 ==> Symbol(d) != c
  {
    if 'A' <= c <= 'Z' then Some((c - 'A') as nat)
    else if '2' <= c <= '7' then Some((c - '2') as nat + 26)
    else None
  }

  function Symbols(digits: seq<nat>): (r: string)
    requires AreDigits(32, digits)
    ensures |r| == |digits|
  {
    seq(|digits|, i requires 0 <= i < |digits| => Symbol(digits[i]))
  }

  /** The digits of the characters that are base32 symbols; the others are skipped. */
  function DigitsOf(s: string): (d: seq<nat>)
    ensures AreDigits(32, d)
  {
    if s == [] then [] else
      var rest := DigitsOf(s[..|s| - 1]);
      match IndexOf(s[|s| - 1]) case Some(d) => rest + [d] case None => rest
  }

  function PaddingBits(n: nat): nat {
    (5 - 8 * n % 5) % 5
  }

  /** The bytes as one number, extended by zero bits to whole base32 digits. */
  function PaddedValue(data: seq<nat>): nat {
    Value(256, data) * Pow(2, PaddingBits(|data|))
  }

  function EncodedDigits(data: seq<nat>): (d: seq<nat>)
    ensures AreDigits(32, d) && |d| == (8 * |data| + 4) / 5
  {
    ExpandDigits(32, PaddedValue(data), (8 * |data| + 4) / 5);
    Expand(32, PaddedValue(data), (8 * |data| + 4) / 5)
  }

  function Encoded(data: seq<nat>): string {
    Symbols(EncodedDigits(data))
  }

  /** The digits of the text in upper case as one number, cut down to whole bytes. */
  function Decoded(upper: Upper, s: string): seq<nat> {
    DecodedDigits(DigitsOf(Uppercase(upper, s)))
  }

  function DecodedDigits(digits: seq<nat>): seq<nat> {
    var bits := 5 * |digits|;
    Expand(256, Shr(Value(32, digits), bits % 8), bits / 8)
  }

  // ---- The accumulator ----

  /** value << k | d drops the top k bits and puts d below. */
  lemma ShlOr(value: nat, k: nat, d: nat)
    requires k <= 32 && d < Pow(2, k)
    ensures Pow(2, 32 - k) > 0
    ensures Or(Shl(value, k), d) == (value % Pow(2, 32 - k)) * Pow(2, k) + d < WORD
  {
    PowPositive(2, 32 - k);
    PowAdd(2, k, 32 - k);
    SmallPowers();
    ShiftedField(value, k, 32 - k);
    var x := value % Pow(2, 32 - k);
    OrFields(x, k, d);
    StepBound(Pow(2, k), x, d, Pow(2, 32 - k));
  }

  /** Shifting a digit into the wrapping accumulator appends it to the pending low bits. */
  lemma ShiftIn(value: nat, bits: nat, k: nat, d: nat)
    requires bits + k <= 32 && d < Pow(2, k)
    ensures Or(Shl(value, k), d) < WORD
    ensures Pow(2, bits) > 0 && Pow(2, bits + k) > 0
    ensures Or(Shl(value, k), d) % Pow(2, bits + k) == (value % Pow(2, bits)) * Pow(2, k) + d
  {
    var (p, q) := (Pow(2, k), Pow(2, bits));
    PowPositive(2, k);
    PowPositive(2, bits);
    PowPositive(2, bits + k);
    ShlOr(value, k, d);
    ModMod(value, bits, 32 - k);
    PowAdd(2, k, bits);
    AppendDigit(value % Pow(2, 32 - k), p, d, q);
  }

  lemma AppendDigit(x: nat, p: nat, d: nat, q: nat)
    requires d < p && q > 0
    ensures p * q > 0 && (x * p + d) % (p * q) == (x % q) * p + d
  {
    DivModUnique(x * p + d, p, x, d);
    ModTimes(x * p + d, p, q);
  }

  lemma ShiftedField(value: nat, k: nat, m: nat)
    ensures Pow(2, m) > 0 && Pow(2, k + m) > 0
    ensures (value * Pow(2, k)) % Pow(2, k + m) == (value % Pow(2, m)) * Pow(2, k)
  {
    var p := Pow(2, k);
    PowPositive(2, k);
    PowPositive(2, m);
    PowPositive(2, k + m);
    PowAdd(2, k, m);
    DivModUnique(value * p, p, value, 0);
    ModTimes(value * p, p, Pow(2, m));
  }

  /** Low bits of low bits. */
  lemma ModMod(v: nat, a: nat, b: nat)
    requires a <= b
    ensures Pow(2, a) > 0 && Pow(2, b) > 0 && (v % Pow(2, b)) % Pow(2, a) == v % Pow(2, a)
  {
    PowPositive(2, a);
    PowPositive(2, b);
    PowPositive(2, b - a);
    PowAdd(2, a, b - a);
    ModTimes(v, Pow(2, a), Pow(2, b - a));
    DivModUnique(v % Pow(2, b), Pow(2, a), (v / Pow(2, a)) % Pow(2, b - a), v % Pow(2, a));
  }

  /** Taking k bits off the top of the pending bits. */
  lemma ShiftOut(value: nat, bits: nat, k: nat)
    ensures Pow(2, bits) > 0 && Pow(2, bits + k) > 0 && Pow(2, k) > 0
    ensures var d := And(Shr(value, bits), Pow(2, k) - 1);
            && d < Pow(2, k)
            && value % Pow(2, bits + k) == d * Pow(2, bits) + value % Pow(2, bits)
  {
    PowPositive(2, bits);
    PowPositive(2, k);
    PowPositive(2, bits + k);
    PowAdd(2, bits, k);
    AndMask(Shr(value, bits), k);
    ModTimes(value, Pow(2, bits), Pow(2, k));
  }

  /** Feeding a k-bit digit: what was written and what is pending together grow by one digit. */
  lemma Feed(written: nat, value: nat, bits: nat, k: nat, d: nat)
    requires bits + k <= 32 && d < Pow(2, k)
    ensures Pow(2, bits) > 0 && Pow(2, bits + k) > 0 && Or(Shl(value, k), d) < WORD
    ensures written * Pow(2, bits + k) + Or(Shl(value, k), d) % Pow(2, bits + k)
            == Pow(2, k) * (written * Pow(2, bits) + value % Pow(2, bits)) + d
  {
    ShiftIn(value, bits, k, d);
    PowAdd(2, bits, k);
    FeedArithmetic(written, Pow(2, bits), value % Pow(2, bits), Pow(2, k), d);
  }

  lemma FeedArithmetic(w: nat, q: nat, v: nat, p: nat, d: nat)
    ensures w * (q * p) + (v * p + d) == p * (w * q + v) + d
  {
  }

  /** Writing the top k pending bits moves them and changes nothing else. */
  lemma Drain(written: nat, value: nat, bits: nat, k: nat)
    ensures Pow(2, bits) > 0 && Pow(2, bits + k) > 0 && Pow(2, k) > 0
    ensures var d := And(Shr(value, bits), Pow(2, k) - 1);
            && d < Pow(2, k)
            && (Pow(2, k) * written + d) * Pow(2, bits) + value % Pow(2, bits)
               == written * Pow(2, bits + k) + value % Pow(2, bits + k)
  {
    ShiftOut(value, bits, k);
    PowAdd(2, bits, k);
    DrainArithmetic(written, Pow(2, bits), Pow(2, k), And(Shr(value, bits), Pow(2, k) - 1));
  }

  lemma DrainArithmetic(w: nat, q: nat, p: nat, d: nat)
    ensures (p * w + d) * q == w * (q * p) + d * q
  {
  }

  lemma MaskedShl(value: nat, bits: nat)
    requires bits <= 5
    ensures Pow(2, bits) > 0 && And(Shl(value, 5 - bits), 31) == (value % Pow(2, bits)) * Pow(2, 5 - bits) < 32
  {
    var k := 5 - bits;
    PowPositive(2, k);
    ShiftIn(value, bits, k, 0);
    OrCommutes(Shl(value, k), 0);
    OrOfZero(Shl(value, k));
    AndMask(Shl(value, k), 5);
    assert Pow(2, 5) == 32 by { SmallPowers(); }
  }

  /** The last, partial digit is padded with zero bits. */
  lemma PadLast(written: nat, value: nat, bits: nat)
    requires 0 < bits < 5
    ensures Pow(2, bits) > 0
    ensures var d := And(Shl(value, 5 - bits), 31);
            d < 32 && 32 * written + d == (written * Pow(2, bits) + value % Pow(2, bits)) * Pow(2, 5 - bits)
  {
    hide Pow, And, Shl;
    MaskedShl(value, bits);
    PowAdd(2, bits, 5 - bits);
    assert Pow(2, 5) == 32 by { SmallPowers(); }
    FeedArithmetic(written, Pow(2, bits), value % Pow(2, bits), Pow(2, 5 - bits), 0);
  }

  lemma ValueSnoc(base: nat, s: seq<nat>, d: nat)
    ensures Value(base, s + [d]) == base * Value(base, s) + d
  {
    assert (s + [d])[..|s|] == s;
  }

  /** The digits written so far and the pending low bits of the accumulator spell the number total. */
  ghost predicate Spells(base: nat, written: seq<nat>, value: nat, bits: nat, total: nat) {
    Pow(2, bits) > 0 && Value(base, written) * Pow(2, bits) + value % Pow(2, bits) == total
  }

  lemma FeedSpells(base: nat, written: seq<nat>, value: nat, bits: nat, k: nat, d: nat, total: nat)
    requires bits + k <= 32 && d < Pow(2, k) && Spells(base, written, value, bits, total)
    ensures Spells(base, written, Or(Shl(value, k), d), bits + k, Pow(2, k) * total + d)
  {
    Feed(Value(base, written), value, bits, k, d);
  }

  lemma DrainSpells(base: nat, written: seq<nat>, value: nat, bits: nat, k: nat, total: nat)
    requires base == Pow(2, k) > 0 && Spells(base, written, value, bits + k, total)
    ensures var d := And(Shr(value, bits), base - 1);
            d < base && Spells(base, written + [d], value, bits, total)
  {
    Drain(Value(base, written), value, bits, k);
    ValueSnoc(base, written, And(Shr(value, bits), base - 1));
  }

  lemma PadSpells(written: seq<nat>, value: nat, bits: nat, total: nat)
    requires 0 < bits < 5 && Spells(32, written, value, bits, total)
    ensures var d := And(Shl(value, 5 - bits), 31);
            d < 32 && Value(32, written + [d]) == total * Pow(2, 5 - bits)
  {
    PadLast(Value(32, written), value, bits);
    ValueSnoc(32, written, And(Shl(value, 5 - bits), 31));
  }

  lemma SymbolsSnoc(digits: seq<nat>, d: nat)
    requires AreDigits(32, digits) && d < 32
    ensures AreDigits(32, digits + [d]) && Symbols(digits + [d]) == Symbols(digits) + [Symbol(d)]
  {
  }

  lemma DigitCount(n: nat, m: nat, bits: nat)
    requires bits < 5 && 5 * m == 8 * n + bits
    ensures m == (8 * n + 4) / 5 && bits == PaddingBits(n)
  {
  }

  /** The digits that spell the padded number are the ones of the encoding. */
  lemma SpellsEncoded(data: seq<nat>, digits: seq<nat>, bits: nat)
    requires AreDigits(32, digits) && bits < 5 && 5 * |digits| == 8 * |data| + bits
    requires Value(32, digits) == Value(256, data) * Pow(2, bits)
    ensures digits == EncodedDigits(data)
  {
    hide Pow, Value, PaddingBits, Expand;
    DigitCount(|data|, |digits|, bits);
    ExpandValue(32, digits);
  }

  lemma NothingWritten(base: nat)
    ensures Spells(base, [], 0, 0, Value(base, []))
    ensures Value(base, []) == 0
  {
  }

  lemma NothingPending(base: nat, written: seq<nat>, value: nat, total: nat)
    requires Spells(base, written, value, 0, total)
    ensures Value(base, written) == total * Pow(2, 0)
  {
  }

  lemma PrefixValue(base: nat, s: seq<nat>, i: nat)
    requires i < |s|
    ensures Value(base, s[..i + 1]) == base * Value(base, s[..i]) + s[i]
  {
    assert s[..i + 1] == s[..i] + [s[i]];
    ValueSnoc(base, s[..i], s[i]);
  }

  lemma FeedByte(data: seq<nat>, i: nat, digits: seq<nat>, value: nat, bits: nat)
    requires AreDigits(256, data) && i < |data| && bits < 5 && Spells(32, digits, value, bits, Value(256, data[..i]))
    ensures Spells(32, digits, Or(Shl(value, 8), data[i]), bits + 8, Value(256, data[..i + 1]))
  {
    assert Pow(2, 8) == 256 by { SmallPowers(); }
    hide Spells, Or, Shl, Pow, Value;
    FeedSpells(32, digits, value, bits, 8, data[i], Value(256, data[..i]));
    PrefixValue(256, data, i);
  }

  lemma DrainDigit(digits: seq<nat>, value: nat, bits: nat, total: nat)
    requires AreDigits(32, digits) && Spells(32, digits, value, bits + 5, total)
    ensures var d := And(Shr(value, bits), 0x1f);
            && d < 32 && AreDigits(32, digits + [d]) && Symbols(digits + [d]) == Symbols(digits) + [Symbol(d)]
            && Spells(32, digits + [d], value, bits, total)
  {
    assert Pow(2, 5) == 32 by { SmallPowers(); }
    hide Spells, And, Shr, Pow, Value;
    DrainSpells(32, digits, value, bits, 5, total);
  }

  method Encode(data: seq<nat>) returns (result: string)
    requires AreDigits(256, data)
    ensures result == Encoded(data)
  {
    hide Spells, Or, And, Shl, Shr, Pow, Value, IndexOf, Symbol;
    ghost var digits: seq<nat> := [];
    result := "";
    var bits := 0;
    var value: nat := 0;
    assert data[..0] == [];
    NothingWritten(32);
    NothingWritten(256);
    for i := 0 to |data|
      invariant AreDigits(32, digits) && result == Symbols(digits)
      invariant bits < 5 && 5 * |digits| + bits == 8 * i
      invariant Spells(32, digits, value, bits, Value(256, data[..i]))
    {
      FeedByte(data, i, digits, value, bits);
      value := Or(Shl(value, 8), data[i]);
      bits := bits + 8;
      while bits >= 5
        invariant AreDigits(32, digits) && result == Symbols(digits)
        invariant 5 * |digits| + bits == 8 * (i + 1)
        invariant Spells(32, digits, value, bits, Value(256, data[..i + 1]))
      {
        bits := bits - 5;
        DrainDigit(digits, value, bits, Value(256, data[..i + 1]));
        var d := And(Shr(value, bits), 0x1f);
        result := result + [Symbol(d)];
        digits := digits + [d];
      }
    }
    assert data[..|data|] == data;
    if bits > 0 {
      PadSpells(digits, value, bits, Value(256, data));
      var d := And(Shl(value, 5 - bits), 0x1f);
      SymbolsSnoc(digits, d);
      SpellsEncoded(data, digits + [d], 5 - bits);
      result := result + [Symbol(d)];
      digits := digits + [d];
    } else {
      NothingPending(32, digits, value, Value(256, data));
      SpellsEncoded(data, digits, 0);
    }
  }

  function StripPadding(s: string): string {
    if s != [] && s[|s| - 1] == '=' then StripPadding(s[..|s| - 1]) else s
  }

  lemma DigitsAppend(s: string, c: char)
    ensures DigitsOf(s + [c]) == match IndexOf(c) case Some(d) => DigitsOf(s) + [d] case None => DigitsOf(s)
  {
    assert (s + [c])[..|s|] == s;
  }

  /** Stripping the padding does not change the digits. */
  lemma {:induction false} CleaningKeepsDigits(upper: Upper, s: string)
    requires IsUpper(upper)
    ensures DigitsOf(Uppercase(upper, StripPadding(s))) == DigitsOf(Uppercase(upper, s))
  {
    hide IsUpper, Uppercase, DigitsOf;
    if s != [] && s[|s| - 1] == '=' {
      var t := s[..|s| - 1];
      CleaningKeepsDigits(upper, t);
      assert t + ['='] == s;
      UppercaseSnoc(upper, t, '=');
      DigitsAppend(Uppercase(upper, t), '=');
      UpperIsEqualSign(upper);
    }
  }

  lemma UpperIsEqualSign(upper: Upper)
    requires IsUpper(upper)
    ensures upper('=') == ['='] && IndexOf('=') == None
  {
  }

  lemma UppercaseSnoc(upper: Upper, s: string, c: char)
    ensures Uppercase(upper, s + [c]) == Uppercase(upper, s) + upper(c)
  {
    assert (s + [c])[..|s|] == s;
  }

  predicate SameButForCase(s: string, t: string) {
    |s| == |t| && forall i :: 0 <= i < |s| ==>
      s[i] < '\U{80}' && t[i] < '\U{80}'
      && (s[i] == t[i] || ('a' <= s[i] <= 'z' && t[i] == s[i] - 'a' + 'A') || ('a' <= t[i] <= 'z' && s[i] == t[i] - 'a' + 'A'))
  }

  /** Neither does the case of ASCII letters. */
  lemma {:induction false} CaseKeepsDecoded(upper: Upper, s: string, t: string)
    requires IsUpper(upper) && SameButForCase(s, t)
    ensures Uppercase(upper, s) == Uppercase(upper, t) && Decoded(upper, s) == Decoded(upper, t)
  {
    hide IsUpper, DecodedDigits, DigitsOf;
    if s != [] {
      CaseKeepsDecoded(upper, s[..|s| - 1], t[..|t| - 1]);
      CaseKeepsUpper(upper, s[|s| - 1], t[|t| - 1]);
    }
  }

  lemma CaseKeepsUpper(upper: Upper, c: char, d: char)
    requires IsUpper(upper) && SameButForCase([c], [d])
    ensures upper(c) == upper(d)
  {
    assert [c][0] == c && [d][0] == d;
  }

  lemma PendingBelow(bytes: seq<nat>, value: nat, bits: nat, total: nat)
    requires Spells(256, bytes, value, bits, total)
    ensures Value(256, bytes) == Shr(total, bits)
  {
    DivModUnique(total, Pow(2, bits), Value(256, bytes), value % Pow(2, bits));
  }

  lemma PrefixDigits(t: string, i: nat)
    requires i < |t|
    ensures var d := IndexOf(t[i]);
            DigitsOf(t[..i + 1]) == if d.Some? then DigitsOf(t[..i]) + [d.value] else DigitsOf(t[..i])
  {
    assert t[..i + 1] == t[..i] + [t[i]];
    DigitsAppend(t[..i], t[i]);
  }

  lemma FeedSymbol(s: string, i: nat, bytes: seq<nat>, value: nat, bits: nat, d: nat)
    requires i < |s| && bits < 8 && Spells(256, bytes, value, bits, Value(32, DigitsOf(s[..i])))
    requires d < 32 && DigitsOf(s[..i + 1]) == DigitsOf(s[..i]) + [d]
    ensures Spells(256, bytes, Or(Shl(value, 5), d), bits + 5, Value(32, DigitsOf(s[..i + 1])))
  {
    assert Pow(2, 5) == 32 by { SmallPowers(); }
    hide Spells, Or, Shl, Pow, Value, DigitsOf;
    FeedSpells(256, bytes, value, bits, 5, d, Value(32, DigitsOf(s[..i])));
    ValueSnoc(32, DigitsOf(s[..i]), d);
  }

  lemma DrainByte(bytes: seq<nat>, value: nat, bits: nat, total: nat)
    requires AreDigits(256, bytes) && Spells(256, bytes, value, bits + 8, total)
    ensures var d := And(Shr(value, bits), 0xff);
            d < 256 && AreDigits(256, bytes + [d]) && Spells(256, bytes + [d], value, bits, total)
  {
    assert Pow(2, 8) == 256 by { SmallPowers(); }
    hide Spells, And, Shr, Pow, Value;
    DrainSpells(256, bytes, value, bits, 8, total);
  }

  /** The whole bytes that spell the digits are the ones of the decoding. */
  lemma SpellsDecoded(bytes: seq<nat>, value: nat, bits: nat, digits: seq<nat>)
    requires AreDigits(256, bytes) && bits < 8 && 8 * |bytes| + bits == 5 * |digits|
    requires Spells(256, bytes, value, bits, Value(32, digits))
    ensures bytes == DecodedDigits(digits)
  {
    hide Spells, Shr, Value, Expand;
    PendingBelow(bytes, value, bits, Value(32, digits));
    ExpandValue(256, bytes);
  }

  lemma CleaningKeepsDecoded(upper: Upper, s: string)
    requires IsUpper(upper)
    ensures Decoded(upper, s) == DecodedDigits(DigitsOf(Uppercase(upper, StripPadding(s))))
  {
    hide DecodedDigits, DigitsOf, Uppercase, StripPadding, IsUpper;
    CleaningKeepsDigits(upper, s);
  }

  method Decode(upper: Upper, encoded: string) returns (bytes: seq<nat>)
    requires IsUpper(upper)
    ensures bytes == Decoded(upper, encoded)
  {
    hide Spells, Or, And, Shl, Shr, Pow, Value, IndexOf, StripPadding, Uppercase, IsUpper, Decoded, DecodedDigits;
    var cleaned := Uppercase(upper, StripPadding(encoded));
    CleaningKeepsDecoded(upper, encoded);
    bytes := [];
    var bits := 0;
    var value: nat := 0;
    assert DigitsOf(cleaned[..0]) == [];
    NothingWritten(32);
    NothingWritten(256);
    hide DigitsOf;
    for i := 0 to |cleaned|
      invariant AreDigits(256, bytes) && bits < 8 && 8 * |bytes| + bits == 5 * |DigitsOf(cleaned[..i])|
      invariant Spells(256, bytes, value, bits, Value(32, DigitsOf(cleaned[..i])))
    {
      PrefixDigits(cleaned, i);
      var idx := IndexOf(cleaned[i]);
      if idx.Some? {
        FeedSymbol(cleaned, i, bytes, value, bits, idx.value);
        value := Or(Shl(value, 5), idx.value);
        bits := bits + 5;
        if bits >= 8 {
          bits := bits - 8;
          DrainByte(bytes, value, bits, Value(32, DigitsOf(cleaned[..i + 1])));
          bytes := bytes + [And(Shr(value, bits), 0xff)];
        }
      }
    }
    assert cleaned[..|cleaned|] == cleaned;
    SpellsDecoded(bytes, value, bits, DigitsOf(cleaned));
  }

  // ---- Round trip ----

  lemma {:induction false} DigitsOfSymbols(digits: seq<nat>)
    requires AreDigits(32, digits)
    ensures DigitsOf(Symbols(digits)) == digits
  {
    if digits != [] {
      var t := digits[..|digits| - 1];
      DigitsOfSymbols(t);
      assert Symbols(digits)[..|digits| - 1] == Symbols(t);
    }
  }

  lemma {:induction false} UpperKeepsSymbols(upper: Upper, digits: seq<nat>)
    requires IsUpper(upper) && AreDigits(32, digits)
    ensures Uppercase(upper, Symbols(digits)) == Symbols(digits)
  {
    hide IsUpper, Uppercase, Symbols, Symbol;
    if digits == [] {
      NothingUpper(upper);
    } else {
      var (t, d) := (digits[..|digits| - 1], digits[|digits| - 1]);
      UpperKeepsSymbols(upper, t);
      SymbolsSnoc(t, d);
      assert t + [d] == digits;
      UppercaseSnoc(upper, Symbols(t), Symbol(d));
      UpperSymbol(upper, d);
    }
  }

  lemma NothingUpper(upper: Upper)
    ensures Uppercase(upper, Symbols([])) == Symbols([])
  {
  }

  lemma UpperSymbol(upper: Upper, d: nat)
    requires IsUpper(upper) && d < 32
    ensures upper(Symbol(d)) == [Symbol(d)]
  {
  }

  /** The padded number fits the digits it is written in. */
  lemma PaddedFits(data: seq<nat>, n: nat, pad: nat)
    requires AreDigits(256, data) && 5 * n == 8 * |data| + pad
    ensures Value(256, data) * Pow(2, pad) < Pow(32, n)
  {
    hide Value;
    ValueBound(256, data);
    assert Pow(2, 8) == 256 && Pow(2, 5) == 32 by { SmallPowers(); }
    PowPow(8, |data|);
    PowPow(5, n);
    PowAdd(2, 8 * |data|, pad);
    PowPositive(2, pad);
    StepBound(Pow(2, pad), Value(256, data), 0, Pow(2, 8 * |data|));
  }

  lemma Expanded(base: nat, v: nat, n: nat)
    requires base > 0 && v < Pow(base, n)
    ensures Value(base, Expand(base, v, n)) == v
  {
    ValueExpand(base, v, n);
    DivModUnique(v, Pow(base, n), 0, v);
  }

  /** Cutting the padded number down to whole bytes gives the bytes back. */
  lemma DigitsRoundTrip(data: seq<nat>)
    requires AreDigits(256, data)
    ensures DecodedDigits(EncodedDigits(data)) == data
  {
    hide Pow, Value, Expand;
    var (n, pad) := ((8 * |data| + 4) / 5, PaddingBits(|data|));
    PaddedFits(data, n, pad);
    Expanded(32, PaddedValue(data), n);
    PowPositive(2, pad);
    DivModUnique(PaddedValue(data), Pow(2, pad), Value(256, data), 0);
    ExpandValue(256, data);
  }

  /** Decoding an encoding gives the bytes back, and n bytes take ceil(8n / 5) characters. */
  lemma RoundTrip(upper: Upper, data: seq<nat>)
    requires IsUpper(upper) && AreDigits(256, data)
    ensures Decoded(upper, Encoded(data)) == data
    ensures 5 * (|Encoded(data)| - 1) < 8 * |data| <= 5 * |Encoded(data)|
  {
    hide Symbols, DigitsOf, IsUpper, Uppercase, EncodedDigits, DecodedDigits;
    DigitsRoundTrip(data);
    DigitsOfSymbols(EncodedDigits(data));
    UpperKeepsSymbols(upper, EncodedDigits(data));
  }

  lemma {:induction false} PowPow(k: nat, n: nat)
    ensures Pow(Pow(2, k), n) == Pow(2, k * n)
  {
    if n > 0 {
      PowPow(k, n - 1);
      PowAdd(2, k, k * (n - 1));
      assert k + k * (n - 1) == k * n;
    }
  }
}
