/**
 The Redis wire format of the Redis cache. Bytes on the wire are represented by the characters of
 the same code. Strings are sequences of Unicode scalar values, so there are no lone surrogates.
 */
module Resp {
  import opened Base
  import opened Decimal

  const CRLF := "\r\n"

  // ---- UTF-8 ----

  predicate IsAscii(s: string) {
    forall i :: 0 <= i < |s| ==> s[i] < '\U{80}'
  }

  function ByteChar(b: nat): char
    requires b < 256
  {
    b as char
  }

  function Utf8Char(c: char): string {
    var n := c as int;
    if n < 0x80 then [c]
    else if n < 0x800 then [ByteChar(0xC0 + n / 0x40), ByteChar(0x80 + n % 0x40)]
    else if n < 0x1_0000 then
      [ByteChar(0xE0 + n / 0x1000), ByteChar(0x80 + n / 0x40 % 0x40), ByteChar(0x80 + n % 0x40)]
    else
      [ByteChar(0xF0 + n / 0x4_0000), ByteChar(0x80 + n / 0x1000 % 0x40), ByteChar(0x80 + n / 0x40 % 0x40), ByteChar(0x80 + n % 0x40)]
  }

  /** The bytes in which a string is written to the socket. */
  function Utf8(s: string): string {
    if s == [] then [] else Utf8Char(s[0]) + Utf8(s[1..])
  }

  lemma {:induction false} Utf8Append(s: string, t: string)
    ensures Utf8(s + t) == Utf8(s) + Utf8(t)
  {
    hide Utf8Char;
    if s == [] {
      assert s + t == t;
    } else {
      TailOfAppend(s, t);
      Utf8Append(s[1..], t);
      AppendAssociates(Utf8Char(s[0]), Utf8(s[1..]), Utf8(t));
    }
  }

  lemma {:induction false} Utf8Length(s: string)
    ensures |Utf8(s)| >= |s|
    ensures |Utf8(s)| == |s| <==> IsAscii(s)
    ensures IsAscii(s) ==> Utf8(s) == s
  {
    if s != [] {
      Utf8Length(s[1..]);
      assert IsAscii(s) <==> s[0] < '\U{80}' && IsAscii(s[1..]) by {
        assert forall i :: 0 < i < |s| ==> s[i] == s[1..][i - 1];
      }
      assert s == [s[0]] + s[1..];
    }
  }

  /** The character that a UTF-8 sequence of this length stands for. */
  function CharOf(bytes: string): Option<char> {
    var code :=
      if |bytes| == 1 then bytes[0] as int
      else if |bytes| == 2 then (bytes[0] as int - 0xC0) * 0x40 + (bytes[1] as int - 0x80)
      else if |bytes| == 3 then
        (bytes[0] as int - 0xE0) * 0x1000 + (bytes[1] as int - 0x80) * 0x40 + (bytes[2] as int - 0x80)
      else if |bytes| == 4 then
        (bytes[0] as int - 0xF0) * 0x4_0000 + (bytes[1] as int - 0x80) * 0x1000 + (bytes[2] as int - 0x80) * 0x40
        + (bytes[3] as int - 0x80)
      else -1;
    if 0 <= code < 0xD800 || 0xE000 <= code < 0x11_0000 then Some(code as char) else None
  }

  /** The length of a UTF-8 sequence, from its first byte. */
  function SequenceLength(first: char): nat {
    if first < '\U{80}' then 1 else if first < '\U{E0}' then 2 else if first < '\U{F0}' then 3 else 4
  }

  function FromUtf8(b: string): Option<string>
    decreases |b|
  {
    if b == [] then Some([]) else
      var n := SequenceLength(b[0]);
      if |b| < n || CharOf(b[..n]).None? then None else
        var rest := FromUtf8(b[n..]);
        if rest.Some? then Some([CharOf(b[..n]).value] + rest.value) else None
  }

  lemma CharRoundTrip(c: char)
    ensures Utf8Char(c) != [] && SequenceLength(Utf8Char(c)[0]) == |Utf8Char(c)| && CharOf(Utf8Char(c)) == Some(c)
  {
    var n := c as int;
    assert n == n / 0x40 * 0x40 + n % 0x40;
    assert n / 0x40 == n / 0x1000 * 0x40 + n / 0x40 % 0x40;
    assert n / 0x1000 == n / 0x4_0000 * 0x40 + n / 0x1000 % 0x40;
  }

  /** UTF-8 is read back as exactly the string written. */
  lemma {:induction false} Utf8RoundTrip(s: string)
    ensures FromUtf8(Utf8(s)) == Some(s)
  {
    hide Utf8Char, CharOf, SequenceLength;
    if s != [] {
      Utf8RoundTrip(s[1..]);
      CharRoundTrip(s[0]);
      var (c, rest) := (Utf8Char(s[0]), Utf8(s[1..]));
      assert (c + rest)[..|c|] == c && (c + rest)[|c|..] == rest && (c + rest)[0] == c[0];
      assert [s[0]] + s[1..] == s;
    }
  }

  // ---- Commands ----

  function Frame(arg: string): string {
    "$" + ToString(|Utf8(arg)|) + CRLF + arg + CRLF
  }

  function Frames(args: seq<string>): string {
    if args == [] then [] else Frame(args[0]) + Frames(args[1..])
  }

  function Command(args: seq<string>): string {
    "*" + ToString(|args|) + CRLF + Frames(args)
  }

  method EncodeCommand(args: seq<string>) returns (cmd: string)
    ensures cmd == Command(args)
  {
    cmd := "*" + ToString(|args|) + CRLF;
    assert args[0..] == args;
    for i := 0 to |args|
      invariant cmd + Frames(args[i..]) == Command(args)
    {
      assert args[i..][1..] == args[i + 1..];
      cmd := cmd + ("$" + ToString(|Utf8(args[i])|) + CRLF + args[i] + CRLF);
    }
    assert args[|args|..] == [];
  }

  // ---- A length-driven decoder ----

  /** The bytes before the first CRLF and the bytes after it. */
  function SplitLine(b: string): Option<(string, string)> {
    if |b| < 2 then None
    else if b[..2] == CRLF then Some(([], b[2..]))
    else
      var rest := SplitLine(b[1..]);
      if rest.Some? then Some(([b[0]] + rest.value.0, rest.value.1)) else None
  }

  function ReadCount(b: string, mark: char): Option<(nat, string)> {
    if b == [] || b[0] != mark then None else
      var line := SplitLine(b[1..]);
      if line.Some? && line.value.0 != [] && AllDigits(line.value.0)
      then Some((Parse(line.value.0), line.value.1)) else None
  }

  function ReadBulk(b: string): Option<(string, string)> {
    var head := ReadCount(b, '$');
    if head.None? then None else
      var (n, rest) := head.value;
      if |rest| < n + 2 || rest[n..n + 2] != CRLF then None else Some((rest[..n], rest[n + 2..]))
  }

  function ReadBulks(n: nat, b: string): Option<(seq<string>, string)> {
    if n == 0 then Some(([], b)) else
      var first := ReadBulk(b);
      if first.None? then None else
        var rest := ReadBulks(n - 1, first.value.1);
        if rest.None? then None else Some(([first.value.0] + rest.value.0, rest.value.1))
  }

  function ReadCommand(b: string): Option<(seq<string>, string)> {
    var head := ReadCount(b, '*');
    if head.None? then None else ReadBulks(head.value.0, head.value.1)
  }

  lemma {:induction false} SplitPlain(d: string, rest: string)
    requires '\r' !in d
    ensures SplitLine(d + CRLF + rest) == Some((d, rest))
  {
    var b := d + CRLF + rest;
    if d == [] {
      assert b[..2] == CRLF && b[2..] == rest;
    } else {
      SplitPlain(d[1..], rest);
      assert b[1..] == d[1..] + CRLF + rest;
      assert b[..2][0] == d[0] && d[0] in d;
      assert [d[0]] + d[1..] == d;
    }
  }

  lemma SplitDigits(d: string, rest: string)
    requires AllDigits(d)
    ensures SplitLine(d + CRLF + rest) == Some((d, rest))
  {
    SplitPlain(d, rest);
  }

  lemma CountReads(mark: char, n: nat, rest: string)
    ensures ReadCount([mark] + (ToString(n) + CRLF + rest), mark) == Some((n, rest))
  {
    SplitDigits(ToString(n), rest);
    ParseToString(n);
  }

  lemma HeaderIsAscii(mark: char, n: nat)
    requires mark < '\U{80}'
    ensures Utf8([mark] + ToString(n) + CRLF) == [mark] + ToString(n) + CRLF
  {
    Utf8Length([mark] + ToString(n) + CRLF);
  }

  lemma FrameBytes(arg: string)
    ensures Utf8(Frame(arg)) == ['$'] + ToString(|Utf8(arg)|) + CRLF + (Utf8(arg) + CRLF)
  {
    hide ToString, Utf8;
    var h := ['$'] + ToString(|Utf8(arg)|) + CRLF;
    HeaderIsAscii('$', |Utf8(arg)|);
    Utf8Length(CRLF);
    assert Frame(arg) == h + (arg + CRLF);
    Utf8Append(h, arg + CRLF);
    Utf8Append(arg, CRLF);
  }

  lemma BulkReads(arg: string, rest: string)
    ensures ReadBulk(Utf8(Frame(arg)) + rest) == Some((Utf8(arg), rest))
  {
    hide ToString, Utf8, ReadCount, Frame;
    var u := Utf8(arg);
    FrameBytes(arg);
    var tail := u + CRLF + rest;
    assert Utf8(Frame(arg)) + rest == ['$'] + (ToString(|u|) + CRLF + tail);
    CountReads('$', |u|, tail);
    assert tail[..|u|] == u && tail[|u|..|u| + 2] == CRLF && tail[|u| + 2..] == rest;
  }

  function Utf8All(args: seq<string>): seq<string> {
    if args == [] then [] else [Utf8(args[0])] + Utf8All(args[1..])
  }

  lemma {:induction false} FramesRead(args: seq<string>, rest: string)
    ensures ReadBulks(|args|, Utf8(Frames(args)) + rest) == Some((Utf8All(args), rest))
  {
    if args == [] {
      assert Utf8(Frames(args)) + rest == rest;
    } else {
      hide Utf8, Frame, ReadBulk;
      Utf8Append(Frame(args[0]), Frames(args[1..]));
      var after := Utf8(Frames(args[1..])) + rest;
      AppendAssociates(Utf8(Frame(args[0])), Utf8(Frames(args[1..])), rest);
      BulkReads(args[0], after);
      FramesRead(args[1..], rest);
    }
  }

  function FromUtf8All(args: seq<string>): Option<seq<string>> {
    if args == [] then Some([]) else
      var (first, rest) := (FromUtf8(args[0]), FromUtf8All(args[1..]));
      if first.Some? && rest.Some? then Some([first.value] + rest.value) else None
  }

  lemma {:induction false} Utf8AllRoundTrip(args: seq<string>)
    ensures FromUtf8All(Utf8All(args)) == Some(args)
  {
    if args != [] {
      Utf8RoundTrip(args[0]);
      Utf8AllRoundTrip(args[1..]);
      assert Utf8All(args)[1..] == Utf8All(args[1..]);
      assert [args[0]] + args[1..] == args;
    }
  }

  /** The arguments of the command at the start of b, and the bytes after it. */
  function ReadArguments(b: string): Option<(seq<string>, string)> {
    var bytes := ReadCommand(b);
    if bytes.None? then None else
      var args := FromUtf8All(bytes.value.0);
      if args.None? then None else Some((args.value, bytes.value.1))
  }

  lemma CommandBytes(args: seq<string>, rest: string)
    ensures ReadCommand(Utf8(Command(args)) + rest) == Some((Utf8All(args), rest))
  {
    hide ToString, Utf8, ReadCount, Frames, ReadBulks, Utf8All;
    var h := ['*'] + ToString(|args|) + CRLF;
    assert Command(args) == h + Frames(args);
    HeaderIsAscii('*', |args|);
    Utf8Append(h, Frames(args));
    var tail := Utf8(Frames(args)) + rest;
    assert Utf8(Command(args)) + rest == ['*'] + (ToString(|args|) + CRLF + tail);
    CountReads('*', |args|, tail);
    FramesRead(args, rest);
  }

  /** Whatever the arguments contain, even line ends or characters of several bytes, the written bytes
      are read back as exactly the arguments, and nothing that follows is touched. */
  lemma CommandRoundTrip(args: seq<string>, rest: string)
    ensures ReadArguments(Utf8(Command(args)) + rest) == Some((args, rest))
  {
    CommandBytes(args, rest);
    Utf8AllRoundTrip(args);
  }

  /** So no two commands share an encoding. */
  lemma CommandInjective(a: seq<string>, b: seq<string>)
    requires Command(a) == Command(b)
    ensures a == b
  {
    CommandRoundTrip(a, []);
    CommandRoundTrip(b, []);
  }

  // ---- Responses ----

  datatype Response = Text(text: string) | Null | Thrown(message: string)

  /** s.indexOf("\r\n") */
  function IndexOfLineEnd(s: string): int {
    var line := SplitLine(s);
    if line.Some? then |line.value.0| else -1
  }

  /** s.substring(a, b): positions are clamped to the string and put in order. */
  function Substring(s: string, a: int, b: int): string {
    var (x, y) := (Clamp(a, |s|), Clamp(b, |s|));
    if x <= y then s[x..y] else s[y..x]
  }

  function Clamp(a: int, n: nat): (r: nat)
    ensures r <= n
  {
    if a < 0 then 0 else if a > n then n else a
  }

  function DigitPrefix(s: string): (d: string)
    ensures AllDigits(d)
  {
    if s != [] && IsDigit(s[0]) then [s[0]] + DigitPrefix(s[1..]) else []
  }

  /** Number.parseInt(s, 10), with None for NaN. */
  function ParseInt(s: string): Option<int> {
    var negative := s != [] && s[0] == '-';
    var d := DigitPrefix(if negative || (s != [] && s[0] == '+') then s[1..] else s);
    var n: int := Parse(d);
    if d == [] then None else Some(if negative then -n else n)
  }

  predicate StartsWith(s: string, prefix: string) {
    |s| >= |prefix| && s[..|prefix|] == prefix
  }

  function ParseResponse(raw: string): Response {
    var line := Substring(raw, 1, IndexOfLineEnd(raw));
    if StartsWith(raw, "+") then Text(line)
    else if StartsWith(raw, "-") then Thrown(line)
    else if StartsWith(raw, ":") then Text(line)
    else if StartsWith(raw, "$-1") then Null
    else if StartsWith(raw, "$") then
      var dataStart := IndexOfLineEnd(raw) + 2;
      var len := ParseInt(line);
      // A position that is not a number counts as 0.
      Text(Substring(raw, dataStart, if len.Some? then dataStart + len.value else 0))
    else Text(raw)
  }

  lemma {:induction false} DigitPrefixOfDigits(d: string)
    requires AllDigits(d)
    ensures DigitPrefix(d) == d
  {
    if d != [] {
      DigitPrefixOfDigits(d[1..]);
      assert [d[0]] + d[1..] == d;
    }
  }

  lemma NumberParses(n: nat)
    ensures ParseInt(ToString(n)) == Some(n)
  {
    DigitPrefixOfDigits(ToString(n));
    ParseToString(n);
  }

  lemma SignedNumberParses(n: nat)
    ensures var i: int := n; ParseInt("-" + ToString(n)) == Some(-i) && ParseInt("+" + ToString(n)) == Some(i)
    ensures ParseInt("") == None
  {
    hide ToString;
    DigitPrefixOfDigits(ToString(n));
    ParseToString(n);
    assert ("-" + ToString(n))[1..] == ToString(n) && ("+" + ToString(n))[1..] == ToString(n);
  }

  lemma BulkHeader(d: string, data: string)
    requires AllDigits(d) && d != []
    ensures var raw := "$" + d + CRLF + data;
            IndexOfLineEnd(raw) == |d| + 1 && Substring(raw, 1, |d| + 1) == d && raw[0] == '$' && raw[1] != '-'
  {
    var raw := "$" + d + CRLF + data;
    SplitDigits(d, data);
    assert raw[1..] == d + CRLF + data;
    assert raw[..2] == ['$', d[0]];
    assert raw[1..|d| + 1] == d;
  }

  /** What a bulk reply announcing n bytes gives: n characters of what follows, as far as they go. */
  lemma BulkReplyParses(n: nat, data: string)
    ensures ParseResponse("$" + ToString(n) + CRLF + data) == Text(data[..Min(n, |data|)])
  {
    hide ToString, IndexOfLineEnd, ParseInt;
    var d := ToString(n);
    var raw := "$" + d + CRLF + data;
    BulkHeader(d, data);
    NumberParses(n);
    var start := |d| + 3;
    assert raw[start..] == data;
    assert Substring(raw, start, start + n) == raw[start..start + Min(n, |data|)];
    assert raw[start..start + Min(n, |data|)] == data[..Min(n, |data|)];
  }

  /** The reply to a GET of s carries the byte length of s, but parseResponse counts characters: the
      value comes back, line ends included, exactly when it is ASCII. */
  lemma BulkReplyRoundTrip(s: string)
    ensures ParseResponse("$" + ToString(|Utf8(s)|) + CRLF + s + CRLF) == Text(s) <==> IsAscii(s)
  {
    var data := s + CRLF;
    Utf8Length(s);
    BulkReplyParses(|Utf8(s)|, data);
    assert "$" + ToString(|Utf8(s)|) + CRLF + s + CRLF == "$" + ToString(|Utf8(s)|) + CRLF + data;
    assert data[..|s|] == s;
    assert |data[..Min(|Utf8(s)|, |data|)]| == Min(|Utf8(s)|, |data|);
  }

  lemma LineOf(mark: char, s: string, rest: string)
    requires '\r' !in s && mark != '\r'
    ensures var raw := [mark] + s + "\r\n" + rest; Substring(raw, 1, IndexOfLineEnd(raw)) == s
  {
    SplitPlain([mark] + s, rest);
    var raw := [mark] + s + "\r\n" + rest;
    assert raw[1..|s| + 1] == s;
  }

  /** A status and an integer give the text of their line, an error throws it, and the null bulk reply
      gives null. */
  lemma LineReplies(s: string, rest: string)
    requires '\r' !in s
    ensures ParseResponse("+" + s + "\r\n" + rest) == Text(s)
    ensures ParseResponse(":" + s + "\r\n" + rest) == Text(s)
    ensures ParseResponse("-" + s + "\r\n" + rest) == Thrown(s)
    ensures ParseResponse("$-1" + rest) == Null
  {
    hide Substring, IndexOfLineEnd, ParseInt;
    LineOf('+', s, rest);
    LineOf(':', s, rest);
    LineOf('-', s, rest);
    FirstOf('+', s + "\r\n" + rest);
    FirstOf(':', s + "\r\n" + rest);
    FirstOf('-', s + "\r\n" + rest);
    assert "+" + s + "\r\n" + rest == ['+'] + (s + "\r\n" + rest);
    assert ":" + s + "\r\n" + rest == [':'] + (s + "\r\n" + rest);
    assert "-" + s + "\r\n" + rest == ['-'] + (s + "\r\n" + rest);
    assert ("$-1" + rest)[..3] == "$-1" && ("$-1" + rest)[0] == '$';
  }

  /** Which of the one-character prefixes a text starts with. */
  lemma FirstOf(mark: char, s: string)
    ensures forall c: char :: StartsWith([mark] + s, [c]) <==> c == mark
  {
    forall c: char ensures StartsWith([mark] + s, [c]) <==> c == mark {
      assert ([mark] + s)[..1] == [mark];
    }
  }

  /** A reply without a mark is given back whole. */
  lemma UnmarkedReply(raw: string)
    requires raw == [] || raw[0] !in "+-:$"
    ensures ParseResponse(raw) == Text(raw)
  {
    hide Substring, IndexOfLineEnd, ParseInt;
    if raw != [] {
      assert raw == [raw[0]] + raw[1..];
      FirstOf(raw[0], raw[1..]);
      assert forall p: string :: p != [] && StartsWith(raw, p) ==> raw[..|p|][0] == p[0];
    }
  }

  /** A command on the wire. */
  lemma GetCommand()
    ensures Command(["GET", "k"]) == "*2\r\n$3\r\nGET\r\n$1\r\nk\r\n"
  {
    SmallNumerals();
    Utf8Length("GET");
    Utf8Length("k");
    hide ToString, Utf8;
    assert Frame("GET") == "$3\r\nGET\r\n" && Frame("k") == "$1\r\nk\r\n";
    assert ["GET", "k"][1..] == ["k"] && ["k"][1..] == [];
    assert Frames(["k"]) == Frame("k") + [];
  }

  lemma SmallNumerals()
    ensures ToString(1) == "1" && ToString(2) == "2" && ToString(3) == "3"
  {
  }
}
