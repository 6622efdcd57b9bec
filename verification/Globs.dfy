/**
 Glob patterns and the regular expressions they are rewritten to. A regular expression without flags
 works on UTF-16 code units, so strings stand for those whose characters are one code unit each: all
 of them up to U+FFFF, surrogates excepted.
 */
module Globs {
  import opened Base

  // ---- Meaning of a glob ----

  predicate IsLineTerminator(c: char) {
    c == '\n' || c == '\r' || c == '\U{2028}' || c == '\U{2029}'
  }

  /** Whether the glob p matches all of k, where * and ? stand for characters that satisfy wild. */
  predicate GlobMatches(p: string, k: string, wild: char -> bool)
    decreases |p| + |k|
  {
    if p == [] then k == []
    else if p[0] == '*' then
      GlobMatches(p[1..], k, wild) || (k != [] && wild(k[0]) && GlobMatches(p, k[1..], wild))
    else
      k != [] && (if p[0] == '?' then wild(k[0]) else p[0] == k[0]) && GlobMatches(p[1..], k[1..], wild)
  }

  /** A plain glob: * matches any characters and ? any one character. */
  predicate Glob(p: string, k: string) {
    GlobMatches(p, k, _ => true)
  }

  /** A glob whose wildcards stop at line terminators. */
  predicate LineGlob(p: string, k: string) {
    GlobMatches(p, k, c => !IsLineTerminator(c))
  }

  // ---- Meaning of a regular expression ----

  datatype Atom = Any | Literal(c: char)

  datatype Item = One(atom: Atom) | Many(atom: Atom)

  /** The characters that stand for something other than themselves in a regular expression. */
  predicate IsSyntaxCharacter(c: char) {
    c in "^$\\.*+?()[]{}|"
  }

  predicate IsQuantifier(c: char) {
    c in "*+?{"
  }

  predicate IsAlphanumeric(c: char) {
    '0' <= c <= '9' || 'A' <= c <= 'Z' || 'a' <= c <= 'z' || c == '_'
  }

  /** The expressions made of literals, identity escapes and dots, each perhaps starred; None for
      anything else in the grammar of regular expressions. */
  function Parse(s: string): Option<seq<Item>>
    decreases |s|, 0
  {
    if s == [] then Some([])
    else if s[0] == '\\' then
      if |s| < 2 || IsAlphanumeric(s[1]) then None else ParseRest(Literal(s[1]), s[2..])
    else if s[0] == '.' then ParseRest(Any, s[1..])
    else if IsSyntaxCharacter(s[0]) then None
    else ParseRest(Literal(s[0]), s[1..])
  }

  function ParseRest(a: Atom, s: string): Option<seq<Item>>
    decreases |s|, 1
  {
    if s == [] || !IsQuantifier(s[0]) then Prepend(One(a), Parse(s))
    else if s[0] == '*' && (|s| == 1 || !IsQuantifier(s[1])) then Prepend(Many(a), Parse(s[1..]))
    else None
  }

  function Prepend(i: Item, rest: Option<seq<Item>>): Option<seq<Item>> {
    if rest.Some? then Some([i] + rest.value) else None
  }

  /** A dot does not match a line terminator. */
  predicate AtomMatches(a: Atom, c: char) {
    match a case Any => !IsLineTerminator(c) case Literal(d) => c == d
  }

  predicate ItemsMatch(items: seq<Item>, k: string)
    decreases |items| + |k|
  {
    if items == [] then k == []
    else match items[0]
      case One(a) => k != [] && AtomMatches(a, k[0]) && ItemsMatch(items[1..], k[1..])
      case Many(a) => ItemsMatch(items[1..], k) || (k != [] && AtomMatches(a, k[0]) && ItemsMatch(items, k[1..]))
  }

  /** new RegExp(`^${s}$`).test(k), for the expressions that Parse knows. */
  predicate RegexTest(s: string, k: string) {
    Parse(s).Some? && ItemsMatch(Parse(s).value, k)
  }

  // ---- The three passes ----

  /** The characters that the first pass escapes. */
  predicate IsSpecial(c: char) {
    c in ".+^${}()|[]\\"
  }

  function EscapePass(p: string): string {
    if p == [] then [] else (if IsSpecial(p[0]) then ['\\', p[0]] else [p[0]]) + EscapePass(p[1..])
  }

  function StarPass(p: string): string {
    if p == [] then [] else (if p[0] == '*' then ".*" else [p[0]]) + StarPass(p[1..])
  }

  function QuestionPass(p: string): string {
    if p == [] then [] else (if p[0] == '?' then "." else [p[0]]) + QuestionPass(p[1..])
  }

  function GlobToRegex(p: string): string {
    QuestionPass(StarPass(EscapePass(p)))
  }

  // ---- The rewrite preserves meaning ----

  /** What the three passes together make of one character. */
  function Piece(c: char): string {
    if c == '*' then ".*" else if c == '?' then "." else if IsSpecial(c) then ['\\', c] else [c]
  }

  lemma StarPassUnfold(c: char, s: string)
    ensures StarPass([c] + s) == (if c == '*' then ".*" else [c]) + StarPass(s)
  {
    assert ([c] + s)[1..] == s;
  }

  lemma QuestionPassUnfold(c: char, s: string)
    ensures QuestionPass([c] + s) == (if c == '?' then "." else [c]) + QuestionPass(s)
  {
    assert ([c] + s)[1..] == s;
  }

  lemma EscapePassUnfold(p: string)
    requires p != []
    ensures EscapePass(p) == if IsSpecial(p[0]) then ['\\'] + ([p[0]] + EscapePass(p[1..])) else [p[0]] + EscapePass(p[1..])
  {
  }

  /** The passes work character by character. */
  lemma RewriteUnfold(p: string)
    requires p != []
    ensures GlobToRegex(p) == Piece(p[0]) + GlobToRegex(p[1..])
  {
    hide EscapePass, StarPass, QuestionPass;
    var (c, e) := (p[0], EscapePass(p[1..]));
    var s := StarPass(e);
    EscapePassUnfold(p);
    StarPassUnfold(c, e);
    if IsSpecial(c) {
      StarPassUnfold('\\', [c] + e);
      QuestionPassUnfold('\\', [c] + s);
      QuestionPassUnfold(c, s);
      assert ['\\'] + ([c] + QuestionPass(s)) == ['\\', c] + QuestionPass(s);
    } else if c == '*' {
      assert ".*" + s == ['.'] + (['*'] + s);
      QuestionPassUnfold('.', ['*'] + s);
      QuestionPassUnfold('*', s);
      assert ['.'] + (['*'] + QuestionPass(s)) == ".*" + QuestionPass(s);
    } else {
      QuestionPassUnfold(c, s);
    }
  }

  /** The regular-expression item a character of a glob means. */
  function ItemOf(c: char): Item {
    if c == '*' then Many(Any) else if c == '?' then One(Any) else One(Literal(c))
  }

  function ItemsOf(p: string): seq<Item> {
    if p == [] then [] else [ItemOf(p[0])] + ItemsOf(p[1..])
  }

  lemma ParsePiece(c: char, rest: string)
    requires (rest == [] || !IsQuantifier(rest[0])) && Parse(rest).Some?
    ensures Parse(Piece(c) + rest) == Some([ItemOf(c)] + Parse(rest).value)
  {
    var r := Piece(c) + rest;
    if c == '*' {
      assert r[1..] == ['*'] + rest && r[1..][1..] == rest;
    } else if c != '?' && IsSpecial(c) {
      assert r[2..] == rest;
    } else {
      assert r[1..] == rest;
    }
  }

  lemma RewriteStart(p: string)
    ensures GlobToRegex(p) != [] ==> !IsQuantifier(GlobToRegex(p)[0])
  {
    if p != [] {
      RewriteUnfold(p);
    }
  }

  lemma {:induction false} RewriteParses(p: string)
    ensures Parse(GlobToRegex(p)) == Some(ItemsOf(p))
  {
    hide GlobToRegex, Piece, ItemOf, IsQuantifier;
    if p == [] {
      NothingParses();
    } else {
      hide Parse;
      RewriteUnfold(p);
      RewriteParses(p[1..]);
      RewriteStart(p[1..]);
      ParsePiece(p[0], GlobToRegex(p[1..]));
    }
  }

  lemma NothingParses()
    ensures Parse(GlobToRegex([])) == Some([])
  {
  }

  lemma {:induction false} ItemsMeanGlob(p: string, k: string)
    ensures ItemsMatch(ItemsOf(p), k) <==> GlobMatches(p, k, c => !IsLineTerminator(c))
    decreases |p| + |k|
  {
    if p != [] {
      var items := ItemsOf(p);
      assert items[1..] == ItemsOf(p[1..]);
      if p[0] == '*' {
        ItemsMeanGlob(p[1..], k);
        if k != [] {
          ItemsMeanGlob(p, k[1..]);
        }
      } else if k != [] {
        ItemsMeanGlob(p[1..], k[1..]);
      }
    }
  }

  lemma {:induction false} WildOnKey(p: string, k: string, wild: char -> bool)
    requires forall i :: 0 <= i < |k| ==> wild(k[i])
    ensures GlobMatches(p, k, wild) <==> Glob(p, k)
    decreases |p| + |k|
  {
    if p != [] {
      if p[0] == '*' {
        WildOnKey(p[1..], k, wild);
        if k != [] {
          WildOnKey(p, k[1..], wild);
        }
      } else if k != [] {
        WildOnKey(p[1..], k[1..], wild);
      }
    }
  }

  /** For every pattern and key, the rewritten expression matches exactly when the glob does with
      wildcards that stop at line terminators. */
  lemma RewritePreservesMeaning(p: string, k: string)
    ensures RegexTest(GlobToRegex(p), k) <==> LineGlob(p, k)
    ensures (forall i :: 0 <= i < |k| ==> !IsLineTerminator(k[i])) ==> (RegexTest(GlobToRegex(p), k) <==> Glob(p, k))
  {
    RewriteParses(p);
    ItemsMeanGlob(p, k);
    if forall i :: 0 <= i < |k| ==> !IsLineTerminator(k[i]) {
      WildOnKey(p, k, c => !IsLineTerminator(c));
    }
  }

  /** Without the proviso the two differ: "*" matches every key as a glob, but as an expression
      exactly the keys without a line terminator. */
  lemma StarStopsAtLines(k: string)
    ensures Glob("*", k)
    ensures RegexTest(GlobToRegex("*"), k) <==> forall i :: 0 <= i < |k| ==> !IsLineTerminator(k[i])
  {
    RewritePreservesMeaning("*", k);
    StarMatches(k, _ => true);
    StarMatches(k, c => !IsLineTerminator(c));
  }

  lemma {:induction false} StarMatches(k: string, wild: char -> bool)
    ensures GlobMatches("*", k, wild) <==> forall i :: 0 <= i < |k| ==> wild(k[i])
  {
    assert "*"[1..] == [];
    if k != [] {
      StarMatches(k[1..], wild);
      assert forall i :: 0 < i < |k| ==> k[i] == k[1..][i - 1];
    }
  }

  /** A question mark matches exactly the strings of one character that is not one of the four line
      terminators. */
  lemma QuestionMatchesOne(k: string)
    ensures RegexTest(GlobToRegex("?"), k) <==> |k| == 1 && k[0] != '\n' && k[0] != '\r' && k[0] != '\U{2028}' && k[0] != '\U{2029}'
    ensures Glob("?", k) <==> |k| == 1
  {
    RewritePreservesMeaning("?", k);
    QuestionMatches(k, _ => true);
    QuestionMatches(k, c => !IsLineTerminator(c));
  }

  lemma QuestionMatches(k: string, wild: char -> bool)
    ensures GlobMatches("?", k, wild) <==> |k| == 1 && wild(k[0])
  {
    assert "?"[1..] == [];
    if k != [] {
      assert GlobMatches([], k[1..], wild) <==> k[1..] == [];
    }
  }
}
