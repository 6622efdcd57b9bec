/** Cursor pagination of the user list, newest first. */
module Pagination {
  import opened Base

  datatype User = User(id: string, email: string, role: string, createdAt: int)

  /** What decodeCursor and Number make of a cursor text. btoa and atob undo each other, so the cursor
      encoded for a timestamp is At of it. */
  datatype Cursor = Undecodable | NotANumber | At(createdAt: int)

  /** A search text, and what toLowerCase makes of it. */
  datatype Search = Search(text: string, lower: string)

  datatype ListOptions = ListOptions(cursor: Option<Cursor>, role: Option<string>, search: Option<Search>, limit: int)

  datatype Page = Page(items: seq<User>, nextCursor: Option<Cursor>, hasMore: bool)

  // ---- Conditions and order ----

  /** A comparison with NaN holds of nobody. */
  datatype Condition = CreatedBefore(createdAt: int) | Nobody | RoleIs(role: string) | EmailIncludes(text: string)
    | EmailLike(pattern: string)

  predicate Holds(c: Condition, u: User) {
    match c
    case CreatedBefore(t) => u.createdAt < t
    case Nobody => false
    case RoleIs(role) => u.role == role
    case EmailIncludes(text) => Includes(u.email, text)
    case EmailLike(pattern) => Like(pattern, u.email)
  }

  predicate Includes(s: string, t: string) {
    exists i :: 0 <= i <= |s| - |t| && IsAt(s, t, i)
  }

  predicate IsAt(s: string, t: string, i: nat)
    requires i + |t| <= |s|
  {
    s[i..i + |t|] == t
  }

  /** ASCII letters only, as in SQLite. */
  function LowerChar(c: char): char {
    if 'A' <= c <= 'Z' then c - 'A' + 'a' else c
  }

  function LowerCase(s: string): (r: string)
    ensures |r| == |s|
  {
    seq(|s|, i requires 0 <= i < |s| => LowerChar(s[i]))
  }

  /** SQLite's LIKE: % stands for any characters, _ for any one, and case does not count. */
  predicate Like(p: string, s: string)
    decreases |p| + |s|
  {
    if p == [] then s == []
    else if p[0] == '%' then Like(p[1..], s) || (s != [] && Like(p, s[1..]))
    else s != [] && (p[0] == '_' || LowerChar(p[0]) == LowerChar(s[0])) && Like(p[1..], s[1..])
  }

  /** An undecodable cursor is ignored. */
  function CursorConditions(o: ListOptions): seq<Condition> {
    if o.cursor.None? then [] else
      match o.cursor.value
      case Undecodable => []
      case NotANumber => [Nobody]
      case At(t) => [CreatedBefore(t)]
  }

  function OtherConditions(o: ListOptions): seq<Condition> {
    (if o.role.Some? then [RoleIs(o.role.value)] else [])
    + (if o.search.Some? then [EmailIncludes(o.search.value.lower)] else [])
  }

  /** The WHERE clause of the SQLite repository. */
  function SqliteConditions(o: ListOptions): seq<Condition> {
    CursorConditions(o)
    + ((if o.role.Some? then [RoleIs(o.role.value)] else [])
       + (if o.search.Some? then [EmailLike("%" + o.search.value.text + "%")] else []))
  }

  predicate Keeps(cs: seq<Condition>, u: User) {
    forall i :: 0 <= i < |cs| ==> Holds(cs[i], u)
  }

  function Filter(s: seq<User>, cs: seq<Condition>): seq<User> {
    if s == [] then []
    else if Keeps(cs, s[0]) then [s[0]] + Filter(s[1..], cs)
    else Filter(s[1..], cs)
  }

  /** The stable sort by descending createdAt. */
  function Sorted(s: seq<User>): seq<User> {
    if s == [] then [] else Insert(s[0], Sorted(s[1..]))
  }

  function Insert(u: User, s: seq<User>): seq<User> {
    if s == [] || u.createdAt >= s[0].createdAt then [u] + s else [s[0]] + Insert(u, s[1..])
  }

  predicate Descending(s: seq<User>) {
    forall i, j :: 0 <= i < j < |s| ==> s[i].createdAt >= s[j].createdAt
  }

  predicate DistinctTimes(s: seq<User>) {
    forall i, j :: 0 <= i < j < |s| ==> s[i].createdAt != s[j].createdAt
  }

  // ---- One page ----

  /** The whole list, apart from the cursor. */
  function Listed(store: seq<User>, o: ListOptions): seq<User> {
    Filter(Sorted(store), OtherConditions(o))
  }

  /** What the cursor leaves of it. */
  function Remaining(store: seq<User>, o: ListOptions): seq<User> {
    Filter(Listed(store, o), CursorConditions(o))
  }

  /** s.slice(0, end): a negative end counts from the back. */
  function Slice<T>(s: seq<T>, end: int): seq<T> {
    if end >= 0 then s[..Min(end, |s|)] else if |s| + end >= 0 then s[..|s| + end] else []
  }

  /** The first limit entries, and the cursor after them if there are more. */
  function FirstPage(rest: seq<User>, limit: int): Page {
    var items := Slice(rest, limit);
    if |rest| <= limit then Page(rest, None, false)
    else Page(items, if items != [] then Some(At(items[|items| - 1].createdAt)) else None, true)
  }

  function PageLimit(o: ListOptions): int {
    Min(o.limit, 100)
  }

  function PageOf(store: seq<User>, o: ListOptions): Page {
    FirstPage(Remaining(store, o), PageLimit(o))
  }

  class InMemoryUserRepository {
    /** The values of the store in insertion order. */
    var store: seq<User>

    constructor ()
      ensures store == []
    {
      store := [];
    }

    method List(o: ListOptions) returns (p: Page)
      ensures p == PageOf(store, o)
    {
      hide Filter, Sorted, LowerCase, Remaining, Listed, OtherConditions, CursorConditions;
      var users := Sorted(store);
      if o.cursor.Some? {
        match o.cursor.value {
          case Undecodable =>
          case NotANumber => users := Filter(users, [Nobody]);
          case At(ts) => users := Filter(users, [CreatedBefore(ts)]);
        }
      }
      ghost var below := users;
      if o.role.Some? {
        users := Filter(users, [RoleIs(o.role.value)]);
      }
      ghost var ofRole := users;
      if o.search.Some? {
        var q := o.search.value.lower;
        users := Filter(users, [EmailIncludes(q)]);
      }
      CursorStep(Sorted(store), below, o);
      FilterSteps(below, ofRole, users, o);
      FilterBoth(Sorted(store), CursorConditions(o), OtherConditions(o));
      RemainingIs(store, o, users);
      var limit := Min(o.limit, 100);
      var hasMore := |users| > limit;
      var items := Slice(users, limit);
      var nextCursor := if hasMore && items != [] then Some(At(items[|items| - 1].createdAt)) else None;
      p := Page(items, nextCursor, hasMore);
    }
  }

  lemma {:induction false} FilterNone(s: seq<User>)
    ensures Filter(s, []) == s
  {
    if s != [] {
      FilterNone(s[1..]);
    }
  }

  lemma KeepsAppend(a: seq<Condition>, b: seq<Condition>, u: User)
    ensures Keeps(a + b, u) <==> Keeps(a, u) && Keeps(b, u)
  {
    if Keeps(a + b, u) {
      forall i | 0 <= i < |a| ensures Holds(a[i], u) { assert (a + b)[i] == a[i]; }
      forall i | 0 <= i < |b| ensures Holds(b[i], u) { assert (a + b)[|a| + i] == b[i]; }
    }
  }

  lemma {:induction false} FilterAppend(s: seq<User>, a: seq<Condition>, b: seq<Condition>)
    ensures Filter(Filter(s, a), b) == Filter(s, a + b)
  {
    if s != [] {
      FilterAppend(s[1..], a, b);
      KeepsAppend(a, b, s[0]);
      if Keeps(a, s[0]) {
        assert Filter(s, a)[1..] == Filter(s[1..], a);
      }
    }
  }

  /** Filters commute. */
  lemma FilterBoth(s: seq<User>, a: seq<Condition>, b: seq<Condition>)
    ensures Filter(Filter(s, a), b) == Filter(Filter(s, b), a)
  {
    FilterAppend(s, a, b);
    FilterAppend(s, b, a);
    FilterSwap(s, a, b);
  }

  lemma {:induction false} FilterSwap(s: seq<User>, a: seq<Condition>, b: seq<Condition>)
    ensures Filter(s, a + b) == Filter(s, b + a)
  {
    if s != [] {
      FilterSwap(s[1..], a, b);
      KeepsAppend(a, b, s[0]);
      KeepsAppend(b, a, s[0]);
    }
  }

  lemma CursorStep(sorted: seq<User>, below: seq<User>, o: ListOptions)
    requires below == if o.cursor.None? || o.cursor.value.Undecodable? then sorted
                      else if o.cursor.value.NotANumber? then Filter(sorted, [Nobody])
                      else Filter(sorted, [CreatedBefore(o.cursor.value.createdAt)])
    ensures below == Filter(sorted, CursorConditions(o))
  {
    FilterNone(sorted);
  }

  lemma RemainingIs(store: seq<User>, o: ListOptions, users: seq<User>)
    requires users == Filter(Filter(Sorted(store), OtherConditions(o)), CursorConditions(o))
    ensures users == Remaining(store, o)
  {
  }

  lemma FilterSteps(below: seq<User>, ofRole: seq<User>, users: seq<User>, o: ListOptions)
    requires ofRole == if o.role.Some? then Filter(below, [RoleIs(o.role.value)]) else below
    requires users == if o.search.Some? then Filter(ofRole, [EmailIncludes(o.search.value.lower)]) else ofRole
    ensures users == Filter(below, OtherConditions(o))
  {
    var r := if o.role.Some? then [RoleIs(o.role.value)] else [];
    var q := if o.search.Some? then [EmailIncludes(o.search.value.lower)] else [];
    FilterNone(below);
    FilterNone(ofRole);
    assert ofRole == Filter(below, r) && users == Filter(ofRole, q);
    FilterAppend(below, r, q);
  }

  // ---- The SQLite form of a page ----

  /** What ORDER BY created_at DESC may answer: the rows that meet the conditions, newest first, with
      ties in any order. */
  ghost predicate Answers(selected: seq<User>, rows: seq<User>, cs: seq<Condition>) {
    Descending(selected) && multiset(selected) == multiset(Filter(rows, cs))
  }

  /** LIMIT n, where a negative n is no limit. */
  function Limited<T>(s: seq<T>, n: int): seq<T> {
    if n < 0 then s else s[..Min(n, |s|)]
  }

  /** The page built from LIMIT limit + 1. */
  function SqlitePage(selected: seq<User>, limit: int): Page {
    var rows := Limited(selected, limit + 1);
    var hasMore := |rows| > limit;
    var items := if hasMore then Slice(rows, limit) else rows;
    Page(items, if hasMore && items != [] then Some(At(items[|items| - 1].createdAt)) else None, hasMore)
  }

  lemma {:induction false} InsertContents(u: User, s: seq<User>)
    ensures multiset(Insert(u, s)) == multiset(s) + multiset{u}
  {
    if s != [] && u.createdAt < s[0].createdAt {
      InsertContents(u, s[1..]);
      assert s == [s[0]] + s[1..];
    }
  }

  lemma {:induction false} InsertKeeps(u: User, s: seq<User>)
    requires Descending(s)
    ensures Descending(Insert(u, s))
  {
    if s != [] && u.createdAt < s[0].createdAt {
      InsertKeeps(u, s[1..]);
      var t := Insert(u, s[1..]);
      forall i | 0 <= i < |t| ensures s[0].createdAt >= t[i].createdAt {
        InsertContents(u, s[1..]);
        assert t[i] in multiset(t);
        assert t[i] == u || t[i] in s[1..];
      }
    }
  }

  lemma {:induction false} SortedKeeps(s: seq<User>)
    ensures multiset(Sorted(s)) == multiset(s) && Descending(Sorted(s))
  {
    if s != [] {
      SortedKeeps(s[1..]);
      InsertContents(s[0], Sorted(s[1..]));
      InsertKeeps(s[0], Sorted(s[1..]));
      assert s == [s[0]] + s[1..];
    }
  }

  lemma {:induction false} FilterInsert(u: User, s: seq<User>, cs: seq<Condition>)
    requires Descending(s)
    ensures Filter(Insert(u, s), cs) == if Keeps(cs, u) then Insert(u, Filter(s, cs)) else Filter(s, cs)
  {
    if s == [] || u.createdAt >= s[0].createdAt {
      assert ([u] + s)[1..] == s;
      FilterHead(s, cs);
    } else {
      FilterInsert(u, s[1..], cs);
      var t := [s[0]] + Insert(u, s[1..]);
      assert t[1..] == Insert(u, s[1..]);
      if Keeps(cs, s[0]) {
        assert Filter(s, cs)[1..] == Filter(s[1..], cs);
      }
    }
  }

  lemma FilterHead(s: seq<User>, cs: seq<Condition>)
    requires Descending(s)
    ensures Filter(s, cs) != [] ==> s != [] && Filter(s, cs)[0].createdAt <= s[0].createdAt
  {
    if Filter(s, cs) != [] {
      FilterMembers(s, cs);
      assert Filter(s, cs)[0] in s;
    }
  }

  lemma {:induction false} FilterMembers(s: seq<User>, cs: seq<Condition>)
    ensures forall u :: u in Filter(s, cs) <==> u in s && Keeps(cs, u)
  {
    if s != [] {
      FilterMembers(s[1..], cs);
    }
  }

  /** Filtering before or after sorting makes no difference. */
  lemma {:induction false} FilterSorted(s: seq<User>, cs: seq<Condition>)
    ensures Filter(Sorted(s), cs) == Sorted(Filter(s, cs))
  {
    if s != [] {
      FilterSorted(s[1..], cs);
      SortedKeeps(s[1..]);
      FilterInsert(s[0], Sorted(s[1..]), cs);
      if Keeps(cs, s[0]) {
        assert Filter(s, cs)[1..] == Filter(s[1..], cs);
      }
    }
  }

  lemma HeadsAgree(a: seq<User>, b: seq<User>)
    requires Descending(a) && Descending(b) && multiset(a) == multiset(b) && DistinctTimes(b) && a != []
    ensures b != [] && a[0] == b[0]
  {
    assert a[0] in multiset(b);
    assert b[0] in multiset(a);
    var i :| 0 <= i < |b| && b[i] == a[0];
    var j :| 0 <= j < |a| && a[j] == b[0];
  }

  lemma TailsAgree(a: seq<User>, b: seq<User>)
    requires multiset(a) == multiset(b) && a != [] && b != [] && a[0] == b[0]
    ensures multiset(a[1..]) == multiset(b[1..])
  {
    assert a == [a[0]] + a[1..] && b == [b[0]] + b[1..];
    assert multiset(a[1..]) == multiset(a) - multiset{a[0]};
    assert multiset(b[1..]) == multiset(b) - multiset{b[0]};
  }

  /** With distinct timestamps there is only one order. */
  lemma {:induction false} OnlyOneOrder(a: seq<User>, b: seq<User>)
    requires Descending(a) && Descending(b) && multiset(a) == multiset(b) && DistinctTimes(b)
    ensures a == b
  {
    if a == [] {
      assert |multiset(b)| == 0;
    } else {
      HeadsAgree(a, b);
      TailsAgree(a, b);
      OnlyOneOrder(a[1..], b[1..]);
    }
  }

  lemma {:induction false} FilterDescending(s: seq<User>, cs: seq<Condition>)
    requires Descending(s)
    ensures Descending(Filter(s, cs))
  {
    if s != [] {
      FilterDescending(s[1..], cs);
      var t := Filter(s[1..], cs);
      forall i | 0 <= i < |t| ensures s[0].createdAt >= t[i].createdAt {
        FilterMembers(s[1..], cs);
        assert t[i] in s[1..];
      }
    }
  }

  lemma {:induction false} FilterDistinct(s: seq<User>, cs: seq<Condition>)
    requires DistinctTimes(s)
    ensures DistinctTimes(Filter(s, cs))
  {
    if s != [] {
      FilterDistinct(s[1..], cs);
      var t := Filter(s[1..], cs);
      forall i | 0 <= i < |t| ensures s[0].createdAt != t[i].createdAt {
        FilterMembers(s[1..], cs);
        assert t[i] in s[1..];
      }
    }
  }

  lemma {:induction false} InsertDistinct(u: User, s: seq<User>)
    requires DistinctTimes(s) && forall i :: 0 <= i < |s| ==> s[i].createdAt != u.createdAt
    ensures DistinctTimes(Insert(u, s))
  {
    if s != [] && u.createdAt < s[0].createdAt {
      InsertDistinct(u, s[1..]);
      InsertContents(u, s[1..]);
      var t := Insert(u, s[1..]);
      forall i | 0 <= i < |t| ensures s[0].createdAt != t[i].createdAt {
        assert t[i] in multiset(t);
        assert t[i] == u || t[i] in s[1..];
      }
    }
  }

  lemma {:induction false} SortedDistinct(s: seq<User>)
    requires DistinctTimes(s)
    ensures DistinctTimes(Sorted(s))
  {
    if s != [] {
      SortedDistinct(s[1..]);
      SortedKeeps(s[1..]);
      var t := Sorted(s[1..]);
      forall i | 0 <= i < |t| ensures t[i].createdAt != s[0].createdAt {
        assert t[i] in multiset(t);
        assert t[i] in s[1..];
      }
      InsertDistinct(s[0], t);
    }
  }

  /** One row more than the limit is enough to build the page, for every limit but -1, where that is no
      row at all. */
  lemma FirstPageFromOneMore(selected: seq<User>, limit: int)
    ensures SqlitePage(selected, limit) == FirstPage(selected, limit) <==> limit != -1 || |selected| <= 1
  {
    if limit >= 0 {
      var rows := selected[..Min(limit + 1, |selected|)];
      if |selected| <= limit {
        assert rows == selected;
      } else {
        assert rows[..limit] == selected[..limit];
      }
    }
  }

  // ---- LIKE against includes ----

  predicate NoWildcard(t: string) {
    '%' !in t && '_' !in t
  }

  lemma {:induction false} LikeAnything(s: string)
    ensures Like("%", s)
  {
    if s != [] {
      LikeAnything(s[1..]);
    }
  }

  lemma {:induction false} LikeSomewhere(p: string, s: string)
    ensures Like(['%'] + p, s) <==> exists i :: 0 <= i <= |s| && Like(p, s[i..])
    decreases |s|
  {
    assert (['%'] + p)[1..] == p && s[0..] == s;
    if s != [] {
      LikeSomewhere(p, s[1..]);
      if Like(['%'] + p, s[1..]) {
        var i :| 0 <= i <= |s[1..]| && Like(p, s[1..][i..]);
        assert s[i + 1..] == s[1..][i..];
      }
      if i :| 0 < i <= |s| && Like(p, s[i..]) {
        assert s[1..][i - 1..] == s[i..];
      }
    }
  }

  /** A text without wildcards and then a % match what begins with the text, in either case. */
  lemma {:induction false} LikePrefix(t: string, s: string)
    requires NoWildcard(t)
    ensures Like(t + "%", s) <==> |t| <= |s| && LowerCase(s[..|t|]) == LowerCase(t)
  {
    if t == [] {
      assert t + "%" == "%";
      LikeAnything(s);
    } else {
      assert (t + "%")[1..] == t[1..] + "%" && t[0] in t;
      if s != [] {
        LikePrefix(t[1..], s[1..]);
        if |t| <= |s| {
          assert s[..|t|] == [s[0]] + s[1..][..|t| - 1] && t == [t[0]] + t[1..];
          LowerCons(s[0], s[1..][..|t| - 1]);
          LowerCons(t[0], t[1..]);
          SameCons(LowerChar(s[0]), LowerCase(s[1..][..|t| - 1]), LowerChar(t[0]), LowerCase(t[1..]));
        }
      }
    }
  }

  lemma LowerCons(c: char, s: string)
    ensures LowerCase([c] + s) == [LowerChar(c)] + LowerCase(s)
  {
  }

  lemma SameCons(c: char, s: string, d: char, t: string)
    ensures [c] + s == [d] + t <==> c == d && s == t
  {
    if [c] + s == [d] + t {
      assert ([c] + s)[0] == ([d] + t)[0] && ([c] + s)[1..] == s && ([d] + t)[1..] == t;
    }
  }

  predicate IsLowerCase(s: string) {
    LowerCase(s) == s
  }

  lemma LowerPart(s: string, i: nat, n: nat)
    requires IsLowerCase(s) && i + n <= |s|
    ensures LowerCase(s[i..i + n]) == s[i..i + n]
  {
    var part := s[i..i + n];
    forall k | 0 <= k < n ensures LowerChar(part[k]) == part[k] {
      assert LowerCase(s)[i + k] == LowerChar(s[i + k]);
    }
  }

  /** On lower-case emails a pattern around a text without wildcards selects what includes the text in
      lower case. */
  lemma LikeIsIncludes(t: string, e: string)
    requires NoWildcard(t) && IsLowerCase(e)
    ensures Like("%" + t + "%", e) <==> Includes(e, LowerCase(t))
  {
    hide Like, LowerCase, NoWildcard, IsLowerCase;
    assert "%" + t + "%" == ['%'] + (t + "%");
    LikeSomewhere(t + "%", e);
    forall i | 0 <= i <= |e|
      ensures Like(t + "%", e[i..]) <==> i <= |e| - |t| && IsAt(e, LowerCase(t), i) {
      LikePrefix(t, e[i..]);
      if i + |t| <= |e| {
        LowerPart(e, i, |t|);
        assert e[i..][..|t|] == e[i..i + |t|];
      }
    }
  }

  /** The text with its wildcards replaced by a letter, in lower case. */
  function Filled(t: string): (r: string)
    ensures |r| == |t|
  {
    seq(|t|, i requires 0 <= i < |t| => if t[i] == '%' || t[i] == '_' then 'x' else LowerChar(t[i]))
  }

  lemma {:induction false} LikeFilled(t: string)
    ensures Like(t + "%", Filled(t))
  {
    if t == [] {
      assert t + "%" == "%";
      LikeAnything([]);
    } else {
      LikeFilled(t[1..]);
      var (p, e) := (t + "%", Filled(t));
      assert p[1..] == t[1..] + "%" && e[1..] == Filled(t[1..]);
    }
  }

  lemma WildcardOverselects(t: string)
    requires !NoWildcard(t)
    ensures IsLowerCase(Filled(t)) && Like("%" + t + "%", Filled(t)) && !Includes(Filled(t), LowerCase(t))
  {
    var e := Filled(t);
    assert IsLowerCase(e);
    LikeFilled(t);
    assert "%" + t + "%" == ['%'] + (t + "%") && e[0..] == e;
    LikeSomewhere(t + "%", e);
    var k :| 0 <= k < |t| && (t[k] == '%' || t[k] == '_');
    assert e[k] == 'x' && LowerCase(t)[k] == t[k];
    assert e[0..0 + |t|] == e && !IsAt(e, LowerCase(t), 0);
  }

  /** The two searches agree on all lower-case emails exactly when the text has no wildcard. */
  lemma SearchAgreesExactly(t: string)
    ensures (forall e :: IsLowerCase(e) ==> (Like("%" + t + "%", e) <==> Includes(e, LowerCase(t)))) <==> NoWildcard(t)
  {
    hide Like, Includes, LowerCase, NoWildcard, IsLowerCase;
    if NoWildcard(t) {
      forall e | IsLowerCase(e) ensures Like("%" + t + "%", e) <==> Includes(e, LowerCase(t)) {
        LikeIsIncludes(t, e);
      }
    } else {
      WildcardOverselects(t);
    }
  }

  /** The case of ASCII letters does not count in LIKE. */
  lemma LikeIgnoresCase(c: char, d: char)
    requires 'a' <= c <= 'z' && 'A' <= d <= 'Z' && c - 'a' == d - 'A'
    ensures LowerChar(c) == LowerChar(d) == c && Like([c], [d]) && Like([d], [c])
  {
    assert [c][1..] == [] && [d][1..] == [];
  }

  // ---- Equal pages ----

  /** No search, or one of a text without wildcards that toLowerCase changes in ASCII letters only, on
      lower-case emails. */
  predicate PlainSearch(o: ListOptions, rows: seq<User>) {
    o.search.Some? ==>
      && NoWildcard(o.search.value.text) && o.search.value.lower == LowerCase(o.search.value.text)
      && forall i :: 0 <= i < |rows| ==> IsLowerCase(rows[i].email)
  }

  lemma {:induction false} SameConditions(rows: seq<User>, a: seq<Condition>, b: seq<Condition>)
    requires forall i :: 0 <= i < |rows| ==> (Keeps(a, rows[i]) <==> Keeps(b, rows[i]))
    ensures Filter(rows, a) == Filter(rows, b)
  {
    hide Keeps;
    if rows != [] {
      SameConditions(rows[1..], a, b);
    }
  }

  lemma PlainSearchKeeps(o: ListOptions, rows: seq<User>, u: User)
    requires PlainSearch(o, rows) && u in rows
    ensures Keeps(SqliteConditions(o), u) <==> Keeps(CursorConditions(o) + OtherConditions(o), u)
  {
    hide Like, Includes, LowerCase, NoWildcard, IsLowerCase;
    var role := if o.role.Some? then [RoleIs(o.role.value)] else [];
    KeepsAppend(CursorConditions(o), OtherConditions(o), u);
    if o.search.Some? {
      var like := [EmailLike("%" + o.search.value.text + "%")];
      var includes := [EmailIncludes(o.search.value.lower)];
      LikeIsIncludes(o.search.value.text, u.email);
      KeepsAppend(CursorConditions(o), role + like, u);
      KeepsAppend(role, like, u);
      KeepsAppend(role, includes, u);
      assert Holds(like[0], u) <==> Holds(includes[0], u);
    } else {
      assert SqliteConditions(o) == CursorConditions(o) + (role + []);
      assert OtherConditions(o) == role + [];
    }
  }

  /** Whatever order the database keeps, with distinct timestamps and a plain search it gives the page
      of the in-memory repository, exactly unless the limit is -1 and more than one user is left. */
  lemma SqlitePageIsSame(selected: seq<User>, rows: seq<User>, o: ListOptions)
    requires DistinctTimes(rows) && PlainSearch(o, rows)
    requires Answers(selected, rows, SqliteConditions(o))
    ensures SqlitePage(selected, PageLimit(o)) == PageOf(rows, o) <==> PageLimit(o) != -1 || |Remaining(rows, o)| <= 1
  {
    hide Keeps, OtherConditions, CursorConditions, SqliteConditions, PlainSearch, SqlitePage, FirstPage, PageLimit;
    var cs := CursorConditions(o) + OtherConditions(o);
    forall i | 0 <= i < |rows| ensures Keeps(SqliteConditions(o), rows[i]) <==> Keeps(cs, rows[i]) {
      PlainSearchKeeps(o, rows, rows[i]);
    }
    SameConditions(rows, SqliteConditions(o), cs);
    FilterSorted(rows, cs);
    SortedKeeps(Filter(rows, cs));
    SortedDistinct(rows);
    FilterDistinct(Sorted(rows), cs);
    OnlyOneOrder(selected, Sorted(Filter(rows, cs)));
    FilterAppend(Sorted(rows), OtherConditions(o), CursorConditions(o));
    FilterSwap(Sorted(rows), OtherConditions(o), CursorConditions(o));
    FirstPageFromOneMore(selected, PageLimit(o));
  }

  /** A search for "_": SQLite shows the user, the in-memory repository does not. */
  lemma WildcardPagesDiffer()
    ensures var u := User("1", "a@b", "user", 0);
            var o := ListOptions(None, None, Some(Search("_", "_")), 1);
            && Answers([u], [u], SqliteConditions(o))
            && SqlitePage([u], PageLimit(o)) == Page([u], None, false) && PageOf([u], o) == Page([], None, false)
  {
    var u := User("1", "a@b", "user", 0);
    var o := ListOptions(None, None, Some(Search("_", "_")), 1);
    assert "%" + "_" + "%" == "%_%";
    assert [] + ([] + [EmailLike("%_%")]) == [EmailLike("%_%")] && [] + [EmailIncludes("_")] == [EmailIncludes("_")];
    assert SqliteConditions(o) == [EmailLike("%_%")];
    assert OtherConditions(o) == [EmailIncludes("_")];
    assert "%_%"[1..] == "_%" && "_%"[1..] == "%";
    LikeAnything("@b");
    assert "a@b"[1..] == "@b";
    assert Like("_%", "a@b") && Like("%_%", u.email);
    assert Keeps([EmailLike("%_%")], u) && Filter([u], SqliteConditions(o)) == [u];
    assert !Includes(u.email, "_") by {
      assert '_' !in "a@b";
      assert forall i :: 0 <= i <= 2 ==> "a@b"[i..i + 1] == ["a@b"[i]];
    }
    assert !Holds([EmailIncludes("_")][0], u);
    assert !Keeps(OtherConditions(o), u);
    assert Sorted([u]) == [u] && [u][1..] == [];
    assert Filter([u], OtherConditions(o)) == [];
  }

  // ---- Walking the pages ----

  /** What a client collects that follows nextCursor until hasMore is false, with the store unchanged. */
  function Walk(store: seq<User>, o: ListOptions): seq<User>
    requires o.limit >= 1
    decreases |Remaining(store, o)|
  {
    var p := PageOf(store, o);
    if p.hasMore then
      WalkShrinks(store, o);
      p.items + Walk(store, o.(cursor := p.nextCursor))
    else p.items
  }

  /** No page of m ends between two users of one timestamp. */
  predicate PagesSplit(list: seq<User>, m: int)
    requires m >= 1
  {
    |list| <= m || (list[m - 1].createdAt != list[m].createdAt && PagesSplit(list[m..], m))
  }

  lemma {:induction false} FilterShorter(s: seq<User>, cs: seq<Condition>)
    ensures |Filter(s, cs)| <= |s|
    ensures (exists u :: u in s && !Keeps(cs, u)) ==> |Filter(s, cs)| < |s|
  {
    if s != [] {
      FilterShorter(s[1..], cs);
    }
  }

  /** A cursor taken from a page already narrowed by a cursor makes the older one redundant. */
  lemma {:induction false} FilterEarlier(s: seq<User>, t: int, earlier: seq<Condition>)
    requires forall u :: u in s && u.createdAt < t ==> Keeps(earlier, u)
    ensures Filter(Filter(s, earlier), [CreatedBefore(t)]) == Filter(s, [CreatedBefore(t)])
  {
    if s != [] {
      FilterEarlier(s[1..], t, earlier);
      if Keeps(earlier, s[0]) {
        assert Filter(s, earlier)[1..] == Filter(s[1..], earlier);
      } else {
        assert Holds([CreatedBefore(t)][0], s[0]) <==> s[0].createdAt < t;
      }
    }
  }

  lemma NextRemaining(store: seq<User>, o: ListOptions)
    requires o.limit >= 1 && |Remaining(store, o)| > PageLimit(o)
    ensures var rest := Remaining(store, o);
            var last := rest[PageLimit(o) - 1].createdAt;
            Remaining(store, o.(cursor := Some(At(last)))) == Filter(rest, [CreatedBefore(last)])
  {
    hide Sorted, LowerCase, Includes;
    var rest := Remaining(store, o);
    var u := rest[PageLimit(o) - 1];
    FilterMembers(Listed(store, o), CursorConditions(o));
    assert u in rest && Keeps(CursorConditions(o), u);
    forall v | v in Listed(store, o) && v.createdAt < u.createdAt ensures Keeps(CursorConditions(o), v) {
      if o.cursor.Some? && o.cursor.value.At? {
        assert Holds(CursorConditions(o)[0], u);
      }
    }
    FilterEarlier(Listed(store, o), u.createdAt, CursorConditions(o));
  }

  lemma WalkShrinks(store: seq<User>, o: ListOptions)
    requires o.limit >= 1 && PageOf(store, o).hasMore
    ensures |Remaining(store, o.(cursor := PageOf(store, o).nextCursor))| < |Remaining(store, o)|
  {
    hide Sorted, LowerCase, Includes, Remaining;
    var rest := Remaining(store, o);
    var u := rest[PageLimit(o) - 1];
    NextRemaining(store, o);
    assert u in rest && !Holds([CreatedBefore(u.createdAt)][0], u);
    FilterShorter(rest, [CreatedBefore(u.createdAt)]);
  }

  lemma {:induction false} NothingBefore(s: seq<User>, t: int)
    requires forall i :: 0 <= i < |s| ==> s[i].createdAt >= t
    ensures Filter(s, [CreatedBefore(t)]) == []
  {
    if s != [] {
      NothingBefore(s[1..], t);
      assert !Holds([CreatedBefore(t)][0], s[0]);
    }
  }

  lemma {:induction false} AllBefore(s: seq<User>, t: int)
    requires forall i :: 0 <= i < |s| ==> s[i].createdAt < t
    ensures Filter(s, [CreatedBefore(t)]) == s
  {
    if s != [] {
      AllBefore(s[1..], t);
    }
  }

  lemma {:induction false} FilterConcat(a: seq<User>, b: seq<User>, cs: seq<Condition>)
    ensures Filter(a + b, cs) == Filter(a, cs) + Filter(b, cs)
  {
    hide Keeps;
    if a == [] {
      assert a + b == b;
    } else {
      TailOfAppend(a, b);
      FilterConcat(a[1..], b, cs);
      AppendAssociates([a[0]], Filter(a[1..], cs), Filter(b, cs));
    }
  }

  /** The cursor after the first m leaves the rest of the list, or less if it splits a timestamp. */
  lemma CutAt(list: seq<User>, m: int)
    requires 1 <= m < |list| && Descending(list)
    ensures var next := Filter(list, [CreatedBefore(list[m - 1].createdAt)]);
            if list[m - 1].createdAt != list[m].createdAt then next == list[m..] else |next| < |list| - m
    ensures Descending(Filter(list, [CreatedBefore(list[m - 1].createdAt)]))
  {
    var t := list[m - 1].createdAt;
    FilterDescending(list, [CreatedBefore(t)]);
    FilterConcat(list[..m], list[m..], [CreatedBefore(t)]);
    assert list == list[..m] + list[m..];
    NothingBefore(list[..m], t);
    if t != list[m].createdAt {
      AllBefore(list[m..], t);
    } else {
      assert list[m] in list[m..] && !Holds([CreatedBefore(t)][0], list[m]);
      FilterShorter(list[m..], [CreatedBefore(t)]);
    }
  }

  /** The pages walked are disjoint and in order, so they never hold more than the list; and they are
      the whole list exactly when no page ends inside a timestamp. */
  lemma {:induction false} WalkExactly(store: seq<User>, o: ListOptions)
    requires o.limit >= 1
    ensures |Walk(store, o)| <= |Remaining(store, o)|
    ensures Walk(store, o) == Remaining(store, o) <==> PagesSplit(Remaining(store, o), PageLimit(o))
    decreases |Remaining(store, o)|
  {
    hide Sorted, LowerCase, Includes, Remaining, Filter;
    var rest := Remaining(store, o);
    var m := PageLimit(o);
    if |rest| > m {
      var next := o.(cursor := Some(At(rest[m - 1].createdAt)));
      WalkShrinks(store, o);
      WalkExactly(store, next);
      NextRemaining(store, o);
      RemainingDescending(store, o);
      CutAt(rest, m);
      assert Walk(store, o) == rest[..m] + Walk(store, next);
      assert rest == rest[..m] + rest[m..];
      assert Walk(store, o)[m..] == Walk(store, next);
    }
  }

  lemma RemainingDescending(store: seq<User>, o: ListOptions)
    ensures Descending(Remaining(store, o))
  {
    SortedKeeps(store);
    FilterDescending(Sorted(store), OtherConditions(o));
    FilterDescending(Listed(store, o), CursorConditions(o));
  }

  lemma {:induction false} DistinctSplits(list: seq<User>, m: int)
    requires m >= 1 && DistinctTimes(list)
    ensures PagesSplit(list, m)
  {
    if |list| > m {
      DistinctSplits(list[m..], m);
    }
  }

  lemma FilterMultiset(a: seq<User>, b: seq<User>, cs: seq<Condition>, u: User)
    requires multiset(a) == multiset(b)
    ensures multiset(Filter(a, cs))[u] == multiset(Filter(b, cs))[u]
  {
    FilterCount(a, cs, u);
    FilterCount(b, cs, u);
  }

  lemma {:induction false} FilterCount(s: seq<User>, cs: seq<Condition>, u: User)
    ensures multiset(Filter(s, cs))[u] == if Keeps(cs, u) then multiset(s)[u] else 0
  {
    if s != [] {
      FilterCount(s[1..], cs, u);
      assert s == [s[0]] + s[1..];
    }
  }

  // ---- What a page and a walk hold, in the users' fields ----

  /** The user has the role asked for, and an email that contains the lowered search text. */
  ghost predicate Meets(o: ListOptions, u: User) {
    && (o.role.None? || u.role == o.role.value)
    && (o.search.None? || exists pre, post :: u.email == pre + o.search.value.lower + post)
  }

  /** The user is older than the cursor; nobody is older than a cursor that is not a number. */
  predicate Beyond(o: ListOptions, u: User) {
    o.cursor.Some? ==>
      match o.cursor.value
      case Undecodable => true
      case NotANumber => false
      case At(t) => u.createdAt < t
  }

  lemma IncludesIsInfix(s: string, t: string)
    ensures Includes(s, t) <==> exists pre, post :: s == pre + t + post
  {
    if Includes(s, t) {
      var i :| 0 <= i <= |s| - |t| && IsAt(s, t, i);
      assert s == s[..i] + t + s[i + |t|..];
    }
    if exists pre, post :: s == pre + t + post {
      var pre, post :| s == pre + t + post;
      assert IsAt(s, t, |pre|);
    }
  }

  lemma KeepsFields(o: ListOptions, u: User)
    ensures Keeps(OtherConditions(o), u) <==> Meets(o, u)
    ensures Keeps(CursorConditions(o), u) <==> Beyond(o, u)
  {
    hide Includes;
    var role := if o.role.Some? then [RoleIs(o.role.value)] else [];
    var search := if o.search.Some? then [EmailIncludes(o.search.value.lower)] else [];
    KeepsAppend(role, search, u);
    assert Keeps(role, u) <==> (o.role.Some? ==> Holds(role[0], u));
    assert Keeps(search, u) <==> (o.search.Some? ==> Holds(search[0], u));
    if o.search.Some? {
      IncludesIsInfix(u.email, o.search.value.lower);
    }
    var cs := CursorConditions(o);
    assert Keeps(cs, u) <==> (|cs| == 1 ==> Holds(cs[0], u));
  }

  lemma RemainingCount(store: seq<User>, o: ListOptions, u: User)
    ensures multiset(Remaining(store, o))[u] == if Meets(o, u) && Beyond(o, u) then multiset(store)[u] else 0
  {
    hide Meets, Beyond, Keeps, Filter;
    KeepsFields(o, u);
    SortedKeeps(store);
    FilterCount(Sorted(store), OtherConditions(o), u);
    FilterCount(Listed(store, o), CursorConditions(o), u);
  }

  lemma PageIsPrefix(store: seq<User>, o: ListOptions)
    requires o.limit >= 1
    ensures var (rest, p) := (Remaining(store, o), PageOf(store, o));
            && |p.items| <= |rest| && p.items == rest[..|p.items|] && |p.items| <= o.limit && |p.items| <= 100
            && (|p.items| < |rest| ==> p.hasMore && (|p.items| == o.limit || |p.items| == 100))
  {
    hide Remaining;
  }

  lemma OnPage(rest: seq<User>, n: nat, u: User)
    requires n <= |rest|
    ensures multiset(rest[..n])[u] <= multiset(rest)[u]
    ensures u in rest[..n] ==> multiset(rest)[u] > 0
  {
    assert rest == rest[..n] + rest[n..];
    assert multiset(rest)[u] == multiset(rest[..n])[u] + multiset(rest[n..])[u];
    assert u in rest[..n] ==> multiset(rest[..n])[u] > 0;
  }

  lemma OffPage(rest: seq<User>, n: nat, u: User)
    requires n <= |rest| && Descending(rest) && u !in rest[..n] && multiset(rest)[u] > 0
    ensures n < |rest| && forall v :: v in rest[..n] ==> v.createdAt >= u.createdAt
  {
    assert u in multiset(rest);
    var i :| 0 <= i < |rest| && rest[i] == u;
    assert forall k :: 0 <= k < n ==> rest[..n][k] == rest[k];
    forall v | v in rest[..n] ensures v.createdAt >= u.createdAt {
      var k :| 0 <= k < n && rest[..n][k] == v;
      assert rest[k] == v;
    }
  }

  /** For every limit of at least 1 a page holds at most 100 stored users that meet the conditions, newest
      first; one that meets them and is not on it is no newer than those that are, the page is full, and it
      says that there are more. */
  lemma PageIsExact(store: seq<User>, o: ListOptions)
    requires o.limit >= 1
    ensures var p := PageOf(store, o);
            && Descending(p.items) && |p.items| <= o.limit && |p.items| <= 100
            && (forall u :: u in p.items ==> u in store && Meets(o, u) && Beyond(o, u))
            && (forall u :: multiset(p.items)[u] <= multiset(store)[u])
            && (forall u :: u in store && Meets(o, u) && Beyond(o, u) && u !in p.items ==>
                  p.hasMore && (|p.items| == o.limit || |p.items| == 100) && forall v :: v in p.items ==> v.createdAt >= u.createdAt)
  {
    hide Meets, Beyond, Remaining, PageOf;
    var (rest, p) := (Remaining(store, o), PageOf(store, o));
    PageIsPrefix(store, o);
    RemainingDescending(store, o);
    forall u ensures multiset(p.items)[u] <= multiset(store)[u]
             ensures u in p.items ==> u in store && Meets(o, u) && Beyond(o, u) {
      RemainingCount(store, o, u);
      OnPage(rest, |p.items|, u);
    }
    forall u | u in store && Meets(o, u) && Beyond(o, u) && u !in p.items
      ensures p.hasMore && (|p.items| == o.limit || |p.items| == 100) && forall v :: v in p.items ==> v.createdAt >= u.createdAt {
      RemainingCount(store, o, u);
      assert multiset(store)[u] > 0;
      OffPage(rest, |p.items|, u);
    }
  }

  /** Without a cursor and with distinct timestamps, the pages put together are the users that meet
      the role and search conditions, newest first, each as often as it is stored, for every limit. */
  lemma WalkIsWhole(store: seq<User>, o: ListOptions)
    requires o.limit >= 1 && o.cursor.None? && DistinctTimes(store)
    ensures Descending(Walk(store, o))
    ensures multiset(Walk(store, o)) == multiset(Filter(store, OtherConditions(o)))
    ensures forall u :: multiset(Walk(store, o))[u] == if Meets(o, u) then multiset(store)[u] else 0
  {
    hide LowerCase, Includes, Meets;
    SortedDistinct(store);
    SortedKeeps(store);
    FilterDistinct(Sorted(store), OtherConditions(o));
    FilterNone(Listed(store, o));
    DistinctSplits(Listed(store, o), PageLimit(o));
    WalkExactly(store, o);
    RemainingDescending(store, o);
    forall u ensures multiset(Listed(store, o))[u] == multiset(Filter(store, OtherConditions(o)))[u] {
      FilterMultiset(Sorted(store), store, OtherConditions(o), u);
    }
    assert Walk(store, o) == Listed(store, o);
    assert multiset(Listed(store, o)) == multiset(Filter(store, OtherConditions(o)));
    forall u ensures multiset(Walk(store, o))[u] == if Meets(o, u) then multiset(store)[u] else 0 {
      RemainingCount(store, o, u);
    }
  }

  /** Two users of one timestamp and pages of one: the second is never shown. */
  lemma TiesAreSkipped(a: User, b: User)
    requires a.createdAt == b.createdAt
    ensures Walk([a, b], ListOptions(None, None, None, 1)) == [a]
  {
    var o := ListOptions(None, None, None, 1);
    assert Sorted([a, b]) == Insert(a, Sorted([b])) by { assert [a, b][1..] == [b]; }
    assert Sorted([b]) == [b];
    assert Insert(a, [b]) == [a, b];
    assert OtherConditions(o) == [] && CursorConditions(o) == [];
    FilterNone([a, b]);
    assert Remaining([a, b], o) == [a, b];
    NothingBefore([a, b], a.createdAt);
    var next := o.(cursor := Some(At(a.createdAt)));
    NextRemaining([a, b], o);
    assert Remaining([a, b], next) == [];
    assert Walk([a, b], next) == [];
  }
}
