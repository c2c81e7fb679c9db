/** `session ls`: the whole table is fetched by pages of one ordered query, each page a query of its own. */
module SessionListing {
  import opened Common

  datatype Status = Active | Closed | Unknown

  datatype Row = Row(createdAt: int, status: Status)

  /** The rows the listing is about. */
  function Selected(table: map<nat, Row>, activeOnly: bool): set<nat> {
    set id | id in table && (activeOnly ==> table[id].status.Active?)
  }

  ghost predicate Distinct(s: seq<nat>) {
    forall i, j | 0 <= i < j < |s| :: s[i] != s[j]
  }

  /** Newest first; rows created at the same time may come in any order. */
  ghost predicate Ordered(table: map<nat, Row>, s: seq<nat>) {
    && (forall id | id in s :: id in table)
    && Distinct(s)
    && forall i, j | 0 <= i < j < |s| :: table[s[i]].createdAt >= table[s[j]].createdAt
  }

  /** A possible answer to the query without limit: every row once, in order. */
  ghost predicate IsAnswer(table: map<nat, Row>, activeOnly: bool, s: seq<nat>) {
    Ordered(table, s) && forall id :: id in s <==> id in Selected(table, activeOnly)
  }

  /** An answer starts with the row created last, and holds the rows that are in the table, or the active ones. */
  lemma NewestFirst(table: map<nat, Row>, activeOnly: bool, s: seq<nat>, id: nat)
    requires IsAnswer(table, activeOnly, s)
    ensures id in s <==> id in table && (activeOnly ==> table[id].status == Active)
    ensures id in s ==> table[id].createdAt <= table[s[0]].createdAt
  {
    assert id in s <==> id in Selected(table, activeOnly);
    if id in s {
      var i :| 0 <= i < |s| && s[i] == id;
      assert s[0] in s;
    }
  }

  function Min(a: int, b: int): int {
    if a < b then a else b
  }

  function Page(answer: seq<nat>, offset: nat, limit: nat): seq<nat> {
    answer[Min(offset, |answer|)..Min(offset + limit, |answer|)]
  }

  /** `k` times the limit. */
  function Offset(limit: nat, k: nat): nat {
    if k == 0 then 0 else Offset(limit, k - 1) + limit
  }

  lemma {:induction false} OffsetIs(limit: nat, k: nat)
    ensures Offset(limit, k) == limit * k
    decreases k
  {
    if k > 0 {
      OffsetIs(limit, k - 1);
      assert limit * k == limit * (k - 1) + limit;
    }
  }

  lemma {:induction false} OffsetGrows(limit: nat, j: nat, k: nat)
    ensures Offset(limit, j) < Offset(limit, k) ==> j < k
    decreases j
  {
    if j > k {
      OffsetGrows(limit, j - 1, k);
    }
  }

  /** The first `pages` pages, each cut from the answer its own query would have had. */
  function Listing(answers: nat -> seq<nat>, limit: nat, pages: nat): seq<nat> {
    if pages == 0 then [] else
    Listing(answers, limit, pages - 1) + Page(answers(pages - 1), Offset(limit, pages - 1), limit)
  }

  /** Each query is answered in some order, not always the same. */
  ghost predicate AllAnswers(table: map<nat, Row>, activeOnly: bool, answers: nat -> seq<nat>) {
    forall k {:trigger IsAnswer(table, activeOnly, answers(k))} :: IsAnswer(table, activeOnly, answers(k))
  }

  // ---- sizes ---------------------------------------------------------------------------------------------

  ghost function Elements(s: seq<nat>): set<nat> {
    set x | x in s
  }

  lemma {:induction false} CountDistinct(s: seq<nat>)
    requires Distinct(s)
    ensures |Elements(s)| == |s|
  {
    if s != [] {
      CountDistinct(s[1..]);
      assert Elements(s) == {s[0]} + Elements(s[1..]);
    }
  }

  lemma AnswerLength(table: map<nat, Row>, activeOnly: bool, s: seq<nat>)
    requires IsAnswer(table, activeOnly, s)
    ensures |s| == |Selected(table, activeOnly)|
  {
    CountDistinct(s);
    assert Elements(s) == Selected(table, activeOnly);
  }

  ghost predicate SameLength(answers: nat -> seq<nat>, n: nat) {
    forall k :: |answers(k)| == n
  }

  lemma AnswerLengths(table: map<nat, Row>, activeOnly: bool, answers: nat -> seq<nat>)
    requires AllAnswers(table, activeOnly, answers)
    ensures SameLength(answers, |Selected(table, activeOnly)|)
  {
    forall k ensures |answers(k)| == |Selected(table, activeOnly)| {
      AnswerLength(table, activeOnly, answers(k));
    }
  }

  lemma {:induction false} ListingLength(answers: nat -> seq<nat>, limit: nat, n: nat, pages: nat)
    requires SameLength(answers, n)
    ensures |Listing(answers, limit, pages)| == Min(n, Offset(limit, pages))
    decreases pages
  {
    if pages > 0 {
      ListingLength(answers, limit, n, pages - 1);
    }
  }

  // ---- the command ---------------------------------------------------------------------------------------

  /** The rows of a page, one by one. */
  ghost predicate IsPage(page: seq<nat>, all: seq<nat>, from: nat, limit: nat) {
    && |page| == (if |all| <= from then 0 else if |all| - from <= limit then |all| - from else limit)
    && forall i | 0 <= i < |page| :: page[i] == all[from + i]
  }

  /** The database while the table does not change. */
  class Database {
    const table: map<nat, Row>
    const activeOnly: bool
    const answers: nat -> seq<nat>
    var queries: nat

    constructor (table: map<nat, Row>, activeOnly: bool, answers: nat -> seq<nat>)
      ensures this.table == table && this.activeOnly == activeOnly && this.answers == answers && queries == 0
    {
      this.table, this.activeOnly, this.answers, queries := table, activeOnly, answers, 0;
    }

    /** One page of the order that the query is answered in: the rows from the offset on, as many as there are up to the
        limit.  An offset of -1 is none. */
    method Find(limit: nat, offset: int) returns (page: seq<nat>)
      modifies this
      ensures queries == old(queries) + 1
      ensures IsPage(page, answers(old(queries)), if offset < 0 then 0 else offset, limit)
    {
      page := Page(answers(queries), if offset < 0 then 0 else offset, limit);
      queries := queries + 1;
    }
  }

  lemma PageIs(page: seq<nat>, all: seq<nat>, from: nat, limit: nat)
    requires IsPage(page, all, from, limit)
    ensures page == Page(all, from, limit)
  {
  }

  /** What the loop has after `factor` queries. */
  ghost predicate ListedTo(answers: nat -> seq<nat>, limit: nat, n: nat, factor: nat, sessions: seq<nat>) {
    && factor > 0 && sessions == Listing(answers, limit, factor)
    && |sessions| == Min(n, limit * factor) && limit * (factor - 1) == limit * factor - limit <= n
  }

  lemma FirstPage(answers: nat -> seq<nat>, limit: nat, n: nat, page: seq<nat>)
    requires SameLength(answers, n) && IsPage(page, answers(0), 0, limit)
    ensures ListedTo(answers, limit, n, 1, page)
  {
    PageIs(page, answers(0), 0, limit);
    ListingLength(answers, limit, n, 1);
    assert Listing(answers, limit, 0) == [];
    assert [] + page == page;
  }

  lemma NextPage(answers: nat -> seq<nat>, limit: nat, n: nat, factor: nat, sessions: seq<nat>, page: seq<nat>)
    requires SameLength(answers, n) && ListedTo(answers, limit, n, factor, sessions) && |sessions| >= limit * factor
    requires IsPage(page, answers(factor), limit * factor, limit)
    ensures ListedTo(answers, limit, n, factor + 1, sessions + page)
    ensures limit * (factor + 1) == limit * factor + limit
  {
    PageIs(page, answers(factor), limit * factor, limit);
    OffsetIs(limit, factor);
    OffsetIs(limit, factor + 1);
    ListingLength(answers, limit, n, factor + 1);
  }

  /** The loop ends, with as many rows as there are, cut from one more query than there are full pages. */
  method List(db: Database, limit: nat) returns (sessions: seq<nat>)
    requires limit > 0 && db.queries == 0 && AllAnswers(db.table, db.activeOnly, db.answers)
    modifies db
    ensures sessions == Listing(db.answers, limit, db.queries) && |sessions| == |Selected(db.table, db.activeOnly)|
    ensures db.queries > 0 && limit * (db.queries - 1) <= |sessions| < limit * db.queries
  {
    ghost var n := |Selected(db.table, db.activeOnly)|;
    AnswerLengths(db.table, db.activeOnly, db.answers);
    var offset := -1;
    sessions := db.Find(limit, offset);
    FirstPage(db.answers, limit, n, sessions);
    var factor := 1;
    while |sessions| >= limit * factor
      invariant factor == db.queries && ListedTo(db.answers, limit, n, factor, sessions)
      decreases n + limit - limit * factor
    {
      offset := limit * factor;
      var additional := db.Find(limit, offset);
      NextPage(db.answers, limit, n, factor, sessions, additional);
      sessions := sessions + additional;
      factor := factor + 1;
    }
  }

  // ---- when the listing is an answer ---------------------------------------------------------------------

  /** Page `k` starts with a row created at the same time as the one before it. */
  ghost predicate TieAt(table: map<nat, Row>, limit: nat, s: seq<nat>, k: nat)
    requires Ordered(table, s)
  {
    var b := Offset(limit, k);
    0 < b < |s| && table[s[b - 1]].createdAt == table[s[b]].createdAt
  }

  ghost predicate TieAtBreak(table: map<nat, Row>, limit: nat, s: seq<nat>)
    requires Ordered(table, s)
  {
    exists k: nat :: TieAt(table, limit, s, k)
  }

  ghost predicate Breaks(table: map<nat, Row>, s: seq<nat>, m: nat)
    requires Ordered(table, s) && m <= |s|
  {
    0 < m < |s| ==> table[s[m - 1]].createdAt > table[s[m]].createdAt
  }

  lemma Prefixes(table: map<nat, Row>, activeOnly: bool, s: seq<nat>, t: seq<nat>, m: nat, i: nat)
    requires IsAnswer(table, activeOnly, s) && IsAnswer(table, activeOnly, t)
    requires m <= |s| && Breaks(table, s, m) && i < |t| && t[i] !in s[..m]
    ensures m <= i
  {
    if m > 0 {
      assert t[i] in s && t[i] !in s[..m] by {
        assert t[i] in t && t[i] in Selected(table, activeOnly);
      }
      var j :| m <= j < |s| && s[j] == t[i];
      forall x | x in s[..m] ensures x in t[..i] {
        var k :| 0 <= k < m && x == s[k];
        assert table[x].createdAt > table[t[i]].createdAt;
        assert x in s && x in Selected(table, activeOnly) && x in t;
        var l :| 0 <= l < |t| && t[l] == x;
        assert l < i;
        assert t[..i][l] == x;
      }
      CountDistinct(s[..m]);
      CountDistinct(t[..i]);
      CountSubset(Elements(s[..m]), Elements(t[..i]));
    }
  }

  /** Any two answers agree on which rows come before a break. */
  lemma SameRowsBeforeBreak(table: map<nat, Row>, activeOnly: bool, s: seq<nat>, t: seq<nat>, m: nat)
    requires IsAnswer(table, activeOnly, s) && IsAnswer(table, activeOnly, t) && m <= |s| && Breaks(table, s, m)
    ensures |t| == |s| && Elements(t[..m]) == Elements(s[..m])
  {
    AnswerLength(table, activeOnly, s);
    AnswerLength(table, activeOnly, t);
    forall x | x in t[..m] ensures x in s[..m] {
      var i :| 0 <= i < m && t[i] == x;
      if x !in s[..m] {
        Prefixes(table, activeOnly, s, t, m, i);
      }
    }
    CountDistinct(s[..m]);
    CountDistinct(t[..m]);
    CountSubset(Elements(t[..m]), Elements(s[..m]));
  }

  /** The rows before a break, in order, followed by the next page of another answer. */
  lemma AddPage(table: map<nat, Row>, activeOnly: bool, t: seq<nat>, done: seq<nat>, m: nat, to: nat)
    requires IsAnswer(table, activeOnly, t) && m <= to <= |t|
    requires Ordered(table, done) && Elements(done) == Elements(t[..m])
    ensures Ordered(table, done + t[m..to]) && Elements(done + t[m..to]) == Elements(t[..to])
  {
    SameElements(t, done, m, to);
    forall i | 0 <= i < |done| ensures exists k :: 0 <= k < m && t[k] == done[i] {
      assert done[i] in Elements(done);
    }
  }

  lemma SameElements(t: seq<nat>, done: seq<nat>, m: nat, to: nat)
    requires m <= to <= |t| && Elements(done) == Elements(t[..m])
    ensures Elements(done + t[m..to]) == Elements(t[..to])
  {
    assert t[..to] == t[..m] + t[m..to];
    assert Elements(done + t[m..to]) == Elements(done) + Elements(t[m..to]);
    assert Elements(t[..to]) == Elements(t[..m]) + Elements(t[m..to]);
  }

  lemma {:induction false} ListingIsOrdered(table: map<nat, Row>, activeOnly: bool, answers: nat -> seq<nat>,
      limit: nat, s: seq<nat>, pages: nat)
    requires AllAnswers(table, activeOnly, answers) && limit > 0
    requires IsAnswer(table, activeOnly, s) && !TieAtBreak(table, limit, s)
    ensures Ordered(table, Listing(answers, limit, pages))
    ensures Elements(Listing(answers, limit, pages)) == Elements(s[..Min(Offset(limit, pages), |s|)])
    decreases pages
  {
    if pages == 0 {
      return;
    }
    var p := pages - 1;
    ListingIsOrdered(table, activeOnly, answers, limit, s, p);
    var t, from, to := answers(p), Min(Offset(limit, p), |s|), Min(Offset(limit, pages), |s|);
    BreakAt(table, limit, s, p);
    BreakAt(table, limit, s, pages);
    SameRowsBeforeBreak(table, activeOnly, s, t, from);
    SameRowsBeforeBreak(table, activeOnly, s, t, to);
    AddPage(table, activeOnly, t, Listing(answers, limit, p), from, to);
  }

  lemma BreakAt(table: map<nat, Row>, limit: nat, s: seq<nat>, k: nat)
    requires Ordered(table, s) && !TieAtBreak(table, limit, s)
    ensures Breaks(table, s, Min(Offset(limit, k), |s|))
  {
    assert !TieAt(table, limit, s, k);
  }

  lemma Swapped(table: map<nat, Row>, activeOnly: bool, s: seq<nat>, b: nat) returns (t: seq<nat>)
    requires IsAnswer(table, activeOnly, s)
    requires 0 < b < |s| && table[s[b - 1]].createdAt == table[s[b]].createdAt
    ensures IsAnswer(table, activeOnly, t) && |t| == |s| && t[b] == s[b - 1]
  {
    t := s[b := s[b - 1]][b - 1 := s[b]];
    forall id ensures id in t <==> id in s {
      if id in s {
        var i :| 0 <= i < |s| && s[i] == id;
        assert t[if i == b then b - 1 else if i == b - 1 then b else i] == id;
      }
    }
  }

  /** The first `k` queries are answered by `s` and the others by `t`. */
  function Switch(s: seq<nat>, t: seq<nat>, k: nat): nat -> seq<nat> {
    (q: nat) => if q < k then s else t
  }

  lemma OnePage(answers: nat -> seq<nat>, limit: nat, k: nat)
    ensures Listing(answers, limit, k + 1) == Listing(answers, limit, k) + Page(answers(k), Offset(limit, k), limit)
  {
  }

  lemma TwoPages(answers: nat -> seq<nat>, limit: nat, k: nat)
    ensures Listing(answers, limit, k + 2) == Listing(answers, limit, k)
            + Page(answers(k), Offset(limit, k), limit) + Page(answers(k + 1), Offset(limit, k) + limit, limit)
  {
    OnePage(answers, limit, k);
    OnePage(answers, limit, k + 1);
  }

  lemma LastRow(s: seq<nat>, offset: nat, limit: nat)
    requires 0 < limit && offset + limit <= |s|
    ensures |Page(s, offset, limit)| == limit && Page(s, offset, limit)[limit - 1] == s[offset + limit - 1]
  {
  }

  lemma FirstRow(t: seq<nat>, offset: nat, limit: nat)
    requires 0 < limit && offset < |t|
    ensures Page(t, offset, limit) != [] && Page(t, offset, limit)[0] == t[offset]
  {
  }

  /** The last row of a page is the first of the next. */
  lemma RepeatedAtBreak(head: seq<nat>, s: seq<nat>, t: seq<nat>, from: nat, limit: nat)
    requires 0 < limit && from + limit < |s| == |t| && s[from + limit - 1] == t[from + limit]
    ensures !Distinct(head + Page(s, from, limit) + Page(t, from + limit, limit))
  {
    LastRow(s, from, limit);
    FirstRow(t, from + limit, limit);
    Repeated(head, Page(s, from, limit), Page(t, from + limit, limit));
  }

  lemma Repeated(head: seq<nat>, last: seq<nat>, next: seq<nat>)
    requires last != [] && next != [] && last[|last| - 1] == next[0]
    ensures !Distinct(head + last + next)
  {
    var all, b := head + last + next, |head| + |last|;
    assert all[b - 1] == all[b];
  }

  lemma PageRepeats(answers: nat -> seq<nat>, limit: nat, s: seq<nat>, t: seq<nat>, j: nat)
    requires answers(j) == s && answers(j + 1) == t
    requires 0 < limit && Offset(limit, j) + limit < |s| == |t|
    requires s[Offset(limit, j) + limit - 1] == t[Offset(limit, j) + limit]
    ensures !Distinct(Listing(answers, limit, j + 2))
  {
    RepeatedAtBreak(Listing(answers, limit, j), s, t, Offset(limit, j), limit);
    TwoPages(answers, limit, j);
  }

  lemma RepeatStays(s: seq<nat>, more: seq<nat>)
    requires !Distinct(s)
    ensures !Distinct(s + more)
  {
    var i, j :| 0 <= i < j < |s| && s[i] == s[j];
    assert (s + more)[i] == (s + more)[j];
  }

  lemma {:induction false} MorePagesRepeat(answers: nat -> seq<nat>, limit: nat, k: nat, pages: nat)
    requires k <= pages && !Distinct(Listing(answers, limit, k))
    ensures !Distinct(Listing(answers, limit, pages))
    decreases pages
  {
    if k < pages {
      MorePagesRepeat(answers, limit, k, pages - 1);
      RepeatStays(Listing(answers, limit, pages - 1), Page(answers(pages - 1), Offset(limit, pages - 1), limit));
    }
  }

  lemma LaterPagesRepeat(answers: nat -> seq<nat>, limit: nat, s: seq<nat>, t: seq<nat>, j: nat, pages: nat)
    requires answers(j) == s && answers(j + 1) == t && j + 2 <= pages
    requires 0 < limit && Offset(limit, j) + limit < |s| == |t|
    requires s[Offset(limit, j) + limit - 1] == t[Offset(limit, j) + limit]
    ensures !Distinct(Listing(answers, limit, pages))
  {
    PageRepeats(answers, limit, s, t, j);
    MorePagesRepeat(answers, limit, j + 2, pages);
  }

  lemma SwitchRepeats(limit: nat, s: seq<nat>, t: seq<nat>, k: nat, pages: nat)
    requires 0 < k && 0 < limit && Offset(limit, k) < |s| == |t| && |s| < Offset(limit, pages)
    requires s[Offset(limit, k) - 1] == t[Offset(limit, k)]
    ensures !Distinct(Listing(Switch(s, t, k), limit, pages))
  {
    OffsetGrows(limit, k, pages);
    LaterPagesRepeat(Switch(s, t, k), limit, s, t, k - 1, pages);
  }

  lemma SwitchAnswers(table: map<nat, Row>, activeOnly: bool, s: seq<nat>, t: seq<nat>, k: nat)
    requires IsAnswer(table, activeOnly, s) && IsAnswer(table, activeOnly, t)
    ensures AllAnswers(table, activeOnly, Switch(s, t, k))
  {
  }

  /** A tie at a break allows the queries to be answered so that a row is listed twice. */
  lemma TieCanRepeat(table: map<nat, Row>, activeOnly: bool, limit: nat, s: seq<nat>, pages: nat)
      returns (answers: nat -> seq<nat>)
    requires IsAnswer(table, activeOnly, s) && limit > 0 && TieAtBreak(table, limit, s)
    requires |s| < Offset(limit, pages)
    ensures AllAnswers(table, activeOnly, answers)
    ensures !Distinct(Listing(answers, limit, pages))
  {
    var k: nat :| TieAt(table, limit, s, k);
    var t := Swapped(table, activeOnly, s, Offset(limit, k));
    answers := Switch(s, t, k);
    SwitchAnswers(table, activeOnly, s, t, k);
    SwitchRepeats(limit, s, t, k, pages);
  }

  /** Whatever order each query is answered in, the listing has every row once and in order, exactly when no two
      rows created at the same time are on either side of a page break. `s` is any answer. */
  lemma ListingIsAnswer(table: map<nat, Row>, activeOnly: bool, limit: nat, s: seq<nat>, pages: nat)
    requires IsAnswer(table, activeOnly, s) && limit > 0 && |s| < limit * pages
    ensures (forall answers | AllAnswers(table, activeOnly, answers) ::
               IsAnswer(table, activeOnly, Listing(answers, limit, pages)))
            <==> !TieAtBreak(table, limit, s)
  {
    OffsetIs(limit, pages);
    if TieAtBreak(table, limit, s) {
      var answers := TieCanRepeat(table, activeOnly, limit, s, pages);
      assert !IsAnswer(table, activeOnly, Listing(answers, limit, pages));
    } else {
      forall answers | AllAnswers(table, activeOnly, answers)
        ensures IsAnswer(table, activeOnly, Listing(answers, limit, pages))
      {
        ListingIsOrdered(table, activeOnly, answers, limit, s, pages);
        SameRows(table, activeOnly, s, Listing(answers, limit, pages));
      }
    }
  }

  lemma SameRows(table: map<nat, Row>, activeOnly: bool, s: seq<nat>, t: seq<nat>)
    requires IsAnswer(table, activeOnly, s) && Ordered(table, t) && Elements(t) == Elements(s[..|s|])
    ensures IsAnswer(table, activeOnly, t)
  {
    assert s[..|s|] == s;
    forall id ensures id in t <==> id in s {
      assert id in Elements(t) <==> id in Elements(s);
    }
  }

  lemma PagesOfSame(s: seq<nat>, offset: nat, limit: nat)
    ensures s[..Min(offset, |s|)] + Page(s, offset, limit) == s[..Min(offset + limit, |s|)]
  {
  }

  /** If the database always answers in the same order, the listing is that answer, ties or not. */
  lemma {:induction false} SameOrderGivesAnswer(answers: nat -> seq<nat>, limit: nat, s: seq<nat>, pages: nat)
    requires limit > 0 && forall k :: answers(k) == s
    ensures Listing(answers, limit, pages) == s[..Min(Offset(limit, pages), |s|)]
    ensures |s| < limit * pages ==> Listing(answers, limit, pages) == s
    decreases pages
  {
    OffsetIs(limit, pages);
    if pages > 0 {
      SameOrderGivesAnswer(answers, limit, s, pages - 1);
      PagesOfSame(s, Offset(limit, pages - 1), limit);
    }
  }
}
