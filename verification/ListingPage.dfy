/** What a page of `messages list` shows, read off the options and the rows: which messages, in which order,
    and when it says that there are more. */
module ListingPage {
  import opened Prelude
  import opened Schema
  import opened IsoText
  import opened Paging

  /** Each message's time column is the text of a UTC datetime. */
  ghost predicate Dated(s: Store, when: nat -> DateTime) {
    forall m :: m in s.messages ==> ValidDateTime(when(m)) && s.messages[m].sentAt == Print(when(m))
  }

  function Midnight(d: Date): DateTime {
    DateTime(d.year, d.month, d.day, 0, 0, 0, 0)
  }

  function InstantOf(d: DateTime): int {
    if ValidDateTime(d) then Micros(d) else 0
  }

  /** The options of a call: an account, a contact, a date, and the cursor of the page before. */
  datatype Query = Query(account: Option<nat>, contact: Option<nat>, since: Option<Date>, cursor: Option<nat>)

  /** As they are passed on: the date is text. */
  function FilterOf(q: Query): Filter {
    Filter(q.account, q.contact,
           if q.since.None? then None else Some(DateText(q.since.value.year, q.since.value.month, q.since.value.day)))
  }

  ghost predicate StandsIn(s: Store, m: nat, person: nat) {
    exists role :: RoleRow(m, person, role) in s.roles
  }

  /** The message is the account's, has the contact in some role, is not before the date's midnight, and is
      below the cursor. */
  ghost predicate Passes(s: Store, when: nat -> DateTime, q: Query, m: nat) {
    && m in s.messages
    && (q.account.Some? ==> s.messages[m].account == q.account.value)
    && (q.contact.Some? ==> StandsIn(s, m, q.contact.value))
    && (q.since.Some? ==> InstantOf(when(m)) >= InstantOf(Midnight(q.since.value)))
    && (q.cursor.Some? ==> m < q.cursor.value)
  }

  /** `m` is the later message, or of one time the one with the larger id. */
  ghost predicate Later(when: nat -> DateTime, m: nat, n: nat) {
    InstantOf(when(m)) > InstantOf(when(n)) || (InstantOf(when(m)) == InstantOf(when(n)) && m > n)
  }

  ghost predicate IsDay(q: Query) {
    q.since.Some? ==> ValidDateTime(Midnight(q.since.value))
  }

  // ---------------------------------------------------------------- text and time

  /** The text compared with is that of midnight. */
  lemma {:induction false} MidnightIs(d: Date)
    ensures DateText(d.year, d.month, d.day) + "T00:00:00+00:00" == Print(Midnight(d))
  {
    PrintIs(Midnight(d));
    PadTwo(0);
    assert ClockText(0, 0, 0) == "00:00:00";
    assert "" + "+00:00" == "+00:00";
    var date := DateText(d.year, d.month, d.day);
    assert date + "T" + ("00:00:00" + "+00:00") == date + "T00:00:00+00:00";
  }

  lemma {:induction false} NotBefore(s: Store, when: nat -> DateTime, d: Date, m: nat)
    requires Dated(s, when) && ValidDateTime(Midnight(d)) && m in s.messages
    ensures !TextLess(s.messages[m].sentAt, DateText(d.year, d.month, d.day) + "T00:00:00+00:00")
       <==> InstantOf(when(m)) >= InstantOf(Midnight(d))
  {
    MidnightIs(d);
    TextOrderIsTimeOrder(when(m), Midnight(d));
  }

  lemma {:induction false} NewerIsLater(s: Store, when: nat -> DateTime, m: nat, n: nat)
    requires Dated(s, when) && m in s.messages && n in s.messages
    ensures Newer(s, m, n) <==> Later(when, m, n)
  {
    TextOrderIsTimeOrder(when(n), when(m));
  }

  lemma {:induction false} StandsInIff(s: Store, m: nat, person: nat)
    ensures (exists r :: r in s.roles && r.message == m && r.person == person) <==> StandsIn(s, m, person)
  {
    if r :| r in s.roles && r.message == m && r.person == person { assert r == RoleRow(m, person, r.role); }
  }

  lemma {:induction false} FoundIffPasses(s: Store, when: nat -> DateTime, q: Query, m: nat)
    requires Dated(s, when) && IsDay(q)
    ensures m in Found(s, FilterOf(q), q.cursor) <==> Passes(s, when, q, m)
  {
    if m in s.messages {
      if q.contact.Some? { StandsInIff(s, m, q.contact.value); }
      if q.since.Some? { NotBefore(s, when, q.since.value, m); }
    }
  }

  // ---------------------------------------------------------------- the page

  /** All listed messages pass, latest first. */
  ghost predicate ListsPassing(s: Store, when: nat -> DateTime, q: Query, l: seq<nat>) {
    && (forall i :: 0 <= i < |l| ==> Passes(s, when, q, l[i]))
    && (forall i, j :: 0 <= i < j < |l| ==> Later(when, l[i], l[j]))
  }

  /** Whatever passes and is not listed comes after everything listed, and only a full page leaves it out. */
  ghost predicate LeavesOutLater(s: Store, when: nat -> DateTime, q: Query, k: nat, l: seq<nat>) {
    forall m: nat :: Passes(s, when, q, m) && m !in l ==> |l| == k && forall i :: 0 <= i < |l| ==> Later(when, l[i], m)
  }

  /** At most `k` messages; a full page gives its last message as the cursor. */
  ghost predicate SaysMore(k: nat, page: Page) {
    && |page.messages| <= k
    && (page.next.Some? <==> |page.messages| == k)
    && (page.next.Some? && page.messages != [] ==> page.next.value == page.messages[|page.messages| - 1])
  }

  ghost predicate ShowsLatest(s: Store, when: nat -> DateTime, q: Query, k: nat, page: Page) {
    ListsPassing(s, when, q, page.messages) && LeavesOutLater(s, when, q, k, page.messages) && SaysMore(k, page)
  }

  lemma {:induction false} AllListed(s: Store, when: nat -> DateTime, q: Query, ids: set<nat>, l: seq<nat>)
    requires Dated(s, when) && Lists(s, ids, l) && forall m: nat :: m in ids <==> Passes(s, when, q, m)
    ensures ListsPassing(s, when, q, l)
  {
    forall i | 0 <= i < |l| ensures Passes(s, when, q, l[i]) { assert l[i] in l; }
    forall i, j | 0 <= i < j < |l| ensures Later(when, l[i], l[j]) {
      assert Newer(s, l[i], l[j]);
      NewerIsLater(s, when, l[i], l[j]);
    }
  }

  lemma {:induction false} FirstListed(s: Store, when: nat -> DateTime, q: Query, l: seq<nat>, k: nat)
    requires ListsPassing(s, when, q, l) && k <= |l|
    ensures ListsPassing(s, when, q, l[..k])
  {
  }

  lemma {:induction false} RestIsLater(s: Store, when: nat -> DateTime, q: Query, l: seq<nat>, k: nat)
    requires ListsPassing(s, when, q, l) && k <= |l|
    requires forall m: nat :: Passes(s, when, q, m) ==> m in l
    ensures LeavesOutLater(s, when, q, k, l[..k])
  {
    forall m: nat | Passes(s, when, q, m) && m !in l[..k] ensures forall i :: 0 <= i < k ==> Later(when, l[..k][i], m) {
      assert l == l[..k] + l[k..];
      var j :| 0 <= j < |l[k..]| && l[k..][j] == m;
      assert l[k + j] == m;
    }
  }

  lemma {:induction false} PageSays(l: seq<nat>, k: nat)
    requires k >= 1
    ensures PageOf(l, k).messages == (if |l| < k then l else l[..k]) && SaysMore(k, PageOf(l, k))
  {
  }

  lemma {:induction false} ShownAre(s: Store, when: nat -> DateTime, q: Query, ids: set<nat>, l: seq<nat>, k: nat)
    requires Dated(s, when) && Lists(s, ids, l) && forall m: nat :: m in ids <==> Passes(s, when, q, m)
    ensures var shown := if |l| < k then l else l[..k];
            ListsPassing(s, when, q, shown) && LeavesOutLater(s, when, q, k, shown)
  {
    AllListed(s, when, q, ids, l);
    if |l| >= k {
      FirstListed(s, when, q, l, k);
      RestIsLater(s, when, q, l, k);
    }
  }

  /** Over rows stamped in UTC, for any options, cursor and limit. */
  lemma {:induction false} PageOfUtcRows(s: Store, when: nat -> DateTime, q: Query, limit: int)
    requires Dated(s, when) && IsDay(q)
    ensures ShowsLatest(s, when, q, if limit < 1 then 1 else if limit > 500 then 500 else limit,
                        PageAt(s, FilterOf(q), q.cursor, limit))
  {
    var ids := Found(s, FilterOf(q), q.cursor);
    forall m: nat ensures m in ids <==> Passes(s, when, q, m) { FoundIffPasses(s, when, q, m); }
    ListingLists(s, ids);
    ShownAre(s, when, q, ids, Listing(s, ids), Clamped(limit));
    PageSays(Listing(s, ids), Clamped(limit));
  }

  // ---------------------------------------------------------------- the command

  /** The clauses that the given options add. */
  method BuildWhere(f: Filter, cursor: Option<nat>) returns (clauses: seq<Clause>)
    ensures clauses == Where(f, cursor)
  {
    clauses := [];
    if f.account.Some? {
      clauses := clauses + [AccountIs(f.account.value)];
    }
    if f.contact.Some? {
      clauses := clauses + [Mentions(f.contact.value)];
    }
    if f.since.Some? {
      clauses := clauses + [SentFrom(f.since.value + "T00:00:00+00:00")];
    }
    if cursor.Some? {
      clauses := clauses + [IdBelow(cursor.value)];
    }
  }

  /** The envelope around the fetched rows, of which there are at most `k`. */
  method BuildPage(rows: seq<nat>, k: nat) returns (page: Page)
    requires |rows| <= k && k > 0
    ensures page == Page(rows, if |rows| == k then Some(rows[k - 1]) else None)
  {
    var messages: seq<nat> := [];
    for j := 0 to |rows|
      invariant messages == rows[..j]
    {
      messages := messages + [rows[j]];
    }
    page := Page(messages, if |messages| == k then Some(messages[|messages| - 1]) else None);
  }

  /** The query is passed on as this filter and cursor. */
  ghost predicate Asks(q: Query, f: Filter, cursor: Option<nat>) {
    IsDay(q) && FilterOf(q) == f && q.cursor == cursor
  }

  lemma {:induction false} PageOfQuery(s: Store, f: Filter, cursor: Option<nat>, limit: int)
    ensures forall when: nat -> DateTime, q: Query :: (Dated(s, when) && Asks(q, f, cursor)
              ==> ShowsLatest(s, when, q, if limit < 1 then 1 else if limit > 500 then 500 else limit,
                              PageAt(s, f, cursor, limit)))
  {
    forall when: nat -> DateTime, q: Query | Dated(s, when) && Asks(q, f, cursor)
      ensures ShowsLatest(s, when, q, if limit < 1 then 1 else if limit > 500 then 500 else limit,
                          PageAt(s, f, cursor, limit))
    {
      PageOfUtcRows(s, when, q, limit);
    }
  }

  /** The command itself. */
  method MessagesList(s: Store, f: Filter, cursor: Option<nat>, limit: int) returns (page: Page)
    ensures page == PageAt(s, f, cursor, limit)
    ensures forall when: nat -> DateTime, q: Query :: (Dated(s, when) && Asks(q, f, cursor)
              ==> ShowsLatest(s, when, q, if limit < 1 then 1 else if limit > 500 then 500 else limit, page))
  {
    var k := Clamped(limit);
    var clauses := BuildWhere(f, cursor);
    var ids := set m | m in s.messages && forall c :: c in clauses ==> Meets(s, m, c);
    WhereMeansFound(s, f, cursor);
    var rows := Listing(s, ids);
    page := BuildPage(if |rows| < k then rows else rows[..k], k);
    PageOfQuery(s, f, cursor, limit);
  }
}
