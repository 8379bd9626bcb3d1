/** `messages list` (core/cli/messages_cmds.py): filters, newest first, `limit` rows a page, and the id
    of a full page's last row as the cursor of the next, which asks for smaller ids. */
module Paging {
  import opened Prelude
  import opened Schema
  import opened IsoText
  import opened Saving
  import opened AppleTime
  import opened Identity
  import opened History
  import opened ResumableLog
  import Archive
  import opened SyncLoop
  import Mail = MailSync
  import Chat = IMessageSync
  import ChatDb

  datatype Filter = Filter(account: Option<nat>, contact: Option<nat>, since: Option<string>)

  /** A WHERE clause with its parameter. */
  datatype Clause = AccountIs(account: nat) | Mentions(person: nat) | SentFrom(text: string) | IdBelow(cursor: nat)

  predicate Meets(s: Store, m: nat, c: Clause)
    requires m in s.messages
  {
    match c
    case AccountIs(a) => s.messages[m].account == a
    case Mentions(p) => exists r :: r in s.roles && r.message == m && r.person == p
    case SentFrom(text) => !TextLess(s.messages[m].sentAt, text)
    case IdBelow(cursor) => m < cursor
  }

  predicate Matches(s: Store, m: nat, f: Filter)
    requires m in s.messages
  {
    && (f.account.Some? ==> s.messages[m].account == f.account.value)
    && (f.contact.Some? ==> exists r :: r in s.roles && r.message == m && r.person == f.contact.value)
    && (f.since.Some? ==> !TextLess(s.messages[m].sentAt, f.since.value + "T00:00:00+00:00"))
  }

  /** The WHERE clauses of a call. */
  function Where(f: Filter, cursor: Option<nat>): seq<Clause> {
    (if f.account.Some? then [AccountIs(f.account.value)] else [])
    + (if f.contact.Some? then [Mentions(f.contact.value)] else [])
    + (if f.since.Some? then [SentFrom(f.since.value + "T00:00:00+00:00")] else [])
    + (if cursor.Some? then [IdBelow(cursor.value)] else [])
  }

  lemma {:induction false} WhereMeansFound(s: Store, f: Filter, cursor: Option<nat>)
    ensures (set m | m in s.messages && forall c :: c in Where(f, cursor) ==> Meets(s, m, c)) == Found(s, f, cursor)
  {
    forall m | m in s.messages
      ensures (forall c :: c in Where(f, cursor) ==> Meets(s, m, c)) <==> m in Found(s, f, cursor)
    {
      assert f.account.Some? ==> AccountIs(f.account.value) in Where(f, cursor);
      assert f.contact.Some? ==> Mentions(f.contact.value) in Where(f, cursor);
      assert f.since.Some? ==> SentFrom(f.since.value + "T00:00:00+00:00") in Where(f, cursor);
      assert cursor.Some? ==> IdBelow(cursor.value) in Where(f, cursor);
    }
  }

  /** The filtered messages below the cursor. */
  function Found(s: Store, f: Filter, cursor: Option<nat>): set<nat> {
    set m | m in s.messages && Matches(s, m, f) && (cursor.Some? ==> m < cursor.value)
  }

  // ---------------------------------------------------------------- ORDER BY sent_at DESC, id DESC

  predicate Newer(s: Store, m: nat, n: nat)
    requires m in s.messages && n in s.messages
  {
    TextLess(s.messages[n].sentAt, s.messages[m].sentAt) || (s.messages[n].sentAt == s.messages[m].sentAt && m > n)
  }

  lemma {:induction false} NewerIsOrder(s: Store, a: nat, b: nat, c: nat)
    requires a in s.messages && b in s.messages && c in s.messages
    ensures a != b ==> Newer(s, a, b) || Newer(s, b, a)
    ensures !(Newer(s, a, b) && Newer(s, b, a))
    ensures Newer(s, a, b) && Newer(s, b, c) ==> Newer(s, a, c)
  {
    TextOrderTotal(s.messages[a].sentAt, s.messages[b].sentAt);
    if TextLess(s.messages[b].sentAt, s.messages[a].sentAt) && TextLess(s.messages[c].sentAt, s.messages[b].sentAt) {
      TextOrderTransitive(s.messages[c].sentAt, s.messages[b].sentAt, s.messages[a].sentAt);
    }
  }

  predicate IsNewest(s: Store, ids: set<nat>, m: nat)
    requires ids <= s.messages.Keys
  {
    m in ids && forall n :: n in ids ==> n == m || Newer(s, m, n)
  }

  lemma {:induction false} NewestExists(s: Store, ids: set<nat>)
    requires ids <= s.messages.Keys && ids != {}
    ensures exists m :: m in ids && IsNewest(s, ids, m)
  {
    var x :| x in ids;
    if ids == {x} {
      assert IsNewest(s, ids, x);
    } else {
      NewestExists(s, ids - {x});
      var m :| m in ids - {x} && IsNewest(s, ids - {x}, m);
      assert x in s.messages && m in s.messages;
      var best := if Newer(s, x, m) then x else m;
      forall n | n in ids ensures n == best || Newer(s, best, n) {
        NewerIsOrder(s, x, m, n);
      }
      assert IsNewest(s, ids, best);
    }
  }

  lemma {:induction false} NewestIsUnique(s: Store, ids: set<nat>)
    requires ids <= s.messages.Keys
    ensures forall m, n :: IsNewest(s, ids, m) && IsNewest(s, ids, n) ==> m == n
  {
    forall m, n | IsNewest(s, ids, m) && IsNewest(s, ids, n) ensures m == n {
      NewerIsOrder(s, m, n, n);
    }
  }

  /** The rows of a SELECT in its order. */
  function Listing(s: Store, ids: set<nat>): seq<nat>
    requires ids <= s.messages.Keys
    decreases ids
  {
    if ids == {} then [] else
      NewestExists(s, ids);
      NewestIsUnique(s, ids);
      var m :| m in ids && IsNewest(s, ids, m);
      [m] + Listing(s, ids - {m})
  }

  ghost predicate NewestFirst(s: Store, l: seq<nat>) {
    && (forall i :: 0 <= i < |l| ==> l[i] in s.messages)
    && (forall i, j :: 0 <= i < j < |l| ==> Newer(s, l[i], l[j]))
  }

  ghost predicate Lists(s: Store, ids: set<nat>, l: seq<nat>) {
    NewestFirst(s, l) && forall m :: m in l <==> m in ids
  }

  lemma {:induction false} ListingLists(s: Store, ids: set<nat>)
    requires ids <= s.messages.Keys
    ensures Lists(s, ids, Listing(s, ids))
    decreases ids
  {
    if ids != {} {
      var l := Listing(s, ids);
      var m := l[0];
      assert IsNewest(s, ids, m);
      ListingLists(s, ids - {m});
      assert l == [m] + Listing(s, ids - {m});
    }
  }

  /** Only one sequence lists a set newest first. */
  lemma {:induction false} ListingIsUnique(s: Store, ids: set<nat>, l: seq<nat>)
    requires ids <= s.messages.Keys && Lists(s, ids, l)
    ensures l == Listing(s, ids)
    decreases ids
  {
    if l == [] {
      assert ids == {};
    } else {
      assert l[0] in l;
      FirstIsNewest(s, ids, l);
      NewestIsUnique(s, ids);
      assert IsNewest(s, ids, Listing(s, ids)[0]);
      RestLists(s, ids, l);
      ListingIsUnique(s, ids - {l[0]}, l[1..]);
      assert l == [l[0]] + l[1..];
    }
  }

  lemma {:induction false} FirstIsNewest(s: Store, ids: set<nat>, l: seq<nat>)
    requires ids <= s.messages.Keys && Lists(s, ids, l) && l != []
    ensures IsNewest(s, ids, l[0])
  {
    assert l[0] in l;
    forall n | n in ids ensures n == l[0] || Newer(s, l[0], n) {
      var i :| 0 <= i < |l| && l[i] == n;
    }
  }

  lemma {:induction false} RestLists(s: Store, ids: set<nat>, l: seq<nat>)
    requires ids <= s.messages.Keys && Lists(s, ids, l) && l != []
    ensures Lists(s, ids - {l[0]}, l[1..])
  {
    forall m ensures m in l[1..] <==> m in ids - {l[0]} {
      if m in l[1..] {
        var i :| 0 < i < |l| && l[i] == m;
        assert l[i] in l;
        NewerIsOrder(s, l[0], m, m);
      }
      if m in ids - {l[0]} {
        var i :| 0 <= i < |l| && l[i] == m;
        assert l[1..][i - 1] == m;
      }
    }
  }

  // ---------------------------------------------------------------- pages

  function Clamped(limit: int): (k: nat)
    ensures 1 <= k <= 500
  {
    if limit < 1 then 1 else if limit > 500 then 500 else limit
  }

  datatype Page = Page(messages: seq<nat>, next: Option<nat>)

  function PageOf(rows: seq<nat>, k: nat): Page
    requires k > 0
  {
    if |rows| < k then Page(rows, None) else Page(rows[..k], Some(rows[k - 1]))
  }

  function PageAt(s: Store, f: Filter, cursor: Option<nat>, limit: int): Page {
    PageOf(Listing(s, Found(s, f, cursor)), Clamped(limit))
  }

  lemma {:induction false} CursorShrinks(s: Store, f: Filter, cursor: Option<nat>, limit: int)
    requires PageAt(s, f, cursor, limit).next.Some?
    ensures Found(s, f, PageAt(s, f, cursor, limit).next) < Found(s, f, cursor)
    ensures cursor.Some? ==> PageAt(s, f, cursor, limit).next.value < cursor.value
  {
    var ids := Found(s, f, cursor);
    var c := PageAt(s, f, cursor, limit).next.value;
    ListingLists(s, ids);
    assert c in Listing(s, ids);
    assert c !in Found(s, f, Some(c));
  }

  /** Following `next_cursor` to the end; it ends for any table. */
  function Pages(s: Store, f: Filter, cursor: Option<nat>, limit: int): seq<nat>
    decreases Found(s, f, cursor)
  {
    var page := PageAt(s, f, cursor, limit);
    if page.next.None? then page.messages else
      CursorShrinks(s, f, cursor, limit);
      page.messages + Pages(s, f, page.next, limit)
  }

  // ---------------------------------------------------------------- exactly when paging is exact

  /** Among the filtered messages, a larger id never has an earlier time. */
  ghost predicate IdsFollowTime(s: Store, f: Filter) {
    forall m, n :: m in Found(s, f, None) && n in Found(s, f, None) && m < n
      ==> !TextLess(s.messages[n].sentAt, s.messages[m].sentAt)
  }

  ghost predicate Descending(l: seq<nat>) {
    forall i, j :: 0 <= i < j < |l| ==> l[i] > l[j]
  }

  lemma {:induction false} ListingDescends(s: Store, f: Filter, cursor: Option<nat>)
    requires IdsFollowTime(s, f)
    ensures Descending(Listing(s, Found(s, f, cursor)))
  {
    var ids := Found(s, f, cursor);
    var l := Listing(s, ids);
    ListingLists(s, ids);
    forall i, j | 0 <= i < j < |l| ensures l[i] > l[j] {
      assert l[i] in l && l[j] in l;
      assert l[i] in Found(s, f, None) && l[j] in Found(s, f, None);
      assert Newer(s, l[i], l[j]);
      NewerIsOrder(s, l[i], l[j], l[j]);
    }
  }

  lemma {:induction false} RestIsBelow(s: Store, ids: set<nat>, below: set<nat>, l: seq<nat>, k: nat)
    requires Lists(s, ids, l) && Descending(l) && 0 < k <= |l|
    requires below <= ids && forall m :: m in ids ==> (m in below <==> m < l[k - 1])
    ensures Lists(s, below, l[k..])
  {
    forall m ensures m in l[k..] <==> m in below {
      if m in l[k..] {
        var i :| k <= i < |l| && l[i] == m;
        assert l[i] in l;
      }
      if m in below {
        assert m in l;
        var i :| 0 <= i < |l| && l[i] == m;
        assert i >= k;
        assert l[k..][i - k] == m;
      }
    }
  }

  /** When ids descend along the listing, what lies below a row's id is the rest of the listing. */
  lemma {:induction false} BelowIsRest(s: Store, f: Filter, cursor: Option<nat>, k: nat)
    requires IdsFollowTime(s, f)
    requires var l := Listing(s, Found(s, f, cursor)); 0 < k <= |l|
    ensures var l := Listing(s, Found(s, f, cursor)); Listing(s, Found(s, f, Some(l[k - 1]))) == l[k..]
  {
    var ids := Found(s, f, cursor);
    var l := Listing(s, ids);
    ListingLists(s, ids);
    ListingDescends(s, f, cursor);
    assert l[k - 1] in l;
    var below := Found(s, f, Some(l[k - 1]));
    RestIsBelow(s, ids, below, l, k);
    ListingIsUnique(s, below, l[k..]);
  }

  lemma {:induction false} NextPageAdds(s: Store, f: Filter, cursor: Option<nat>, limit: int)
    requires IdsFollowTime(s, f)
    ensures var page, l := PageAt(s, f, cursor, limit), Listing(s, Found(s, f, cursor));
            if page.next.None? then page.messages == l
            else page.messages + Listing(s, Found(s, f, page.next)) == l
  {
    var l, k := Listing(s, Found(s, f, cursor)), Clamped(limit);
    if |l| >= k {
      BelowIsRest(s, f, cursor, k);
      assert l[..k] + l[k..] == l;
    }
  }

  lemma {:induction false} PagesAreListing(s: Store, f: Filter, cursor: Option<nat>, limit: int)
    requires IdsFollowTime(s, f)
    ensures Pages(s, f, cursor, limit) == Listing(s, Found(s, f, cursor))
    decreases Found(s, f, cursor)
  {
    var page := PageAt(s, f, cursor, limit);
    NextPageAdds(s, f, cursor, limit);
    if page.next.Some? {
      CursorShrinks(s, f, cursor, limit);
      PagesAreListing(s, f, page.next, limit);
    }
  }

  /** Pages of one row always come in descending ids. */
  lemma {:induction false} SinglesDescend(s: Store, f: Filter, cursor: Option<nat>)
    ensures Descending(Pages(s, f, cursor, 1))
    ensures cursor.Some? ==> forall i :: 0 <= i < |Pages(s, f, cursor, 1)| ==> Pages(s, f, cursor, 1)[i] < cursor.value
    decreases Found(s, f, cursor)
  {
    var page := PageAt(s, f, cursor, 1);
    if page.next.Some? {
      CursorShrinks(s, f, cursor, 1);
      SinglesDescend(s, f, page.next);
      var rest := Pages(s, f, page.next, 1);
      assert page.messages == [page.next.value];
      assert Pages(s, f, cursor, 1) == [page.next.value] + rest;
    }
  }

  lemma {:induction false} DescendingFollowsTime(s: Store, f: Filter)
    requires Descending(Listing(s, Found(s, f, None)))
    ensures IdsFollowTime(s, f)
  {
    var ids := Found(s, f, None);
    var l := Listing(s, ids);
    ListingLists(s, ids);
    forall m, n | m in ids && n in ids && m < n ensures !TextLess(s.messages[n].sentAt, s.messages[m].sentAt) {
      assert m in l && n in l;
      var i :| 0 <= i < |l| && l[i] == m;
      var j :| 0 <= j < |l| && l[j] == n;
      assert j < i;
      TextOrderTotal(s.messages[m].sentAt, s.messages[n].sentAt);
    }
  }

  /** Whatever the page size, the pages put together are the listing. */
  ghost predicate PagingIsExact(s: Store, f: Filter) {
    forall limit :: Pages(s, f, None, limit) == Listing(s, Found(s, f, None))
  }

  lemma {:induction false} ExactFollowsTime(s: Store, f: Filter)
    requires PagingIsExact(s, f)
    ensures IdsFollowTime(s, f)
  {
    assert Pages(s, f, None, 1) == Listing(s, Found(s, f, None));
    SinglesDescend(s, f, None);
    DescendingFollowsTime(s, f);
  }

  /** Paging is exact if and only if ids follow time. */
  lemma {:induction false} PagingIsExactIff(s: Store, f: Filter)
    ensures PagingIsExact(s, f) <==> IdsFollowTime(s, f)
  {
    if PagingIsExact(s, f) {
      ExactFollowsTime(s, f);
    }
    if IdsFollowTime(s, f) {
      forall limit ensures Pages(s, f, None, limit) == Listing(s, Found(s, f, None)) {
        PagesAreListing(s, f, None, limit);
      }
    }
  }

  // ---------------------------------------------------------------- a row that no page shows

  lemma {:induction false} SecondIsUnseen(t: Store, f: Filter, first: nat, second: nat)
    requires Found(t, f, None) == {first, second} && first < second
    requires TextLess(t.messages[second].sentAt, t.messages[first].sentAt)
    ensures Listing(t, Found(t, f, None)) == [first, second] && Pages(t, f, None, 1) == [first]
  {
    ListingIsUnique(t, {first, second}, [first, second]);
    assert [first, second][..1] == [first];
    assert PageAt(t, f, None, 1) == Page([first], Some(first));
    forall m | m in Found(t, f, Some(first)) ensures m in Found(t, f, None) && m < first {}
    assert Found(t, f, Some(first)) == {};
    assert Listing(t, {}) == [];
    assert PageAt(t, f, Some(first), 1) == Page([], None);
    assert Pages(t, f, Some(first), 1) == [];
  }

  lemma {:induction false} TwoRowsFound(s: Store, t: Store, account: nat, a: nat, b: nat, first: Message,
                                        second: Message)
    requires Archive.MessageIds(s, account) == {} && first.account == account && second.account == account
    requires a != b && t.messages == s.messages[a := first][b := second]
    ensures Found(t, Filter(Some(account), None, None), None) == {a, b}
  {
    forall m | m in s.messages ensures s.messages[m].account != account {
      assert m !in Archive.MessageIds(s, account);
    }
  }

  /** Two mails, the second saved with the earlier date: the listing has both, pages of one row show
      only the first. */
  lemma {:induction false} PagingLosesRow(x: Library, s: Store, account: nat, first: Incoming, second: Incoming)
    requires Valid(s) && Archive.ForAccount(s, account, [first]) && Archive.ForAccount(s, account, [second])
    requires Archive.MessageIds(s, account) == {} && first.externalId != second.externalId
    requires TextLess(second.sentAt, first.sentAt)
    ensures var (u, a) := SaveMessage(x, s, first);
            var (t, b) := SaveMessage(x, u, second);
            var f := Filter(Some(account), None, None);
            && a.Inserted? && b.Inserted?
            && Listing(t, Found(t, f, None)) == [a.id, b.id] && Pages(t, f, None, 1) == [a.id]
  {
    assert [first][0] == first && [second][0] == second;
    NothingNamed(s, account, first.externalId);
    Inserts(x, s, account, first);
    var (u, a) := SaveMessage(x, s, first);
    OnlyOneNamed(s, u, account, a.id, second.externalId);
    Inserts(x, u, account, second);
    var (t, b) := SaveMessage(x, u, second);
    TwoRowsFound(s, t, account, a.id, b.id, u.messages[a.id], t.messages[b.id]);
    SecondIsUnseen(t, Filter(Some(account), None, None), a.id, b.id);
  }

  lemma {:induction false} NothingNamed(s: Store, account: nat, e: string)
    requires Archive.MessageIds(s, account) == {}
    ensures MessagesNamed(s.messages, account, e) == {}
  {
    forall m | m in MessagesNamed(s.messages, account, e) ensures m in Archive.MessageIds(s, account) {}
  }

  lemma {:induction false} OnlyOneNamed(s: Store, u: Store, account: nat, id: nat, e: string)
    requires Archive.MessageIds(s, account) == {} && id in u.messages && u.messages[id].externalId != e
    requires u.messages == s.messages[id := u.messages[id]]
    ensures MessagesNamed(u.messages, account, e) == {}
  {
    NothingNamed(s, account, e);
    forall m | m in MessagesNamed(u.messages, account, e) ensures m in MessagesNamed(s.messages, account, e) {}
  }

  lemma {:induction false} Inserts(x: Library, s: Store, account: nat, m: Incoming)
    requires Valid(s) && account in s.accounts && m.account == account && OneFrom(m)
    requires MessagesNamed(s.messages, account, m.externalId) == {}
    ensures var (t, o) := SaveMessage(x, s, m);
            && Valid(t) && account in t.accounts && o.Inserted? && o.id == NextId(s.messages.Keys)
            && t.messages == s.messages[o.id := RowOf(s.accounts[account].source, m)]
  {
    Archive.SaveArchives(x, s, m);
    Archive.KnownIsArchived(s, account, m.externalId);
    SaveAddsLast(x, s, m);
  }

  // ---------------------------------------------------------------- what iMessage sync keeps

  /** No stored message of the account is later than `text`. */
  ghost predicate NoneLater(s: Store, account: nat, text: string) {
    forall m :: m in s.messages && s.messages[m].account == account ==> !TextLess(text, s.messages[m].sentAt)
  }

  ghost predicate TimeOrdered(s: Store, account: nat) {
    forall m, n :: m in s.messages && n in s.messages && m < n
      && s.messages[m].account == account && s.messages[n].account == account
      ==> !TextLess(s.messages[n].sentAt, s.messages[m].sentAt)
  }

  lemma {:induction false} SaveAddsLast(x: Library, s: Store, m: Incoming)
    ensures var (t, o) := SaveMessage(x, s, m);
            || t.messages == s.messages
            || (o.Inserted? && o.id == NextId(s.messages.Keys) && m.account in s.accounts
                && t.messages == s.messages[o.id := RowOf(s.accounts[m.account].source, m)])
  {
    PeopleLeaveMessages(WriteBlobs(x, s, m.blobs), Contacts(m.parties));
    BlobsLeaveMessages(x, s, m.blobs);
  }

  lemma {:induction false} PeopleLeaveMessages(s: Store, cs: seq<Contact>)
    ensures FindOrCreateAll(s, cs).0.messages == s.messages && FindOrCreateAll(s, cs).0.accounts == s.accounts
    decreases |cs|
  {
    if cs != [] { PeopleLeaveMessages(s, cs[..|cs| - 1]); }
  }

  lemma {:induction false} BlobsLeaveMessages(x: Library, s: Store, blobs: seq<Blob>)
    ensures WriteBlobs(x, s, blobs).messages == s.messages && WriteBlobs(x, s, blobs).accounts == s.accounts
    decreases |blobs|
  {
    if blobs != [] { BlobsLeaveMessages(x, s, blobs[..|blobs| - 1]); }
  }

  /** A new last row no earlier than the others keeps the order. */
  lemma {:induction false} LastRowKeepsOrder(s: Store, t: Store, account: nat, id: nat, row: Message)
    requires TimeOrdered(s, account) && NoneLater(s, account, row.sentAt)
    requires t.messages == s.messages[id := row] && forall m :: m in s.messages ==> m < id
    ensures TimeOrdered(t, account)
  {
  }

  lemma {:induction false} LastRowNoneLater(s: Store, t: Store, account: nat, id: nat, row: Message, text: string)
    requires NoneLater(s, account, text) && !TextLess(text, row.sentAt)
    requires t.messages == s.messages[id := row] && id !in s.messages
    ensures NoneLater(t, account, text)
  {
  }

  ghost predicate Rising(ms: seq<Incoming>) {
    forall i, j :: 0 <= i <= j < |ms| ==> !TextLess(ms[j].sentAt, ms[i].sentAt)
  }

  /** The account's rows, by id. */
  ghost function OwnRows(s: Store, account: nat): map<nat, Message> {
    map m | m in s.messages && s.messages[m].account == account :: s.messages[m]
  }

  lemma {:induction false} SameOwnRows(s: Store, t: Store, account: nat)
    requires OwnRows(t, account) == OwnRows(s, account)
    ensures TimeOrdered(s, account) ==> TimeOrdered(t, account)
    ensures AllStamped(s, account) ==> AllStamped(t, account)
    ensures forall text :: NoneLater(s, account, text) ==> NoneLater(t, account, text)
  {
    assert forall m :: (m in t.messages && t.messages[m].account == account
                        ==> m in OwnRows(t, account) && OwnRows(t, account)[m] == t.messages[m]);
    assert forall m :: (m in OwnRows(s, account)
                        ==> m in s.messages && s.messages[m].account == account
                            && OwnRows(s, account)[m] == s.messages[m]);
  }

  ghost function RowsStay(s: Store, account: nat): Store -> bool {
    (t: Store) => OwnRows(t, account) == OwnRows(s, account)
  }

  lemma {:induction false} OtherKeepsRows(x: Library, s: Store, step: Step, account: nat)
    requires Archive.Foreign(step, account)
    ensures OwnRows(Exec(x, s, step), account) == OwnRows(s, account)
  {
    Archive.OnlySavesAddRows(x, s, step);
  }

  /** Others add rows of their own accounts only. */
  lemma {:induction false} OthersKeepRows(x: Library, s: Store, account: nat)
    ensures Archive.KeptByOthers(x, account, RowsStay(s, account))
  {
    forall t: Store, step | RowsStay(s, account)(t) && Archive.Foreign(step, account)
      ensures RowsStay(s, account)(Exec(x, t, step))
    {
      OtherKeepsRows(x, t, step, account);
    }
  }

  /** One more row, with an id above all others, or none. */
  lemma {:induction false} InsertKeepsOrder(x: Library, s: Store, account: nat, m: Incoming, pids: seq<nat>)
    requires |pids| == |m.parties| && TimeOrdered(s, account) && NoneLater(s, account, m.sentAt)
    ensures TimeOrdered(InsertMessage(x, s, m, pids).0, account)
    ensures forall text :: (NoneLater(s, account, text) && !TextLess(text, m.sentAt)
                            ==> NoneLater(InsertMessage(x, s, m, pids).0, account, text))
  {
    var (t, o) := InsertMessage(x, s, m, pids);
    if o.Inserted? {
      var row := RowOf(s.accounts[m.account].source, m);
      LastRowKeepsOrder(s, t, account, o.id, row);
      forall text | NoneLater(s, account, text) && !TextLess(text, m.sentAt) ensures NoneLater(t, account, text) {
        LastRowNoneLater(s, t, account, o.id, row, text);
      }
    }
  }

  lemma {:induction false} SaveKeepsOrder(x: Library, s: Store, m: Incoming, others: Archive.Others)
    requires Archive.NoneOwn(others, m.account)
    requires TimeOrdered(s, m.account) && NoneLater(s, m.account, m.sentAt)
    ensures TimeOrdered(Archive.SaveAmid(x, s, m, others).0, m.account)
    ensures forall text :: (NoneLater(s, m.account, text) && !TextLess(text, m.sentAt)
                            ==> NoneLater(Archive.SaveAmid(x, s, m, others).0, m.account, text))
  {
    var (t, pids) := Archive.LookedUpAmid(x, s, m, others);
    OthersKeepRows(x, s, m.account);
    Archive.LookedUpKeeps(x, s, m, others, RowsStay(s, m.account));
    SameOwnRows(s, t, m.account);
    InsertKeepsOrder(x, t, m.account, m, pids);
  }

  ghost predicate NoLaterThan(ms: seq<Incoming>, text: string) {
    forall k :: 0 <= k < |ms| ==> !TextLess(text, ms[k].sentAt)
  }

  /** `u` is in time order and has nothing later than `s` and `ms`. */
  ghost predicate OrderedAfter(s: Store, account: nat, ms: seq<Incoming>, u: Store) {
    && TimeOrdered(u, account)
    && (forall text :: NoneLater(s, account, text) && NoLaterThan(ms, text) ==> NoneLater(u, account, text))
  }

  lemma {:induction false} NextKeepsOrder(x: Library, s: Store, u: Store, ms: seq<Incoming>, m: Incoming,
                                          others: Archive.Others)
    requires Archive.NoneOwn(others, m.account) && OrderedAfter(s, m.account, ms, u)
    requires NoneLater(s, m.account, m.sentAt) && NoLaterThan(ms, m.sentAt)
    ensures OrderedAfter(s, m.account, ms + [m], Archive.SaveAmid(x, u, m, others).0)
  {
    SaveKeepsOrder(x, u, m, others);
    forall text | NoLaterThan(ms + [m], text) ensures NoLaterThan(ms, text) && !TextLess(text, m.sentAt) {
      assert (ms + [m])[|ms|] == m && forall k :: 0 <= k < |ms| ==> (ms + [m])[k] == ms[k];
    }
  }

  lemma {:induction false} FrontOrdered(s: Store, account: nat, ms: seq<Incoming>, m: Incoming, u: Store)
    requires OrderedAfter(s, account, ms, u)
    ensures OrderedAfter(s, account, ms + [m], u)
  {
    forall text | NoLaterThan(ms + [m], text) ensures NoLaterThan(ms, text) {
      assert forall k :: 0 <= k < |ms| ==> (ms + [m])[k] == ms[k];
    }
  }

  lemma {:induction false} TallyKeepsOrder(x: Library, s: Store, t: Archive.Tally, ms: seq<Incoming>, m: Incoming,
                                           others: Archive.Others)
    requires Archive.NoneOwn(others, m.account) && OrderedAfter(s, m.account, ms, t.store)
    requires NoneLater(s, m.account, m.sentAt) && NoLaterThan(ms, m.sentAt)
    ensures OrderedAfter(s, m.account, ms + [m], t.store)
    ensures var (u, o) := Archive.SaveAmid(x, t.store, m, others);
            OrderedAfter(s, m.account, ms + [m], Archive.Counted(t, u, o).store)
  {
    FrontOrdered(s, m.account, ms, m, t.store);
    NextKeepsOrder(x, s, t.store, ms, m, others);
  }

  lemma {:induction false} RisesToLast(ms: seq<Incoming>)
    requires Rising(ms) && ms != []
    ensures var front := ms[..|ms| - 1];
            ms == front + [ms[|ms| - 1]] && Rising(front) && NoLaterThan(front, ms[|ms| - 1].sentAt)
  {
  }

  /** Saving messages in time order, none earlier than what is stored, keeps ids in time order, whatever
      others write meanwhile. */
  lemma {:induction false} SavesKeepOrder(x: Library, s: Store, account: nat, ms: seq<Incoming>,
                                          amid: Archive.Meanwhile)
    requires TimeOrdered(s, account) && Rising(ms) && Archive.NeverOwn(amid, account) && Owned(account, ms)
    requires forall k :: 0 <= k < |ms| ==> NoneLater(s, account, ms[k].sentAt)
    ensures OrderedAfter(s, account, ms, Archive.SaveEachAmid(x, s, account, ms, amid).store)
    decreases |ms|
  {
    if ms != [] {
      var front, m := ms[..|ms| - 1], ms[|ms| - 1];
      RisesToLast(ms);
      SavesKeepOrder(x, s, account, front, amid);
      assert Archive.NoneOwn(amid(|ms| - 1), account);
      TallyKeepsOrder(x, s, Archive.SaveEachAmid(x, s, account, front, amid), front, m, amid(|ms| - 1));
    }
  }

  /** Every message of the account carries the stamp of some instant in range. */
  ghost predicate AllStamped(s: Store, account: nat) {
    forall m :: m in s.messages && s.messages[m].account == account ==> IsStamp(s.messages[m].sentAt)
  }

  ghost predicate IsStamp(text: string) {
    exists us: nat :: us <= MAX_MICROS && text == Stamp(us)
  }

  lemma {:induction false} InsertKeepsStamps(x: Library, s: Store, account: nat, m: Incoming, pids: seq<nat>)
    requires |pids| == |m.parties| && AllStamped(s, account) && IsStamp(m.sentAt)
    ensures AllStamped(InsertMessage(x, s, m, pids).0, account)
  {
  }

  lemma {:induction false} SaveKeepsStamps(x: Library, s: Store, m: Incoming, others: Archive.Others)
    requires Archive.NoneOwn(others, m.account) && AllStamped(s, m.account) && IsStamp(m.sentAt)
    ensures AllStamped(Archive.SaveAmid(x, s, m, others).0, m.account)
  {
    var (t, pids) := Archive.LookedUpAmid(x, s, m, others);
    OthersKeepRows(x, s, m.account);
    Archive.LookedUpKeeps(x, s, m, others, RowsStay(s, m.account));
    SameOwnRows(s, t, m.account);
    InsertKeepsStamps(x, t, m.account, m, pids);
  }

  lemma {:induction false} SavesKeepStamps(x: Library, s: Store, account: nat, ms: seq<Incoming>,
                                           amid: Archive.Meanwhile)
    requires AllStamped(s, account) && Archive.NeverOwn(amid, account) && Owned(account, ms)
    requires forall k :: 0 <= k < |ms| ==> IsStamp(ms[k].sentAt)
    ensures AllStamped(Archive.SaveEachAmid(x, s, account, ms, amid).store, account)
    decreases |ms|
  {
    if ms != [] {
      var u := Archive.SaveEachAmid(x, s, account, ms[..|ms| - 1], amid);
      SavesKeepStamps(x, s, account, ms[..|ms| - 1], amid);
      if u.error.None? {
        assert Archive.NoneOwn(amid(|ms| - 1), account);
        SaveKeepsStamps(x, u.store, ms[|ms| - 1], amid(|ms| - 1));
      }
    }
  }

  /** chat.db in the helper's order, within the range of exact conversion. */
  ghost predicate InOrder(rows: seq<Chat.ChatRow>) {
    && (forall i :: 0 <= i < |rows| ==> rows[i].ns <= MAX_NANOS)
    && (forall i, j :: 0 <= i <= j < |rows| ==> rows[i].ns <= rows[j].ns)
  }

  lemma {:induction false} RowsRise(rows: seq<Chat.ChatRow>, i: nat, j: nat)
    requires InOrder(rows) && i <= j < |rows|
    ensures !TextLess(Stamp(ToMicros(rows[j].ns)), Stamp(ToMicros(rows[i].ns)))
    ensures IsStamp(Stamp(ToMicros(rows[i].ns)))
  {
    ToMicrosMonotone(rows[i].ns, rows[j].ns);
    MicrosInRange(rows[i].ns);
    MicrosInRange(rows[j].ns);
    StampOrder(ToMicros(rows[j].ns), ToMicros(rows[i].ns));
  }

  /** A date past the watermark of a stamp is stamped no earlier. */
  lemma {:induction false} PastWatermark(us: nat, ns: nat)
    requires us <= MAX_MICROS && ns <= MAX_NANOS && ns > ToNanos(us)
    ensures !TextLess(Stamp(ToMicros(ns)), Stamp(us))
  {
    MicrosRoundTrip(us);
    ToMicrosMonotone(ToNanos(us), ns);
    MicrosInRange(ns);
    StampOrder(ToMicros(ns), us);
  }

  lemma {:induction false} WindowPasses(rows: seq<Chat.ChatRow>, ns: int, seen: nat, i: nat)
    requires InOrder(rows) && seen <= |rows| && Chat.Dropped(Chat.Dates(rows)[..seen], Chat.After(ns)) <= i < seen
    ensures rows[i].ns > ns
  {
    Chat.DroppedSplits(Chat.Dates(rows)[..seen], ns);
    assert Chat.Dates(rows)[..seen][i] == rows[i].ns;
  }

  lemma {:induction false} LatestBounds(s: Store, account: nat, m: nat)
    requires m in s.messages && s.messages[m].account == account
    ensures Chat.LatestSentAt(s, account).Some?
    ensures !TextLess(Chat.LatestSentAt(s, account).value, s.messages[m].sentAt)
  {
    var row := s.messages[m];
    assert row in Mail.RowsOf(s, account);
    assert row.sentAt in Chat.SentAts(Mail.RowsOf(s, account));
    TextOrderTotal(row.sentAt, Chat.LatestSentAt(s, account).value);
  }

  lemma {:induction false} NotBelow(a: string, b: string, c: string)
    requires !TextLess(a, b) && !TextLess(b, c)
    ensures !TextLess(a, c)
  {
    TextOrderTotal(a, b);
    TextOrderTotal(b, c);
    TextOrderTotal(a, c);
    if a != b && b != c { TextOrderTransitive(c, b, a); }
  }

  /** What a run reads is no earlier than what is stored. */
  lemma {:induction false} WindowIsLater(s: Store, account: nat, rows: seq<Chat.ChatRow>, seen: nat, i: nat)
    requires AllStamped(s, account) && InOrder(rows) && seen <= |rows|
    requires Chat.Dropped(Chat.Dates(rows)[..seen], Chat.ResumeFrom(Chat.LatestSentAt(s, account))) <= i < seen
    ensures NoneLater(s, account, Stamp(ToMicros(rows[i].ns)))
  {
    forall m | m in s.messages && s.messages[m].account == account
      ensures !TextLess(Stamp(ToMicros(rows[i].ns)), s.messages[m].sentAt)
    {
      assert s.messages[m] in Mail.RowsOf(s, account);
      LatestIsStamp(s, account);
      var us: nat :| us <= MAX_MICROS && Chat.LatestSentAt(s, account) == Some(Stamp(us));
      Chat.StampResumes(us);
      WindowPasses(rows, ToNanos(us), seen, i);
      PastWatermark(us, rows[i].ns);
      LatestBounds(s, account, m);
      NotBelow(Stamp(ToMicros(rows[i].ns)), Stamp(us), s.messages[m].sentAt);
    }
  }

  lemma {:induction false} LatestIsStamp(s: Store, account: nat)
    requires AllStamped(s, account) && Mail.RowsOf(s, account) != {}
    ensures exists us: nat :: us <= MAX_MICROS && Chat.LatestSentAt(s, account) == Some(Stamp(us))
  {
    var texts := Chat.SentAts(Mail.RowsOf(s, account));
    var row :| row in Mail.RowsOf(s, account);
    assert row.sentAt in texts;
    var latest := Chat.LatestSentAt(s, account);
    assert latest.value in texts;
    var last :| last in Mail.RowsOf(s, account) && last.sentAt == latest.value;
    var m :| m in s.messages && s.messages[m].account == account && s.messages[m] == last;
    assert IsStamp(s.messages[m].sentAt);
    var us: nat :| us <= MAX_MICROS && last.sentAt == Stamp(us);
    assert latest == Some(Stamp(us));
  }

  lemma {:induction false} StampedRises(rows: seq<Chat.ChatRow>)
    requires InOrder(rows)
    ensures Rising(Chat.Stamped(rows))
    ensures forall i :: 0 <= i < |rows| ==> IsStamp(Chat.Stamped(rows)[i].sentAt)
  {
    var all := Chat.Stamped(rows);
    forall i, j | 0 <= i <= j < |all| ensures !TextLess(all[j].sentAt, all[i].sentAt) && IsStamp(all[i].sentAt) {
      RowsRise(rows, i, j);
    }
    forall i | 0 <= i < |all| ensures IsStamp(all[i].sentAt) {
      RowsRise(rows, i, i);
    }
  }

  lemma {:induction false} SliceRises(all: seq<Incoming>, a: nat, b: nat)
    requires Rising(all) && a <= b <= |all|
    ensures Rising(all[a..b])
  {
  }

  lemma {:induction false} WindowInOrder(s: Store, account: nat, rows: seq<Chat.ChatRow>, p: Pass, i: nat)
    requires AllStamped(s, account) && InOrder(rows)
    requires var w := Window(Chat.StartInTables(account, rows), s, |rows|, p); w.0 <= i < w.1
    ensures NoneLater(s, account, Chat.Stamped(rows)[i].sentAt)
  {
    var seen := AtMost(p.visible, |rows|);
    Chat.StartsFrom(s, account, rows, Chat.ResumeFrom(Chat.LatestSentAt(s, account)), seen);
    WindowIsLater(s, account, rows, seen, i);
  }

  lemma {:induction false} VisitedInOrder(s: Store, account: nat, rows: seq<Chat.ChatRow>, p: Pass)
    requires AllStamped(s, account) && InOrder(rows)
    ensures var ms := Visited(Chat.StartInTables(account, rows), s, Chat.Stamped(rows), p);
            && Rising(ms)
            && (forall k :: 0 <= k < |ms| ==> NoneLater(s, account, ms[k].sentAt) && IsStamp(ms[k].sentAt))
  {
    var all := Chat.Stamped(rows);
    var w := Window(Chat.StartInTables(account, rows), s, |rows|, p);
    StampedRises(rows);
    forall i | w.0 <= i < w.1 ensures NoneLater(s, account, all[i].sentAt) {
      WindowInOrder(s, account, rows, p, i);
    }
    SliceRises(all, w.0, w.1);
  }

  lemma {:induction false} PassKeepsOrder(x: Library, s: Store, account: nat, rows: seq<Chat.ChatRow>, r: Shared)
    requires TimeOrdered(s, account) && AllStamped(s, account) && InOrder(rows)
    requires Mine(account, r) && Owned(account, Chat.Stamped(rows))
    ensures var t := SharedPass(x, s, account, Chat.StartInTables(account, rows), Chat.Stamped(rows), r).store;
            TimeOrdered(t, account) && AllStamped(t, account)
  {
    OthersKeepRows(x, s, account);
    Archive.RunKeeps(x, s, r.before, account, RowsStay(s, account));
    var u := Run(x, s, r.before);
    SameOwnRows(s, u, account);
    VisitedInOrder(u, account, rows, r.pass);
    var ms := Visited(Chat.StartInTables(account, rows), u, Chat.Stamped(rows), r.pass);
    SavesKeepOrder(x, u, account, ms, r.amid);
    SavesKeepStamps(x, u, account, ms, r.amid);
  }

  lemma {:induction false} PassesKeepOrder(x: Library, s: Store, account: nat, rows: seq<Chat.ChatRow>,
                                           rs: seq<Shared>)
    requires TimeOrdered(s, account) && AllStamped(s, account) && InOrder(rows)
    requires AllMine(account, rs) && Owned(account, Chat.Stamped(rows))
    ensures var t := AfterShared(x, s, account, Chat.StartInTables(account, rows), Chat.Stamped(rows), rs);
            TimeOrdered(t, account) && AllStamped(t, account)
    decreases |rs|
  {
    if rs != [] {
      PassesKeepOrder(x, s, account, rows, rs[..|rs| - 1]);
      var start, ms := Chat.StartInTables(account, rows), Chat.Stamped(rows);
      PassKeepsOrder(x, AfterShared(x, s, account, start, ms, rs[..|rs| - 1]), account, rows, rs[|rs| - 1]);
    }
  }

  lemma {:induction false} RecordsInOrder(x: Library, account: nat, rows: seq<ChatDb.DbRow>)
    requires ChatDb.OnDisk(rows, account)
    ensures InOrder(ChatDb.Records(x, rows))
  {
    var rs := ChatDb.Records(x, rows);
    assert forall i :: 0 <= i < |rs| ==> rs[i].ns == rows[i].ns;
  }

  /** For an account filled by iMessage sync alone, however interrupted and whatever others write, paging
      is exact. */
  lemma {:induction false} PagingIsExactAfterSync(x: Library, s: Store, account: nat, rows: seq<ChatDb.DbRow>,
                                                  rs: seq<Shared>, f: Filter, limit: int)
    requires ChatDb.OnDisk(rows, account) && AllMine(account, rs) && f.account == Some(account)
    requires forall m :: m in s.messages ==> s.messages[m].account != account
    ensures var t := ChatDb.AfterChats(x, s, account, rows, rs);
            Pages(t, f, None, limit) == Listing(t, Found(t, f, None))
  {
    RecordsInOrder(x, account, rows);
    ChatDb.RecordsAreOwned(x, rows, account);
    PassesKeepOrder(x, s, account, ChatDb.Records(x, rows), rs);
    PagingIsExactIff(ChatDb.AfterChats(x, s, account, rows, rs), f);
  }
}
