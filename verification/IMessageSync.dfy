/** The iMessage sync loop (plugins/imessage/plugin.py, with the helper's `date > since` filter): it
    resumes from the latest stored sent_at, which has gone through float conversion and text. Whether
    every interruption is harmless depends on what is in chat.db; this module says exactly how. */
module IMessageSync {
  import opened Prelude
  import opened Schema
  import opened Saving
  import opened History
  import opened ResumableLog
  import opened Archive
  import opened SyncLoop
  import opened Backfill
  import opened Interrupted
  import opened IsoText
  import opened AppleTime
  import Mail = MailSync

  // ---------------------------------------------------------------- the watermark

  /** Where a run resumes: with nothing stored it reads everything; a stored text that does not parse
      raises before anything is read. */
  datatype Resume = Everything | After(ns: int) | Unreadable

  /** `_datetime_to_apple_ns` of a parsed datetime; truncation is towards zero. */
  function NanosOf(d: DateTime): int
    requires ValidDateTime(d)
  {
    var us := Micros(d);
    if us >= 0 then ToNanos(us) else 0 - ToNanos(-us)
  }

  function ResumeFrom(latest: Option<string>): Resume {
    if latest.None? then Everything else
      var d := Parse(latest.value);
      if d.None? || !ValidDateTime(d.value) then Unreadable else After(NanosOf(d.value))
  }

  function SentAts(rows: set<Message>): set<string> {
    set row | row in rows :: row.sentAt
  }

  lemma {:induction false} ResumesAt(text: string, d: DateTime)
    requires Parse(text) == Some(d) && ValidDateTime(d)
    ensures ResumeFrom(Some(text)) == After(NanosOf(d))
  {
  }

  lemma {:induction false} StampResumes(us: nat)
    requires us <= IN_RANGE
    ensures ResumeFrom(Some(Stamp(us))) == After(ToNanos(us))
  {
    FromMicrosIsInverse(us);
    ParseInvertsPrint(FromMicros(us));
    ResumesAt(Stamp(us), FromMicros(us));
  }

  /** A stored stamp is read back as the watermark of its row. */
  lemma {:induction false} ResumeFromStamp(ns: nat)
    requires ns <= MAX_NANOS
    ensures ResumeFrom(Some(Stamp(ToMicros(ns)))) == After(Watermark(ns))
  {
    MicrosInRange(ns);
    StampResumes(ToMicros(ns));
  }

  // ---------------------------------------------------------------- chat.db

  type Row = Entry<Message>

  /** chat.db in the helper's order: `dates` ascend (rows of one instant by ROWID), each row is stamped
      with its converted date, and a message listed once per chat keeps its guid and date. */
  ghost predicate ChatLog(dates: seq<nat>, log: seq<Row>) {
    && |dates| == |log|
    && (forall i :: 0 <= i < |log| ==> dates[i] <= MAX_NANOS && log[i].value.sentAt == Stamp(ToMicros(dates[i])))
    && (forall i, j :: 0 <= i <= j < |log| ==> dates[i] <= dates[j])
    && (forall i, j :: 0 <= i < |log| && 0 <= j < |log| && log[i].key == log[j].key ==> dates[i] == dates[j])
  }

  /** How many leading rows the filter `date > since` drops. */
  function Dropped(dates: seq<nat>, since: Resume): (n: nat)
    ensures n <= |dates|
    decreases |dates|
  {
    match since
    case Everything => 0
    case Unreadable => |dates|
    case After(ns) =>
      if dates == [] then 0
      else if dates[|dates| - 1] <= ns then |dates|
      else Dropped(dates[..|dates| - 1], since)
  }

  lemma {:induction false} DroppedSplits(dates: seq<nat>, ns: int)
    requires forall i, j :: 0 <= i <= j < |dates| ==> dates[i] <= dates[j]
    ensures forall i :: 0 <= i < |dates| ==> (i < Dropped(dates, After(ns)) <==> dates[i] <= ns)
    decreases |dates|
  {
    if dates != [] && dates[|dates| - 1] > ns {
      var front := dates[..|dates| - 1];
      assert dates == front + [dates[|dates| - 1]];
      DroppedSplits(front, ns);
    }
  }

  // ---------------------------------------------------------------- where a run begins

  /** Where a run resumes, given the archive. */
  ghost function Resumes(a: map<string, Message>): Resume {
    ResumeFrom(MaxText(SentAts(a.Values)))
  }

  /** Where it begins among the visible rows. */
  ghost function StartInArchive(dates: seq<nat>): ArchiveStart {
    (a: map<string, Message>, seen: nat) => Dropped(dates[..AtMost(seen, |dates|)], Resumes(a))
  }

  // ---------------------------------------------------------------- the watermark of a prefix

  function Instants(dates: seq<nat>): set<nat> {
    set i | 0 <= i < |dates| :: ToMicros(dates[i])
  }

  function Keys(log: seq<Row>): set<string> {
    set i | 0 <= i < |log| :: log[i].key
  }

  lemma {:induction false} KeepHasKeys(log: seq<Row>)
    ensures Keep(log).Keys == Keys(log)
  {
    PutAllKeys(map[], log);
  }

  lemma {:induction false} PrefixStamps(dates: seq<nat>, log: seq<Row>)
    requires ChatLog(dates, log)
    ensures SentAts(Keep(log).Values) == set u | u in Instants(dates) :: Stamp(u)
  {
    var a := Keep(log);
    KeepHasKeys(log);
    forall t | t in SentAts(a.Values) ensures exists u :: u in Instants(dates) && t == Stamp(u) {
      var row :| row in a.Values && row.sentAt == t;
      var e :| e in a && a[e] == row;
      var i := KeepSource(log, e);
      assert ToMicros(dates[i]) in Instants(dates);
    }
    forall u | u in Instants(dates) ensures Stamp(u) in SentAts(a.Values) {
      var i :| 0 <= i < |dates| && u == ToMicros(dates[i]);
      assert log[i].key in Keys(log);
      var h := KeepSource(log, log[i].key);
      assert dates[h] == dates[i];
      assert log[h].value in a.Values;
    }
  }

  /** With these rows archived, a run resumes from the watermark of the last one. */
  lemma {:induction false} ResumesAfterLast(dates: seq<nat>, log: seq<Row>)
    requires ChatLog(dates, log)
    ensures Resumes(Keep(log)) == if log == [] then Everything else After(Watermark(dates[|dates| - 1]))
  {
    PrefixStamps(dates, log);
    if log != [] {
      var latest := ToMicros(dates[|dates| - 1]);
      forall u | u in Instants(dates) ensures u <= latest && u <= IN_RANGE {
        var i :| 0 <= i < |dates| && u == ToMicros(dates[i]);
        ToMicrosMonotone(dates[i], dates[|dates| - 1]);
        MicrosInRange(dates[i]);
      }
      assert latest in Instants(dates);
      MaxTextIsLatest(Instants(dates), latest);
      ResumeFromStamp(dates[|dates| - 1]);
    }
  }

  lemma {:induction false} ResumesAfterRows(dates: seq<nat>, log: seq<Row>, k: nat)
    requires ChatLog(dates, log) && k <= |log|
    ensures Resumes(Keep(log[..k])) == if k == 0 then Everything else After(Watermark(dates[k - 1]))
  {
    var front := dates[..k];
    if k > 0 { assert front[|front| - 1] == dates[k - 1]; }
    ResumesAfterLast(front, log[..k]);
  }

  // ---------------------------------------------------------------- the condition on chat.db

  /** Row `j` lies beyond the watermark that stopping after row `i` leaves behind, or repeats a message
      read by then. */
  ghost predicate PassesWatermark(dates: seq<nat>, log: seq<Row>, i: nat, j: nat)
    requires |dates| == |log| && i < j < |log|
  {
    dates[j] > Watermark(dates[i]) || log[j].key in Keys(log[..i + 1])
  }

  ghost predicate Resumable(dates: seq<nat>, log: seq<Row>)
    requires |dates| == |log|
  {
    forall i, j :: 0 <= i < j < |log| ==> PassesWatermark(dates, log, i, j)
  }

  /** When the condition holds, a run that starts past the archived prefix skips only known guids. */
  lemma {:induction false} SkipsOnlyKnown(dates: seq<nat>, log: seq<Row>, k: nat, visible: nat)
    requires ChatLog(dates, log) && Resumable(dates, log) && 0 < k <= |log| && visible <= |log|
    ensures var start := Dropped(dates[..visible], After(Watermark(dates[k - 1])));
            start > k ==> Keep(log[..start]) == Keep(log[..k])
  {
    var w := Watermark(dates[k - 1]);
    var start := Dropped(dates[..visible], After(w));
    DroppedSplits(dates[..visible], w);
    KeepHasKeys(log[..k]);
    if start > k {
      forall j | k <= j < start ensures log[j].key in Keep(log[..k]) {
        assert dates[..visible][j] <= w;
        assert PassesWatermark(dates, log, k - 1, j);
      }
      SkipKnown(log, k, start);
    }
  }

  lemma {:induction false} SkipsNothingNew(dates: seq<nat>, log: seq<Row>, k: nat, seen: nat)
    requires ChatLog(dates, log) && Resumable(dates, log) && k <= |log| && seen <= |log|
    ensures SkipsNothing(StartInArchive(dates), log, k, seen)
  {
    assert AtMost(seen, |dates|) == seen;
    ResumesAfterRows(dates, log, k);
    if k > 0 { SkipsOnlyKnown(dates, log, k, seen); }
  }

  lemma {:induction false} ResumableIsHarmless(dates: seq<nat>, log: seq<Row>)
    requires ChatLog(dates, log) && Resumable(dates, log)
    ensures Harmless(StartInArchive(dates), log)
  {
    forall k: nat, seen: nat | k <= |log| && seen <= |log| ensures SkipsNothing(StartInArchive(dates), log, k, seen) {
      SkipsNothingNew(dates, log, k, seen);
    }
  }

  // ---------------------------------------------------------------- exactly when nothing is lost

  /** What these passes archive, from nothing. */
  ghost function Read(dates: seq<nat>, log: seq<Row>, ps: seq<Pass>): map<string, Message> {
    ReadPasses(StartInArchive(dates), map[], log, ps)
  }

  /** After these passes the guid of every row is archived. */
  ghost predicate AllArchived(dates: seq<nat>, log: seq<Row>, ps: seq<Pass>) {
    Keys(log) <= Read(dates, log, ps).Keys
  }

  lemma {:induction false} LaterGuidsDiffer(dates: seq<nat>, log: seq<Row>, ns: int, j: nat, h: nat)
    requires ChatLog(dates, log) && j < |log| && dates[j] <= ns
    requires Dropped(dates, After(ns)) <= h < |log|
    ensures log[h].key != log[j].key
  {
    DroppedSplits(dates, ns);
    assert dates[h] > ns;
  }

  lemma {:induction false} CompletePassReads(dates: seq<nat>, log: seq<Row>, a: map<string, Message>)
    requires |dates| == |log|
    ensures ReadPass(StartInArchive(dates), a, log, Pass(|log|, |log|)) == PutAll(a, log[Dropped(dates, Resumes(a))..])
  {
    assert dates[..|dates|] == dates;
    var from := Dropped(dates, Resumes(a));
    assert Window(StartInArchive(dates), a, |log|, Pass(|log|, |log|)) == (from, |log|);
    assert log[from..|log|] == log[from..];
  }

  /** A guid that is not archived, on a row the watermark drops, is not read by the next run. */
  lemma {:induction false} DroppedIsNotRead(dates: seq<nat>, log: seq<Row>, a: map<string, Message>, ns: int, j: nat)
    requires ChatLog(dates, log) && j < |log| && dates[j] <= ns && log[j].key !in a
    ensures log[j].key !in PutAll(a, log[Dropped(dates, After(ns))..])
  {
    var start := Dropped(dates, After(ns));
    forall h | 0 <= h < |log[start..]| ensures log[start..][h].key != log[j].key {
      LaterGuidsDiffer(dates, log, ns, j, start + h);
    }
    NewKey(a, log[start..], log[j].key);
  }

  /** The first pass, stopped after `n` rows. */
  lemma {:induction false} FirstPassReads(dates: seq<nat>, log: seq<Row>, n: nat)
    requires ChatLog(dates, log) && n <= |log|
    ensures Read(dates, log, [Pass(|log|, n)]) == Keep(log[..n])
  {
    var start, first := StartInArchive(dates), Pass(|log|, n);
    ResumesAfterLast([], []);
    OneMorePass(start, map[], log, [], first);
    assert [] + [first] == [first];
    assert Window(start, map[], |log|, first) == (0, n);
    assert log[0..n] == log[..n];
  }

  lemma {:induction false} SecondPassReads(dates: seq<nat>, log: seq<Row>, i: nat)
    requires ChatLog(dates, log) && i < |log|
    ensures Read(dates, log, [Pass(|log|, i + 1)] + [Pass(|log|, |log|)])
         == PutAll(Keep(log[..i + 1]), log[Dropped(dates, After(Watermark(dates[i])))..])
  {
    FirstPassReads(dates, log, i + 1);
    OneMorePass(StartInArchive(dates), map[], log, [Pass(|log|, i + 1)], Pass(|log|, |log|));
    CompletePassReads(dates, log, Keep(log[..i + 1]));
    ResumesAfterRows(dates, log, i + 1);
  }

  /** A row that does not pass the watermark of an earlier row is lost when a run stops there. */
  lemma {:induction false} StoppingThereLosesIt(dates: seq<nat>, log: seq<Row>, i: nat, j: nat)
    requires ChatLog(dates, log) && i < j < |log| && !PassesWatermark(dates, log, i, j)
    ensures log[j].key !in Read(dates, log, [Pass(|log|, i + 1)] + [Pass(|log|, |log|)])
  {
    SecondPassReads(dates, log, i);
    KeepHasKeys(log[..i + 1]);
    DroppedIsNotRead(dates, log, Keep(log[..i + 1]), Watermark(dates[i]), j);
  }

  lemma {:induction false} ResumableArchivesAll(dates: seq<nat>, log: seq<Row>, ps: seq<Pass>)
    requires ChatLog(dates, log) && Resumable(dates, log) && EndsComplete(ps, |log|)
    ensures Read(dates, log, ps) == Keep(log) && AllArchived(dates, log, ps)
  {
    ResumableIsHarmless(dates, log);
    var k := PassesKeepPrefix(StartInArchive(dates), log, ps);
    assert log[..|log|] == log;
    KeepHasKeys(log);
  }

  lemma {:induction false} UnresumableLoses(dates: seq<nat>, log: seq<Row>) returns (ps: seq<Pass>)
    requires ChatLog(dates, log) && !Resumable(dates, log)
    ensures EndsComplete(ps, |log|) && !AllArchived(dates, log, ps)
  {
    var i, j :| 0 <= i < j < |log| && !PassesWatermark(dates, log, i, j);
    StoppingThereLosesIt(dates, log, i, j);
    ps := [Pass(|log|, i + 1)] + [Pass(|log|, |log|)];
    assert log[j].key in Keys(log);
  }

  /** Nothing is ever lost if and only if the condition holds: whatever the interruptions, once a pass
      completes, every row's guid is archived. */
  lemma {:induction false} NothingLostIffResumable(dates: seq<nat>, log: seq<Row>)
    requires ChatLog(dates, log)
    ensures (forall ps :: EndsComplete(ps, |log|) ==> AllArchived(dates, log, ps)) <==> Resumable(dates, log)
  {
    if Resumable(dates, log) {
      forall ps | EndsComplete(ps, |log|) ensures AllArchived(dates, log, ps) {
        ResumableArchivesAll(dates, log, ps);
      }
    } else {
      var ps := UnresumableLoses(dates, log);
    }
  }

  /** Distinct messages at least a microsecond apart satisfy the condition. */
  lemma {:induction false} ApartIsResumable(dates: seq<nat>, log: seq<Row>)
    requires ChatLog(dates, log)
    requires forall i, j :: 0 <= i < j < |log| && log[i].key != log[j].key ==> dates[j] - dates[i] >= 1000
    ensures Resumable(dates, log)
  {
    forall i, j | 0 <= i < j < |log| ensures PassesWatermark(dates, log, i, j) {
      WatermarkError(dates[i]);
      if log[i].key == log[j].key {
        assert log[..i + 1][i].key in Keys(log[..i + 1]);
      }
    }
  }

  /** Two different messages of one instant do not, whenever that instant is one the conversion
      reproduces: stopping between them loses the second for good. */
  lemma {:induction false} SameInstantIsLost(us: nat, dates: seq<nat>, log: seq<Row>, i: nat, j: nat)
    requires us <= MAX_MICROS && ChatLog(dates, log) && i < j < |log|
    requires dates[i] == dates[j] == ToNanos(us) && log[j].key !in Keys(log[..i + 1])
    ensures log[j].key !in Read(dates, log, [Pass(|log|, i + 1)] + [Pass(|log|, |log|)])
  {
    assert !PassesWatermark(dates, log, i, j) by { MicrosRoundTrip(us); }
    StoppingThereLosesIt(dates, log, i, j);
  }

  // ---------------------------------------------------------------- on the tables

  /** A row of chat.db as the helper reports it: its date, and the message without its timestamp. */
  datatype ChatRow = ChatRow(ns: nat, body: Incoming)

  /** `record_to_imessage` stamps the message with the converted date. */
  function Stamped(rows: seq<ChatRow>): (ms: seq<Incoming>)
    ensures |ms| == |rows|
  {
    seq(|rows|, k requires 0 <= k < |rows| => rows[k].body.(sentAt := Stamp(ToMicros(rows[k].ns))))
  }

  function Dates(rows: seq<ChatRow>): (dates: seq<nat>)
    ensures |dates| == |rows|
  {
    seq(|rows|, k requires 0 <= k < |rows| => rows[k].ns)
  }

  /** `runReadIMessages` over the rows in date and ROWID order: one line per row past `since`, which
      for ordered rows is everything after those that `Dropped` counts. */
  method ReadIMessages(rows: seq<ChatRow>, since: Option<int>) returns (lines: seq<ChatRow>)
    requires forall i, j :: 0 <= i <= j < |rows| ==> rows[i].ns <= rows[j].ns
    ensures lines == rows[Dropped(Dates(rows), if since.None? then Everything else After(since.value))..]
  {
    ghost var n := Dropped(Dates(rows), if since.None? then Everything else After(since.value));
    if since.Some? { DroppedSplits(Dates(rows), since.value); }
    lines := [];
    for k := 0 to |rows|
      invariant lines == if k <= n then [] else rows[n..k]
    {
      assert Dates(rows)[k] == rows[k].ns;
      assert n <= k <==> since.None? || rows[k].ns > since.value;
      if since.None? || rows[k].ns > since.value {
        lines := lines + [rows[k]];
      }
    }
  }

  /** `Storage.latest_sent_at`, as the stored text. */
  function LatestSentAt(s: Store, account: nat): Option<string> {
    MaxText(SentAts(Mail.RowsOf(s, account)))
  }

  predicate StoredFor(s: Store, account: nat, m: nat) {
    m in s.messages && s.messages[m].account == account
  }

  /** `text` is a stored timestamp and none is later as text; None exactly when nothing is stored. */
  ghost predicate IsLatestSentAt(s: Store, account: nat, text: Option<string>) {
    && (text.None? <==> forall m :: !StoredFor(s, account, m))
    && (text.Some? ==> exists m :: StoredFor(s, account, m) && s.messages[m].sentAt == text.value)
    && (text.Some? ==> forall m :: StoredFor(s, account, m) ==> !TextLess(text.value, s.messages[m].sentAt))
  }

  lemma {:induction false} LatestSentAtIsLatest(s: Store, account: nat)
    ensures IsLatestSentAt(s, account, LatestSentAt(s, account))
  {
    var texts, latest := SentAts(Mail.RowsOf(s, account)), LatestSentAt(s, account);
    forall m | StoredFor(s, account, m)
      ensures s.messages[m].sentAt in texts && !TextLess(latest.value, s.messages[m].sentAt)
    {
      assert s.messages[m] in Mail.RowsOf(s, account);
      assert s.messages[m].sentAt in texts;
      TextOrderTotal(latest.value, s.messages[m].sentAt);
    }
    if latest.Some? {
      var row :| row in Mail.RowsOf(s, account) && row.sentAt == latest.value;
      var m :| m in s.messages && s.messages[m].account == account && s.messages[m] == row;
      assert StoredFor(s, account, m);
    }
  }

  /** Where `sync_once` begins among the visible rows. */
  function StartInTables(account: nat, rows: seq<ChatRow>): TableStart {
    (s: Store, seen: nat) => Dropped(Dates(rows)[..AtMost(seen, |rows|)], ResumeFrom(LatestSentAt(s, account)))
  }

  lemma {:induction false} SyncVisits(s: Store, account: nat, rows: seq<ChatRow>, all: seq<Incoming>, stop: nat,
                                      since: Resume, from: nat, ms: seq<Incoming>)
    requires since == ResumeFrom(LatestSentAt(s, account)) && from == Dropped(Dates(rows), since)
    requires all == Stamped(rows) && ms == all[from..from + AtMost(stop, |rows| - from)]
    ensures ms == Visited(StartInTables(account, rows), s, all, Pass(|rows|, stop))
  {
    assert Dates(rows)[..|rows|] == Dates(rows);
    StartsFrom(s, account, rows, since, |rows|);
    FullWindow(StartInTables(account, rows), s, |rows|, stop, from);
  }

  lemma {:induction false} ResumesFromArchive(s: Store, account: nat)
    requires UniqueKeys(s)
    ensures ResumeFrom(LatestSentAt(s, account)) == Resumes(Archived(s, account))
  {
    Mail.RowsAreArchived(s, account);
  }

  lemma {:induction false} StartsAgree(account: nat, rows: seq<ChatRow>)
    ensures ReadsArchive(StartInTables(account, rows), StartInArchive(Dates(rows)), account)
  {
    forall s: Store, n: nat | Valid(s)
      ensures StartInTables(account, rows)(s, n) == StartInArchive(Dates(rows))(Archived(s, account), n)
    {
      ResumesFromArchive(s, account);
    }
  }

  // ---------------------------------------------------------------- what is stored of the messages

  /** The premises of the results below: an account with nothing stored, and its chat.db. */
  ghost predicate FreshAccount(s: Store, account: nat, rows: seq<ChatRow>) {
    && Valid(s) && ForAccount(s, account, Stamped(rows)) && Archived(s, account) == map[]
    && ChatLog(Dates(rows), Entries(s.accounts[account].source, Stamped(rows)))
  }

  /** After these runs every row's guid is stored for the account. */
  ghost predicate AllStored(x: Library, s: Store, account: nat, rows: seq<ChatRow>, rs: seq<Shared>)
    requires AllMine(account, rs) && Owned(account, Stamped(rows))
  {
    var t := AfterShared(x, s, account, StartInTables(account, rows), Stamped(rows), rs);
    forall i :: 0 <= i < |rows| ==> rows[i].body.externalId in Archived(t, account)
  }

  /** Whatever runs are stopped and whatever others write, once a run completes everything is stored. */
  ghost predicate AlwaysSafe(x: Library, s: Store, account: nat, rows: seq<ChatRow>)
    requires Owned(account, Stamped(rows))
  {
    forall rs: seq<Shared> ::
      (AllMine(account, rs) && Completes(x, s, account, StartInTables(account, rows), Stamped(rows), rs)
       ==> AllStored(x, s, account, rows, rs))
  }

  lemma {:induction false} StoredIsArchived(x: Library, s: Store, account: nat, rows: seq<ChatRow>, rs: seq<Shared>)
    requires FreshAccount(s, account, rows) && AllMine(account, rs) && Owned(account, Stamped(rows))
    ensures var log := Entries(s.accounts[account].source, Stamped(rows));
            var ps := AllReached(x, s, account, StartInTables(account, rows), Stamped(rows), rs);
            && Archived(AfterShared(x, s, account, StartInTables(account, rows), Stamped(rows), rs), account)
               == Read(Dates(rows), log, ps)
            && (AllStored(x, s, account, rows, rs) <==> AllArchived(Dates(rows), log, ps))
  {
    var log := Entries(s.accounts[account].source, Stamped(rows));
    StartsAgree(account, rows);
    SharedReads(x, s, account, StartInTables(account, rows), StartInArchive(Dates(rows)), Stamped(rows), rs);
    assert forall i :: 0 <= i < |rows| ==> log[i].key == rows[i].body.externalId;
    if AllArchived(Dates(rows), log, AllReached(x, s, account, StartInTables(account, rows), Stamped(rows), rs)) {
      forall i | 0 <= i < |rows| ensures log[i].key in Keys(log) {}
    }
  }

  lemma {:induction false} SafeWhenResumable(x: Library, s: Store, account: nat, rows: seq<ChatRow>, rs: seq<Shared>)
    requires FreshAccount(s, account, rows) && AllMine(account, rs) && Owned(account, Stamped(rows))
    requires Completes(x, s, account, StartInTables(account, rows), Stamped(rows), rs)
    requires Resumable(Dates(rows), Entries(s.accounts[account].source, Stamped(rows)))
    ensures AllStored(x, s, account, rows, rs)
    ensures Archived(AfterShared(x, s, account, StartInTables(account, rows), Stamped(rows), rs), account)
         == Keep(Entries(s.accounts[account].source, Stamped(rows)))
  {
    var start := StartInTables(account, rows);
    CompletesReached(x, s, account, start, Stamped(rows), rs);
    ResumableArchivesAll(Dates(rows), Entries(s.accounts[account].source, Stamped(rows)),
                         AllReached(x, s, account, start, Stamped(rows), rs));
    StoredIsArchived(x, s, account, rows, rs);
  }

  lemma {:induction false} UnsafeOtherwise(x: Library, s: Store, account: nat, rows: seq<ChatRow>)
      returns (rs: seq<Shared>)
    requires FreshAccount(s, account, rows) && Owned(account, Stamped(rows))
    requires !Resumable(Dates(rows), Entries(s.accounts[account].source, Stamped(rows)))
    ensures AllMine(account, rs) && Completes(x, s, account, StartInTables(account, rows), Stamped(rows), rs)
    ensures !AllStored(x, s, account, rows, rs)
  {
    var ps := UnresumableLoses(Dates(rows), Entries(s.accounts[account].source, Stamped(rows)));
    StartsAgree(account, rows);
    AloneReaches(x, s, account, StartInTables(account, rows), StartInArchive(Dates(rows)), Stamped(rows), ps);
    rs := Alone(ps);
    StoredIsArchived(x, s, account, rows, rs);
  }

  /** On the tables, through conversion, text and MAX, and whatever others write before any step: from an
      account with nothing stored, interruptions never lose a message for good if and only if the
      condition on chat.db holds. */
  lemma {:induction false} ResumptionIsSafeIff(x: Library, s: Store, account: nat, rows: seq<ChatRow>)
    requires FreshAccount(s, account, rows)
    ensures Owned(account, Stamped(rows))
    ensures AlwaysSafe(x, s, account, rows)
       <==> Resumable(Dates(rows), Entries(s.accounts[account].source, Stamped(rows)))
  {
    if Resumable(Dates(rows), Entries(s.accounts[account].source, Stamped(rows))) {
      forall rs: seq<Shared> | AllMine(account, rs)
        && Completes(x, s, account, StartInTables(account, rows), Stamped(rows), rs)
        ensures AllStored(x, s, account, rows, rs)
      {
        SafeWhenResumable(x, s, account, rows, rs);
      }
    } else {
      var rs := UnsafeOtherwise(x, s, account, rows);
    }
  }

  /** Then a complete run also leaves exactly the rows of one uninterrupted pass. */
  lemma {:induction false} ResumptionEqualsBackfill(x: Library, s: Store, account: nat, rows: seq<ChatRow>,
                                                    rs: seq<Shared>)
    requires FreshAccount(s, account, rows) && AllMine(account, rs) && Owned(account, Stamped(rows))
    requires Completes(x, s, account, StartInTables(account, rows), Stamped(rows), rs)
    requires Resumable(Dates(rows), Entries(s.accounts[account].source, Stamped(rows)))
    ensures Archived(AfterShared(x, s, account, StartInTables(account, rows), Stamped(rows), rs), account)
         == Keep(Entries(s.accounts[account].source, Stamped(rows)))
  {
    SafeWhenResumable(x, s, account, rows, rs);
  }

  // ---------------------------------------------------------------- on the whole database

  /** A row that does not pass the watermark of an earlier one has nothing that does not come with the rows
      up to that one or was in the database before: neither message nor people nor files. */
  ghost predicate NothingDropped(x: Library, s: Store, rows: seq<ChatRow>) {
    forall i, j :: 0 <= i < j < |rows| && rows[j].ns <= Watermark(rows[i].ns) ==>
      Covered(x, s, Stamped(rows)[..i + 1], Stamped(rows)[j])
  }

  lemma {:induction false} FirstRows(rows: seq<ChatRow>, n: nat)
    requires n <= |rows|
    ensures Stamped(rows[..n]) == Stamped(rows)[..n] && Dates(rows[..n]) == Dates(rows)[..n]
  {
  }

  lemma {:induction false} FirstOneFrom(rows: seq<ChatRow>)
    requires AllOneFrom(Stamped(rows))
    ensures forall n :: 0 <= n <= |rows| ==> AllOneFrom(Stamped(rows[..n]))
  {
    forall n | 0 <= n <= |rows| ensures AllOneFrom(Stamped(rows[..n])) {
      FirstRows(rows, n);
    }
  }

  /** At every moment while chat.db grows to `rows`, whatever runs were stopped before. */
  ghost predicate AlwaysWhole(x: Library, s: Store, account: nat, rows: seq<ChatRow>)
    requires AllOneFrom(Stamped(rows))
  {
    FirstOneFrom(rows);
    forall n: nat :: n <= |rows| ==> WholeAfterAny(x, s, StartInTables(account, rows[..n]), Stamped(rows[..n]))
  }

  lemma {:induction false} FreshPrefix(s: Store, account: nat, rows: seq<ChatRow>, n: nat)
    requires FreshAccount(s, account, rows) && n <= |rows|
    ensures FreshAccount(s, account, rows[..n])
  {
    var source := s.accounts[account].source;
    FirstRows(rows, n);
    assert Entries(source, Stamped(rows[..n])) == Entries(source, Stamped(rows))[..n];
  }

  lemma {:induction false} NothingDroppedFirst(x: Library, s: Store, rows: seq<ChatRow>, n: nat)
    requires NothingDropped(x, s, rows) && n <= |rows|
    ensures NothingDropped(x, s, rows[..n])
  {
    FirstRows(rows, n);
    forall i, j | 0 <= i < j < n && rows[..n][j].ns <= Watermark(rows[..n][i].ns)
      ensures Covered(x, s, Stamped(rows[..n])[..i + 1], Stamped(rows[..n])[j])
    {
      assert rows[j].ns <= Watermark(rows[i].ns);
      assert Stamped(rows[..n])[..i + 1] == Stamped(rows)[..i + 1] && Stamped(rows[..n])[j] == Stamped(rows)[j];
    }
  }

  lemma {:induction false} ResumesAfterPrefix(x: Library, s: Store, account: nat, rows: seq<ChatRow>, k: nat)
    requires FreshAccount(s, account, rows) && k <= |rows|
    ensures ResumeFrom(LatestSentAt(Upto(x, s, Stamped(rows), k), account))
         == if k == 0 then Everything else After(Watermark(rows[k - 1].ns))
  {
    UptoIsValid(x, s, account, Stamped(rows), k);
    ResumesFromArchive(Upto(x, s, Stamped(rows), k), account);
    ArchivedUpto(x, s, account, Stamped(rows), k);
    ResumesAfterRows(Dates(rows), Entries(s.accounts[account].source, Stamped(rows)), k);
  }

  lemma {:induction false} StartsFrom(u: Store, account: nat, rows: seq<ChatRow>, since: Resume, seen: nat)
    requires ResumeFrom(LatestSentAt(u, account)) == since && seen <= |rows|
    ensures StartInTables(account, rows)(u, seen) == Dropped(Dates(rows)[..seen], since)
  {
    assert AtMost(seen, |rows|) == seen;
  }

  lemma {:induction false} StartsAfterPrefix(x: Library, s: Store, account: nat, rows: seq<ChatRow>, k: nat, u: Store,
                                             seen: nat)
    requires FreshAccount(s, account, rows) && k <= |rows| && seen <= |rows| && u == Upto(x, s, Stamped(rows), k)
    ensures StartInTables(account, rows)(u, seen)
         == if k == 0 then 0 else Dropped(Dates(rows)[..seen], After(Watermark(rows[k - 1].ns)))
  {
    ResumesAfterPrefix(x, s, account, rows, k);
    StartsFrom(u, account, rows, if k == 0 then Everything else After(Watermark(rows[k - 1].ns)), seen);
  }

  lemma {:induction false} DroppedIsEarly(rows: seq<ChatRow>, seen: nat, ns: int, i: nat)
    requires forall h, j :: 0 <= h <= j < |rows| ==> Dates(rows)[h] <= Dates(rows)[j]
    requires seen <= |rows| && i < Dropped(Dates(rows)[..seen], After(ns))
    ensures rows[i].ns <= ns
  {
    DroppedSplits(Dates(rows)[..seen], ns);
    assert Dates(rows)[..seen][i] == rows[i].ns;
  }

  lemma {:induction false} DroppedIsSettled(x: Library, s: Store, account: nat, rows: seq<ChatRow>, k: nat, seen: nat,
                                            i: nat)
    requires FreshAccount(s, account, rows) && NothingDropped(x, s, rows) && seen <= |rows| && 0 < k <= |rows|
    requires k <= i < Dropped(Dates(rows)[..seen], After(Watermark(rows[k - 1].ns)))
    ensures Settled(x, Upto(x, s, Stamped(rows), k), Stamped(rows)[i])
  {
    DroppedIsEarly(rows, seen, Watermark(rows[k - 1].ns), i);
    SettledIffCovered(x, s, account, Stamped(rows), k, Stamped(rows)[i]);
  }

  lemma {:induction false} OmitsOnlySettled(x: Library, s: Store, account: nat, rows: seq<ChatRow>, k: nat, seen: nat)
    requires FreshAccount(s, account, rows) && NothingDropped(x, s, rows) && k <= |rows| && seen <= |rows|
    ensures OmitsSettled(x, s, StartInTables(account, rows), Stamped(rows), k, seen)
  {
    StartsAfterPrefix(x, s, account, rows, k, Upto(x, s, Stamped(rows), k), seen);
    if k > 0 {
      var from := Dropped(Dates(rows)[..seen], After(Watermark(rows[k - 1].ns)));
      forall i | k <= i < from ensures Settled(x, Upto(x, s, Stamped(rows), k), Stamped(rows)[i]) {
        DroppedIsSettled(x, s, account, rows, k, seen, i);
      }
    }
  }

  lemma {:induction false} SameLatest(s: Store, t: Store, account: nat)
    requires s.messages == t.messages
    ensures LatestSentAt(s, account) == LatestSentAt(t, account)
  {
    assert Mail.RowsOf(s, account) == Mail.RowsOf(t, account);
  }

  lemma {:induction false} SeesRows(account: nat, rows: seq<ChatRow>)
    ensures SeesMessages(StartInTables(account, rows))
  {
    forall s: Store, t: Store, n: nat | s.messages == t.messages
      ensures StartInTables(account, rows)(s, n) == StartInTables(account, rows)(t, n)
    {
      SameLatest(s, t, account);
    }
  }

  lemma {:induction false} WholeWhenNothingDropped(x: Library, s: Store, account: nat, rows: seq<ChatRow>)
    requires FreshAccount(s, account, rows) && NothingDropped(x, s, rows)
    ensures AllOneFrom(Stamped(rows)) && WholeAfterAny(x, s, StartInTables(account, rows), Stamped(rows))
  {
    var start, ms := StartInTables(account, rows), Stamped(rows);
    SeesRows(account, rows);
    forall k: nat, seen: nat | k <= |ms| && seen <= |ms| ensures OmitsSettled(x, s, start, ms, k, seen) {
      OmitsOnlySettled(x, s, account, rows, k, seen);
    }
    WholeWhenSettled(x, s, account, start, ms);
  }

  // ---------------------------------------------------------------- when something is dropped

  lemma {:induction false} AllDropped(dates: seq<nat>, ns: int)
    requires dates != [] && dates[|dates| - 1] <= ns
    ensures Dropped(dates[..|dates|], After(ns)) == |dates|
  {
    assert dates[..|dates|] == dates;
  }

  lemma {:induction false} StartsPastEnd(u: Store, account: nat, rows: seq<ChatRow>, ns: int)
    requires ResumeFrom(LatestSentAt(u, account)) == After(ns) && rows != [] && rows[|rows| - 1].ns <= ns
    ensures StartInTables(account, rows)(u, |rows|) == |rows|
  {
    StartsFrom(u, account, rows, After(ns), |rows|);
    AllDropped(Dates(rows), ns);
  }

  lemma {:induction false} StartsAtFirst(s: Store, account: nat, rows: seq<ChatRow>)
    requires FreshAccount(s, account, rows)
    ensures StartInTables(account, rows)(s, |rows|) == 0
  {
    ResumesFromArchive(s, account);
    ResumesAfterLast([], []);
    StartsFrom(s, account, rows, Everything, |rows|);
  }

  /** Once row `i` is saved a run drops the rest. */
  ghost predicate DropsRest(x: Library, s: Store, account: nat, rows: seq<ChatRow>, i: nat) {
    && i < |rows| && Valid(s) && ForAccount(s, account, Stamped(rows))
    && StartInTables(account, rows)(s, |rows|) == 0
    && StartInTables(account, rows)(Upto(x, s, Stamped(rows), i + 1), |rows|) == |rows|
  }

  /** So it does when the last row does not pass the watermark of that one. */
  lemma {:induction false} DropsTheRest(x: Library, s: Store, account: nat, rows: seq<ChatRow>, i: nat, ns: int)
    requires FreshAccount(s, account, rows) && i < |rows| && rows[|rows| - 1].ns <= ns == Watermark(rows[i].ns)
    ensures DropsRest(x, s, account, rows, i)
  {
    StartsAtFirst(s, account, rows);
    ResumesAfterPrefix(x, s, account, rows, i + 1);
    StartsPastEnd(Upto(x, s, Stamped(rows), i + 1), account, rows, ns);
  }

  lemma {:induction false} UpTo(rows: seq<ChatRow>, first: seq<ChatRow>, i: nat, j: nat)
    requires i < j < |rows| && first == rows[..j + 1]
    ensures first[|first| - 1] == rows[j] && first[i] == rows[i]
  {
  }

  lemma {:induction false} FreshUpTo(s: Store, account: nat, rows: seq<ChatRow>, first: seq<ChatRow>, i: nat, j: nat,
                                     ns: int)
    requires FreshAccount(s, account, rows) && i < j < |rows| && first == rows[..j + 1]
    requires rows[j].ns <= ns == Watermark(rows[i].ns)
    ensures FreshAccount(s, account, first) && first[|first| - 1].ns <= ns == Watermark(first[i].ns)
  {
    UpTo(rows, first, i, j);
    FreshPrefix(s, account, rows, j + 1);
  }

  lemma {:induction false} FirstCovers(x: Library, s: Store, account: nat, rows: seq<ChatRow>, first: seq<ChatRow>,
                                       i: nat, j: nat)
    requires i < j < |rows| && first == rows[..j + 1] && DropsRest(x, s, account, first, i)
    requires AllOneFrom(Stamped(rows)) && AlwaysWhole(x, s, account, rows)
    ensures Covered(x, s, Stamped(rows)[..i + 1], Stamped(rows)[j])
  {
    FirstOneFrom(rows);
    FirstRows(rows, j + 1);
    WholeCoversFirst(x, s, account, StartInTables(account, first), Stamped(rows), Stamped(first), i, j);
  }

  /** When runs always leave the whole database, a dropped row was there already. */
  lemma {:induction false} WholeCovers(x: Library, s: Store, account: nat, rows: seq<ChatRow>, i: nat, j: nat)
    requires FreshAccount(s, account, rows) && AllOneFrom(Stamped(rows)) && AlwaysWhole(x, s, account, rows)
    requires i < j < |rows| && rows[j].ns <= Watermark(rows[i].ns)
    ensures Covered(x, s, Stamped(rows)[..i + 1], Stamped(rows)[j])
  {
    FreshUpTo(s, account, rows, rows[..j + 1], i, j, Watermark(rows[i].ns));
    DropsTheRest(x, s, account, rows[..j + 1], i, Watermark(rows[i].ns));
    FirstCovers(x, s, account, rows, rows[..j + 1], i, j);
  }

  /** With nobody else writing, stopped runs leave, at every moment and but for the status table, the whole
      database of one uninterrupted pass if and only if no row is dropped that has something of its own. */
  lemma {:induction false} ResumptionIsOneRun(x: Library, s: Store, account: nat, rows: seq<ChatRow>)
    requires FreshAccount(s, account, rows)
    ensures AllOneFrom(Stamped(rows))
    ensures AlwaysWhole(x, s, account, rows) <==> NothingDropped(x, s, rows)
  {
    FirstOneFrom(rows);
    if NothingDropped(x, s, rows) {
      forall n: nat | n <= |rows|
        ensures WholeAfterAny(x, s, StartInTables(account, rows[..n]), Stamped(rows[..n]))
      {
        FreshPrefix(s, account, rows, n);
        NothingDroppedFirst(x, s, rows, n);
        WholeWhenNothingDropped(x, s, account, rows[..n]);
      }
    }
    if AlwaysWhole(x, s, account, rows) {
      forall i, j | 0 <= i < j < |rows| && rows[j].ns <= Watermark(rows[i].ns)
        ensures Covered(x, s, Stamped(rows)[..i + 1], Stamped(rows)[j])
      {
        WholeCovers(x, s, account, rows, i, j);
      }
    }
  }

  lemma {:induction false} OneKeyIsResumable(dates: seq<nat>, log: seq<Row>)
    requires |dates| == |log| == 2 && log[0].key == log[1].key
    ensures Resumable(dates, log)
  {
    assert log[..1][0] == log[0];
    assert log[..1][0].key in Keys(log[..1]);
  }

  lemma {:induction false} FirstLacksPerson(x: Library, s: Store, ms: seq<Incoming>, i: Ident)
    requires ms != [] && i !in s.identifiers && !Mentions(ms[0], i)
    ensures i !in Upto(x, s, ms, 1).identifiers
  {
    UptoHasPerson(x, s, ms, 1, i);
  }

  lemma {:induction false} LastHasPerson(x: Library, s: Store, account: nat, ms: seq<Incoming>, k: nat)
    requires Valid(s) && ForAccount(s, account, ms) && ms != [] && k < |ms[|ms| - 1].parties|
    ensures ms[|ms| - 1].parties[k].contact.ident in SaveEach(x, s, ms).store.identifiers
  {
    LastIsSettled(x, s, account, ms, SaveEach(x, s, ms).store);
  }

  lemma {:induction false} OmittedPerson(x: Library, s: Store, account: nat, start: TableStart, ms: seq<Incoming>,
                                         k: nat) returns (hs: seq<Halted>)
    requires Valid(s) && ForAccount(s, account, ms) && |ms| == 2 && k < |ms[1].parties|
    requires ms[1].parties[k].contact.ident !in s.identifiers && !Mentions(ms[0], ms[1].parties[k].contact.ident)
    requires start(s, 2) == 0 && start(Upto(x, s, ms, 1), 2) == 2
    ensures AllOneFrom(ms) && AllHalted(hs) && EndsWhole(hs, 2)
    ensures ms[1].parties[k].contact.ident !in AfterHalts(x, s, start, ms, hs).identifiers
    ensures ms[1].parties[k].contact.ident in SaveEach(x, s, ms).store.identifiers
  {
    hs := StopThenOmit(x, s, start, ms, 1, Upto(x, s, ms, 1));
    FirstLacksPerson(x, s, ms, ms[1].parties[k].contact.ident);
    LastHasPerson(x, s, account, ms, k);
  }

  /** The condition on messages does not imply it: a message listed for two chats, of which the second has
      one more person. Stopped between the listings, the next run drops the second, and that person is
      never stored. */
  lemma {:induction false} ListedTwiceLosesPerson(x: Library, s: Store, account: nat, rows: seq<ChatRow>, us: nat,
                                                  k: nat) returns (hs: seq<Halted>)
    requires FreshAccount(s, account, rows) && |rows| == 2 && us <= MAX_MICROS
    requires rows[0].ns == rows[1].ns == ToNanos(us) && rows[0].body.externalId == rows[1].body.externalId
    requires k < |rows[1].body.parties| && rows[1].body.parties[k].contact.ident !in s.identifiers
    requires forall h :: 0 <= h < |rows[0].body.parties| ==>
               rows[0].body.parties[h].contact.ident != rows[1].body.parties[k].contact.ident
    ensures Resumable(Dates(rows), Entries(s.accounts[account].source, Stamped(rows)))
    ensures AllOneFrom(Stamped(rows)) && AllHalted(hs) && EndsWhole(hs, 2)
    ensures var i := rows[1].body.parties[k].contact.ident;
            && i !in AfterHalts(x, s, StartInTables(account, rows), Stamped(rows), hs).identifiers
            && i in SaveEach(x, s, Stamped(rows)).store.identifiers
  {
    OneKeyIsResumable(Dates(rows), Entries(s.accounts[account].source, Stamped(rows)));
    MicrosRoundTrip(us);
    DropsTheRest(x, s, account, rows, 0, ToNanos(us));
    hs := OmittedPerson(x, s, account, StartInTables(account, rows), Stamped(rows), k);
  }
}
