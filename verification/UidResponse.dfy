/** Reading the UID SEARCH response (`fetch_uids` in plugins/mail/imap/client.py): every all-digit token
    of every response line is taken for a UID, and the result is sorted. Lines are ASCII. */
module UidResponse {

  predicate IsSpace(c: char) {
    c == ' ' || '\t' <= c <= '\r' || (28 as char) <= c <= (31 as char)
  }

  predicate IsDigit(c: char) {
    '0' <= c <= '9'
  }

  /** The length of the leading run of non-spaces. */
  function TokenLength(line: string): (n: nat)
    ensures n <= |line|
    ensures line != [] && !IsSpace(line[0]) ==> n > 0
  {
    if line == [] || IsSpace(line[0]) then 0 else 1 + TokenLength(line[1..])
  }

  /** `str.split()`. */
  function Split(line: string): seq<string>
    decreases |line|
  {
    if line == [] then []
    else if IsSpace(line[0]) then Split(line[1..])
    else var n := TokenLength(line); [line[..n]] + Split(line[n..])
  }

  /** `token.isdigit()`. */
  predicate AllDigits(token: string) {
    token != [] && forall k :: 0 <= k < |token| ==> IsDigit(token[k])
  }

  function DigitValue(c: char): nat
    requires IsDigit(c)
  {
    c as nat - '0' as nat
  }

  /** `int(token)`. */
  function IntOf(token: string): nat
    requires forall k :: 0 <= k < |token| ==> IsDigit(token[k])
  {
    if token == [] then 0 else 10 * IntOf(token[..|token| - 1]) + DigitValue(token[|token| - 1])
  }

  function NumbersOf(tokens: seq<string>): seq<nat>
    decreases |tokens|
  {
    if tokens == [] then [] else
      var front, last := NumbersOf(tokens[..|tokens| - 1]), tokens[|tokens| - 1];
      if AllDigits(last) then front + [IntOf(last)] else front
  }

  /** All numbers of all lines, in reading order. */
  function Numbers(lines: seq<string>): seq<nat>
    decreases |lines|
  {
    if lines == [] then [] else Numbers(lines[..|lines| - 1]) + NumbersOf(Split(lines[|lines| - 1]))
  }

  // ---------------------------------------------------------------- sorting

  ghost predicate Sorted(s: seq<nat>) {
    forall i, j :: 0 <= i <= j < |s| ==> s[i] <= s[j]
  }

  function Insert(n: nat, s: seq<nat>): seq<nat>
    decreases |s|
  {
    if s == [] || n <= s[0] then [n] + s else [s[0]] + Insert(n, s[1..])
  }

  lemma {:induction false} InsertKeeps(n: nat, s: seq<nat>)
    ensures multiset(Insert(n, s)) == multiset(s) + multiset{n}
    decreases |s|
  {
    if s != [] && n > s[0] {
      assert s == [s[0]] + s[1..];
      InsertKeeps(n, s[1..]);
    }
  }

  lemma {:induction false} InsertSorts(n: nat, s: seq<nat>)
    requires Sorted(s)
    ensures Sorted(Insert(n, s))
    ensures Insert(n, s) != [] && Insert(n, s)[0] == (if s == [] || n <= s[0] then n else s[0])
    decreases |s|
  {
    if s != [] && n > s[0] {
      InsertSorts(n, s[1..]);
      var r := Insert(n, s[1..]);
      assert s[0] <= r[0];
      assert forall i :: 0 <= i < |r| ==> r[0] <= r[i];
    }
  }

  function Sort(s: seq<nat>): (r: seq<nat>)
    ensures Sorted(r) && multiset(r) == multiset(s)
    decreases |s|
  {
    if s == [] then [] else
      assert s == s[..|s| - 1] + [s[|s| - 1]];
      InsertKeeps(s[|s| - 1], Sort(s[..|s| - 1]));
      InsertSorts(s[|s| - 1], Sort(s[..|s| - 1]));
      Insert(s[|s| - 1], Sort(s[..|s| - 1]))
  }

  lemma {:induction false} SameFirst(a: seq<nat>, b: seq<nat>)
    requires Sorted(a) && Sorted(b) && multiset(a) == multiset(b) && a != []
    ensures b != [] && a[0] == b[0]
  {
    assert |b| == |multiset(b)| == |multiset(a)| == |a|;
    assert a[0] in multiset(b) && b[0] in multiset(a);
  }

  lemma {:induction false} RestOf(a: seq<nat>)
    requires a != []
    ensures multiset(a[1..]) == multiset(a) - multiset{a[0]}
  {
    assert a == [a[0]] + a[1..];
  }

  /** There is only one ascending arrangement. */
  lemma {:induction false} SortedIsUnique(a: seq<nat>, b: seq<nat>)
    requires Sorted(a) && Sorted(b) && multiset(a) == multiset(b)
    ensures a == b
    decreases |a|
  {
    if a == [] {
      assert |b| == |multiset(b)| == |multiset(a)| == 0;
    } else {
      SameFirst(a, b);
      RestOf(a);
      RestOf(b);
      SortedIsUnique(a[1..], b[1..]);
      assert a == [a[0]] + a[1..] && b == [b[0]] + b[1..];
    }
  }

  /** The loops of `fetch_uids`. */
  method FetchUids(lines: seq<string>) returns (uids: seq<nat>)
    ensures Sorted(uids) && multiset(uids) == multiset(Numbers(lines))
  {
    var found: seq<nat> := [];
    var k := 0;
    while k < |lines|
      invariant 0 <= k <= |lines|
      invariant found == Numbers(lines[..k])
    {
      assert lines[..k + 1][..k] == lines[..k];
      var tokens := Split(lines[k]);
      var j := 0;
      while j < |tokens|
        invariant 0 <= j <= |tokens|
        invariant found == Numbers(lines[..k]) + NumbersOf(tokens[..j])
      {
        assert tokens[..j + 1][..j] == tokens[..j];
        if AllDigits(tokens[j]) {
          found := found + [IntOf(tokens[j])];
        }
        j := j + 1;
      }
      assert tokens[..|tokens|] == tokens;
      k := k + 1;
    }
    assert lines[..|lines|] == lines;
    uids := Sort(found);
  }

  // ---------------------------------------------------------------- what a server sends

  function Decimal(n: nat): (s: string)
    ensures AllDigits(s)
  {
    if n < 10 then ['0' + n as char] else Decimal(n / 10) + ['0' + (n % 10) as char]
  }

  lemma {:induction false} IntOfDecimal(n: nat)
    ensures IntOf(Decimal(n)) == n
  {
    if n >= 10 {
      IntOfDecimal(n / 10);
      assert Decimal(n)[..|Decimal(n)| - 1] == Decimal(n / 10);
    } else {
      assert Decimal(n)[..0] == [];
    }
  }

  /** UIDs separated by single spaces (RFC 3501, section 7.2.5). */
  function Render(uids: seq<nat>): string {
    if uids == [] then "" else if |uids| == 1 then Decimal(uids[0]) else Decimal(uids[0]) + (" " + Render(uids[1..]))
  }

  /** A response line: part of the result, or a status text. */
  datatype Line = Result(uids: seq<nat>) | Status(text: string)

  function TextOf(l: Line): string {
    match l
    case Result(uids) => Render(uids)
    case Status(text) => text
  }

  function Texts(response: seq<Line>): (lines: seq<string>)
    ensures |lines| == |response|
  {
    seq(|response|, k requires 0 <= k < |response| => TextOf(response[k]))
  }

  /** The UIDs the server reported. */
  function Reported(response: seq<Line>): seq<nat>
    decreases |response|
  {
    if response == [] then [] else
      var front, last := Reported(response[..|response| - 1]), response[|response| - 1];
      if last.Result? then front + last.uids else front
  }

  lemma {:induction false} DigitsAreOneToken(s: string, rest: string)
    requires forall k :: 0 <= k < |s| ==> !IsSpace(s[k])
    requires rest == [] || IsSpace(rest[0])
    ensures TokenLength(s + rest) == |s|
    decreases |s|
  {
    if s == [] {
      assert s + rest == rest;
    } else {
      assert (s + rest)[1..] == s[1..] + rest;
      DigitsAreOneToken(s[1..], rest);
    }
  }

  lemma {:induction false} NumbersOfCons(token: string, tokens: seq<string>)
    ensures NumbersOf([token] + tokens) == (if AllDigits(token) then [IntOf(token)] else []) + NumbersOf(tokens)
    decreases |tokens|
  {
    var all := [token] + tokens;
    if tokens == [] {
      assert all[..0] == [];
    } else {
      NumbersOfCons(token, tokens[..|tokens| - 1]);
      assert all[..|all| - 1] == [token] + tokens[..|tokens| - 1];
    }
  }

  /** Splitting a rendered list gives its numbers back. */
  lemma {:induction false} RenderedNumbers(uids: seq<nat>)
    ensures NumbersOf(Split(Render(uids))) == uids
    decreases |uids|
  {
    if uids != [] {
      var d, rest := Decimal(uids[0]), if |uids| == 1 then "" else " " + Render(uids[1..]);
      var line := Render(uids);
      assert line == d + rest;
      IntOfDecimal(uids[0]);
      DigitsAreOneToken(d, rest);
      assert line[..|d|] == d && line[|d|..] == rest;
      NumbersOfCons(d, Split(rest));
      if |uids| > 1 {
        assert rest[1..] == Render(uids[1..]);
        assert Split(rest) == Split(Render(uids[1..]));
        RenderedNumbers(uids[1..]);
        assert [uids[0]] + uids[1..] == uids;
      } else {
        assert uids == [uids[0]];
      }
    }
  }

  /** No status line contains an all-digit token. */
  ghost predicate CleanStatus(response: seq<Line>) {
    forall k :: 0 <= k < |response| && response[k].Status? ==> NumbersOf(Split(response[k].text)) == []
  }

  lemma {:induction false} NumbersCoverReported(response: seq<Line>)
    ensures multiset(Reported(response)) <= multiset(Numbers(Texts(response)))
    ensures |Numbers(Texts(response))| == |Reported(response)| <==> CleanStatus(response)
    ensures |Numbers(Texts(response))| >= |Reported(response)|
    ensures CleanStatus(response) ==> Numbers(Texts(response)) == Reported(response)
    decreases |response|
  {
    if response != [] {
      var front, last := response[..|response| - 1], response[|response| - 1];
      assert response == front + [last];
      NumbersCoverReported(front);
      assert Texts(response)[..|response| - 1] == Texts(front);
      if last.Result? { RenderedNumbers(last.uids); }
      assert CleanStatus(response) <==> CleanStatus(front) && (last.Status? ==> NumbersOf(Split(last.text)) == []);
    }
  }

  /** What `fetch_uids` returns is exactly the reported UIDs in ascending order, however they were
      split over lines, if and only if no status line contains an all-digit token. */
  lemma {:induction false} FetchReturnsReportedIff(response: seq<Line>, uids: seq<nat>)
    requires Sorted(uids) && multiset(uids) == multiset(Numbers(Texts(response)))
    ensures uids == Sort(Reported(response)) <==> CleanStatus(response)
  {
    NumbersCoverReported(response);
    if CleanStatus(response) {
      SortedIsUnique(uids, Sort(Reported(response)));
    } else {
      assert |uids| == |multiset(uids)| == |Numbers(Texts(response))|;
      assert |Sort(Reported(response))| == |multiset(Sort(Reported(response)))| == |Reported(response)|;
    }
  }

  // ---------------------------------------------------------------- a response that goes wrong

  predicate IsWord(s: string) {
    s != [] && forall k :: 0 <= k < |s| ==> !IsSpace(s[k])
  }

  /** Words with single spaces between them. */
  function Join(words: seq<string>): string {
    if words == [] then "" else if |words| == 1 then words[0] else words[0] + (" " + Join(words[1..]))
  }

  lemma {:induction false} SplitsAfter(word: string, rest: string)
    requires IsWord(word) && (rest == [] || IsSpace(rest[0]))
    ensures Split(word + rest) == [word] + Split(rest)
  {
    var line := word + rest;
    DigitsAreOneToken(word, rest);
    assert line[..|word|] == word && line[|word|..] == rest;
  }

  /** Any of the ASCII spaces parts two words: blank, tab, the line ends and 0x1C to 0x1F. */
  lemma {:induction false} SpacePartsWords(a: string, b: string, c: char)
    requires IsWord(a) && IsWord(b)
    requires c == ' ' || c == '\t' || c == '\n' || c == '\r' || c == 11 as char || c == 12 as char
             || c == 28 as char || c == 29 as char || c == 30 as char || c == 31 as char
    ensures Split(a + ([c] + b)) == [a, b]
  {
    SplitsAfter(a, [c] + b);
    assert ([c] + b)[1..] == b && b + "" == b;
    SplitsAfter(b, "");
  }

  lemma {:induction false} JoinSplits(words: seq<string>)
    requires forall k :: 0 <= k < |words| ==> IsWord(words[k])
    ensures Split(Join(words)) == words
    decreases |words|
  {
    if words != [] {
      var rest := if |words| == 1 then "" else " " + Join(words[1..]);
      assert Join(words) == words[0] + rest;
      SplitsAfter(words[0], rest);
      if |words| > 1 {
        assert rest[1..] == Join(words[1..]);
        JoinSplits(words[1..]);
        assert words == [words[0]] + words[1..];
      } else {
        assert words == [words[0]];
      }
    }
  }

  lemma {:induction false} NumbersOfConcat(a: seq<string>, b: seq<string>)
    ensures NumbersOf(a + b) == NumbersOf(a) + NumbersOf(b)
    decreases |b|
  {
    if b == [] {
      assert a + b == a;
    } else {
      NumbersOfConcat(a, b[..|b| - 1]);
      assert (a + b)[..|a + b| - 1] == a + b[..|b| - 1];
    }
  }

  lemma {:induction false} NoNumbers(words: seq<string>)
    requires forall k :: 0 <= k < |words| ==> !AllDigits(words[k])
    ensures NumbersOf(words) == []
    decreases |words|
  {
    if words != [] { NoNumbers(words[..|words| - 1]); }
  }

  predicate PlainWord(s: string) {
    IsWord(s) && !AllDigits(s)
  }

  lemma {:induction false} OneNumber(before: seq<string>, n: nat, after: seq<string>)
    requires forall k :: 0 <= k < |before| ==> PlainWord(before[k])
    requires forall k :: 0 <= k < |after| ==> PlainWord(after[k])
    ensures NumbersOf(Split(Join(before + [Decimal(n)] + after))) == [n]
  {
    var words := before + [Decimal(n)] + after;
    JoinSplits(words);
    NoNumbers(before);
    NoNumbers(after);
    IntOfDecimal(n);
    NumbersOfConcat(before + [Decimal(n)], after);
    NumbersOfConcat(before, [Decimal(n)]);
    assert [Decimal(n)][..0] == [];
  }

  lemma {:induction false} OneMoreLine(response: seq<Line>, l: Line)
    ensures Reported(response + [l]) == Reported(response) + if l.Result? then l.uids else []
    ensures Numbers(Texts(response + [l])) == Numbers(Texts(response)) + NumbersOf(Split(TextOf(l)))
  {
    assert (response + [l])[..|response|] == response;
    assert Texts(response + [l])[..|response|] == Texts(response);
  }

  /** Where it goes wrong: a number among the words of a status line, such as the time a search took,
      comes back as a UID nobody reported. */
  lemma {:induction false} StatusNumberIsFetched(response: seq<Line>, before: seq<string>, n: nat, after: seq<string>)
    requires forall k :: 0 <= k < |before| ==> PlainWord(before[k])
    requires forall k :: 0 <= k < |after| ==> PlainWord(after[k])
    ensures var longer := response + [Status(Join(before + [Decimal(n)] + after))];
            Reported(longer) == Reported(response) && Numbers(Texts(longer)) == Numbers(Texts(response)) + [n]
  {
    OneNumber(before, n, after);
    OneMoreLine(response, Status(Join(before + [Decimal(n)] + after)));
  }

  lemma {:induction false} PlainWhen(s: string)
    requires s != [] && !IsDigit(s[0]) && forall k :: 0 <= k < |s| ==> 'A' <= s[k]
    ensures PlainWord(s)
  {
  }

  lemma {:induction false} JoinNext(word: string, words: seq<string>)
    requires words != []
    ensures Join([word] + words) == word + " " + Join(words)
  {
    assert ([word] + words)[1..] == words;
  }

  lemma {:induction false} FiveWords(a: string, b: string, c: string, d: string, e: string)
    ensures Join([a, b, c] + [d] + [e]) == a + " " + (b + " " + (c + " " + (d + " " + e)))
  {
    JoinNext(d, [e]);
    JoinNext(c, [d] + [e]);
    JoinNext(b, [c] + ([d] + [e]));
    JoinNext(a, [b] + ([c] + ([d] + [e])));
    assert [a, b, c] + [d] + [e] == [a] + ([b] + ([c] + ([d] + [e])));
  }

  lemma {:induction false} FifthIsFetched(response: seq<Line>, a: string, b: string, c: string, n: nat, e: string)
    requires PlainWord(a) && PlainWord(b) && PlainWord(c) && PlainWord(e)
    ensures var longer := response + [Status(a + " " + (b + " " + (c + " " + (Decimal(n) + " " + e))))];
            Reported(longer) == Reported(response) && Numbers(Texts(longer)) == Numbers(Texts(response)) + [n]
  {
    FiveWords(a, b, c, Decimal(n), e);
    StatusNumberIsFetched(response, [a, b, c], n, [e]);
  }

  lemma {:induction false} TimingText()
    ensures "SEARCH" + " " + ("completed" + " " + ("in" + " " + (Decimal(5) + " " + "ms")))
         == "SEARCH completed in 5 ms"
  {
  }

  /** "SEARCH completed in 5 ms" is such a line: it adds the UID 5. */
  lemma {:induction false} TimingIsTakenForUid(response: seq<Line>)
    ensures var longer := response + [Status("SEARCH completed in 5 ms")];
            Reported(longer) == Reported(response) && Numbers(Texts(longer)) == Numbers(Texts(response)) + [5]
  {
    PlainWhen("SEARCH");
    PlainWhen("completed");
    PlainWhen("in");
    PlainWhen("ms");
    TimingText();
    FifthIsFetched(response, "SEARCH", "completed", "in", 5, "ms");
  }
}
