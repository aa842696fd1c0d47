/** Dispatch accounting: one send per recipient, a per-address success map,
    and the "<k>/<n> emails sent" summary. The send capability is a
    parameter returning an integer; a positive value means delivered. */
module Dispatch {
  import opened Wrappers
  import opened Decimal

  /** The concrete send capability: it reports the payload's length, so it
      succeeds exactly when the payload is not empty. */
  function SendEmail(emailId: string, payload: string): (sent: int)
    ensures sent >= 0
    ensures sent > 0 <==> payload != ""
  {
    |payload|
  }

  /** The distinct addresses of a recipient list. */
  function Addresses(emails: seq<string>): set<string>
  {
    set e | e in emails
  }

  /** The sends a dispatch makes: one per list entry, in list order, each
      with the same content. */
  function SendCalls(emails: seq<string>, content: string): (calls: seq<(string, string)>)
    decreases |emails|
    ensures |calls| == |emails|
    ensures forall i :: 0 <= i < |emails| ==> calls[i] == (emails[i], content)
  {
    if emails == [] then []
    else SendCalls(emails[..|emails| - 1], content) + [(emails[|emails| - 1], content)]
  }

  /** The success map built by sending `content` to each address of
      `emails` in order, each send overwriting the entry for its address. */
  function StatusMap(emails: seq<string>, content: string, send: (string, string) -> int): (m: map<string, bool>)
    decreases |emails|
    ensures m.Keys == Addresses(emails)
    ensures forall e :: e in m ==> m[e] == (send(e, content) > 0)
  {
    if emails == [] then map[]
    else
      var last := emails[|emails| - 1];
      var front := emails[..|emails| - 1];
      assert emails == front + [last];
      StatusMap(front, content, send)[last := send(last, content) > 0]
  }

  /** One more list entry adds one send and overwrites that address's entry. */
  lemma DispatchStep(emails: seq<string>, i: nat, content: string, send: (string, string) -> int)
    requires i < |emails|
    ensures SendCalls(emails[..i + 1], content) == SendCalls(emails[..i], content) + [(emails[i], content)]
    ensures StatusMap(emails[..i + 1], content, send)
            == StatusMap(emails[..i], content, send)[emails[i] := send(emails[i], content) > 0]
  {
    assert emails[..i + 1][..i] == emails[..i];
  }

  /** The number of addresses marked delivered. */
  function SuccessCount(m: map<string, bool>): (k: nat)
    ensures k <= |m|
  {
    var delivered := set e | e in m && m[e];
    assert m.Keys == delivered + (m.Keys - delivered);
    |delivered|
  }

  const SentTail: string := " emails sent"

  /** The message reported for k delivered addresses out of n list entries;
      reading it back recovers both counts. */
  function Summary(k: nat, n: nat): (msg: string)
    ensures ParseSummary(msg) == Some((k, n))
  {
    ParseNatToString(k);
    ParseNatToString(n);
    ParseSummaryOf(NatToString(k), NatToString(n));
    NatToString(k) + "/" + NatToString(n) + SentTail
  }

  /** Reads a "<k>/<n> emails sent" message back into its two counts; any
      other text reads as None. */
  ghost function ParseSummary(msg: string): Option<(nat, nat)>
  {
    if |msg| < |SentTail| || msg[|msg| - |SentTail|..] != SentTail then None
    else
      var body := msg[..|msg| - |SentTail|];
      var i := SlashIndex(body);
      if i == 0 || i + 1 >= |body| || !IsDigits(body[..i]) || !IsDigits(body[i + 1..]) then None
      else Some((ParseDigits(body[..i]), ParseDigits(body[i + 1..])))
  }

  lemma ParseSummaryOf(a: string, b: string)
    requires |a| >= 1 && |b| >= 1 && IsDigits(a) && IsDigits(b)
    ensures ParseSummary(a + "/" + b + SentTail) == Some((ParseDigits(a), ParseDigits(b)))
  {
    var msg := a + "/" + b + SentTail;
    var body := a + "/" + b;
    assert msg[..|msg| - |SentTail|] == body;
    assert msg[|msg| - |SentTail|..] == SentTail;
    SlashAfterDigits(a, b);
    assert body[..|a|] == a;
    assert body[|a| + 1..] == b;
  }

  /** An empty recipient list is reported as "0/0 emails sent". */
  lemma EmptyListSummary(content: string, send: (string, string) -> int)
    ensures StatusMap([], content, send) == map[]
    ensures Summary(SuccessCount(StatusMap([], content, send)), 0) == "0/0 emails sent"
  {
    assert NatToString(0) == "0";
  }

  /** A list has no more distinct addresses than entries. */
  lemma {:induction false} AddressesAtMostLength(emails: seq<string>)
    decreases |emails|
    ensures |Addresses(emails)| <= |emails|
  {
    if emails != [] {
      var front := emails[..|emails| - 1];
      AddressesAtMostLength(front);
      assert emails == front + [emails[|emails| - 1]];
      assert Addresses(emails) == Addresses(front) + {emails[|emails| - 1]};
    }
  }

  /** A list that names some address twice has fewer distinct addresses
      than entries, so its report has k < n even when every send succeeds. */
  lemma DuplicatesReportFewer(emails: seq<string>, i: nat, j: nat)
    requires i < j < |emails| && emails[i] == emails[j]
    ensures |Addresses(emails)| < |emails|
  {
    var rest := emails[..j] + emails[j + 1..];
    assert emails == emails[..j] + [emails[j]] + emails[j + 1..];
    assert emails[i] == rest[i];
    assert Addresses(emails) == Addresses(rest);
    AddressesAtMostLength(rest);
  }

  /** The count reported is the number of distinct addresses whose send
      succeeded; it never exceeds the number of list entries. */
  lemma SuccessCountBound(emails: seq<string>, content: string, send: (string, string) -> int)
    ensures SuccessCount(StatusMap(emails, content, send))
            == |set e | e in Addresses(emails) && send(e, content) > 0|
    ensures SuccessCount(StatusMap(emails, content, send)) <= |Addresses(emails)| <= |emails|
  {
    var m := StatusMap(emails, content, send);
    assert (set e | e in m && m[e]) == (set e | e in Addresses(emails) && send(e, content) > 0);
    AddressesAtMostLength(emails);
  }

  /** With the concrete send capability every address is marked delivered
      exactly when the payload is not empty, so the count is the number of
      distinct addresses or zero. */
  lemma ConcreteSendCount(emails: seq<string>, payload: string)
    ensures forall e :: e in StatusMap(emails, payload, SendEmail) ==>
              StatusMap(emails, payload, SendEmail)[e] == (payload != "")
    ensures SuccessCount(StatusMap(emails, payload, SendEmail))
            == if payload != "" then |Addresses(emails)| else 0
  {
    var m := StatusMap(emails, payload, SendEmail);
    if payload != "" {
      assert (set e | e in m && m[e]) == m.Keys;
    } else {
      assert (set e | e in m && m[e]) == {};
    }
  }

  lemma OneOfTwoMessage()
    ensures Summary(1, 2) == "1/2 emails sent"
  {
    assert NatToString(1) == "1" && NatToString(2) == "2";
    assert Summary(1, 2) == "1" + "/" + "2" + SentTail;
  }

  /** A repeated address is one key of the map but two list entries: with
      a non-empty payload, the list [a, a] is reported as "1/2". */
  lemma DuplicateAddressCountedOnce(a: string, payload: string)
    requires payload != ""
    ensures StatusMap([a, a], payload, SendEmail) == map[a := true]
    ensures Summary(SuccessCount(StatusMap([a, a], payload, SendEmail)), 2) == "1/2 emails sent"
  {
    var m := StatusMap([a, a], payload, SendEmail);
    assert Addresses([a, a]) == {a};
    assert (set e | e in m && m[e]) == {a};
    assert SuccessCount(m) == 1;
    OneOfTwoMessage();
  }

  /** Two recipients, the first delivered and the second not: the report
      is "1/2 emails sent" with the first marked true, the second false. */
  lemma OneOfTwoDelivered(a: string, b: string, content: string, send: (string, string) -> int)
    requires a != b
    requires send(a, content) > 0 && send(b, content) <= 0
    ensures StatusMap([a, b], content, send) == map[a := true, b := false]
    ensures Summary(SuccessCount(StatusMap([a, b], content, send)), 2) == "1/2 emails sent"
  {
    var m := StatusMap([a, b], content, send);
    assert Addresses([a, b]) == {a, b};
    assert (set e | e in m && m[e]) == {a};
    assert SuccessCount(m) == 1;
    OneOfTwoMessage();
  }

  /** Position of the first slash of `s`, or |s| when there is none. */
  function SlashIndex(s: string): (i: nat)
    ensures i <= |s|
  {
    if s == [] || s[0] == '/' then 0 else 1 + SlashIndex(s[1..])
  }

  lemma {:induction false} SlashAfterDigits(a: string, x: string)
    requires IsDigits(a)
    ensures SlashIndex(a + "/" + x) == |a|
  {
    if a != [] {
      assert (a + "/" + x)[1..] == a[1..] + "/" + x;
      SlashAfterDigits(a[1..], x);
    }
  }

  /** The summary determines both counts: different (k, n) never print the
      same message. */
  lemma SummaryDeterminesCounts(k1: nat, n1: nat, k2: nat, n2: nat)
    requires Summary(k1, n1) == Summary(k2, n2)
    ensures k1 == k2 && n1 == n2
  {
  }
}
