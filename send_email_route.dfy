/**
 * app/api/send-email/route.ts: the bulk invitation endpoint. It validates the
 * request body, then walks the addresses in order, rendering one email per
 * address, handing it to the transport once, recording the outcome and
 * pausing, and finally reports a summary of the batch.
 *
 * The transport is an oracle: `transport(i, mail)` is how the mail library
 * settles the i-th send of the batch. The pause is an event in a ghost trace.
 */
module SendEmailRoute {
  import opened Wrappers
  import opened Text
  import opened Template
  import opened Email

  const DefaultSubject := "TestFlight Invitation - Join Our Beta!"
  const EmailsRequired := "Emails array is required"
  const LinkRequired := "TestFlight link is required"

  /** The `emails` property of the parsed body: falsy, some other value, or an array of addresses. */
  datatype EmailsField = Missing | NotAnArray | AnArray(items: seq<string>)

  /**
   * The parsed request body; an absent property is `None`. A `null` subject
   * or link behaves as an absent one; a `null` custom message is not modelled.
   */
  datatype SendRequest = SendRequest(
    emails: EmailsField,
    subject: Option<string>,
    customMessage: Option<string>,
    testFlightLink: Option<string>)

  /** The options handed to `sendEmail`. */
  datatype Mail = Mail(to: string, subject: string, html: Html)

  /** What the endpoint does to the outside world: a send attempt, or the pause after one. */
  datatype Event = Send(mail: Mail) | Pause

  /** How the mail library settles the `i`-th send of a batch. */
  type Transport = (nat, Mail) -> SmtpOutcome

  /** One entry of `results`. */
  datatype ResultEntry = ResultEntry(email: string, success: bool, messageId: Option<string>, error: Option<string>)

  datatype Summary = Summary(total: nat, successful: nat, failed: nat)

  datatype EmailDetails = EmailDetails(subject: string, customMessage: Option<string>, testFlightLink: string, recipientCount: nat)

  /** The JSON the endpoint answers with: a status-400 error, or the batch report. */
  datatype Response =
    | BadRequest(error: string)
    | Report(success: bool, message: string, results: seq<ResultEntry>, summary: Summary, details: EmailDetails)

  /** `emails` passes `!emails || !Array.isArray(emails) || emails.length === 0`. */
  predicate HasEmails(req: SendRequest) {
    req.emails.AnArray? && |req.emails.items| > 0
  }

  /** `testFlightLink` is truthy. */
  predicate HasLink(req: SendRequest) {
    req.testFlightLink.Some? && req.testFlightLink.value != ""
  }

  /** `subject || "TestFlight Invitation - Join Our Beta!"`: no trimming, only "" falls back. */
  function EffectiveSubject(subject: Option<string>): (s: string)
    ensures subject.Some? && subject.value != "" ==> s == subject.value
    ensures subject.None? || subject.value == "" ==> s == DefaultSubject
  {
    OrElse(subject.GetOr(""), DefaultSubject)
  }

  /** The mail for `email`: named after the text before its first `@`, with the batch's subject. */
  function MailTo(req: SendRequest, email: string): Mail {
    Mail(email, EffectiveSubject(req.subject),
         GenerateTestFlightEmailHtml(LocalPart(email), req.testFlightLink, req.customMessage))
  }

  /** The entry recorded for `email` once `sendEmail` has resolved to `r`. */
  function Record(email: string, r: SendResult): ResultEntry {
    match r
    case Sent(id) => ResultEntry(email, true, Some(id), None)
    case NotSent(error) => ResultEntry(email, false, None, Some(error))
  }

  /** The entry for the `i`-th address, sent as the `i`-th attempt. */
  function Outcome(req: SendRequest, transport: Transport, emails: seq<string>, i: nat): ResultEntry
    requires i < |emails|
  {
    Record(emails[i], SendEmail(transport(i, MailTo(req, emails[i]))))
  }

  /** `results` after the loop has handled the first `n` addresses. */
  function ResultsUpTo(req: SendRequest, transport: Transport, emails: seq<string>, n: nat): seq<ResultEntry>
    requires n <= |emails|
  {
    if n == 0 then [] else ResultsUpTo(req, transport, emails, n - 1) + [Outcome(req, transport, emails, n - 1)]
  }

  /** The events after the loop has handled the first `n` addresses. */
  function TraceUpTo(req: SendRequest, emails: seq<string>, n: nat): seq<Event>
    requires n <= |emails|
  {
    if n == 0 then [] else TraceUpTo(req, emails, n - 1) + [Send(MailTo(req, emails[n - 1])), Pause]
  }

  /** `results.filter((r) => r.success).length`. */
  function SuccessCount(results: seq<ResultEntry>): (n: nat)
    ensures n <= |results|
  {
    if results == [] then 0
    else SuccessCount(results[..|results| - 1]) + (if results[|results| - 1].success then 1 else 0)
  }

  /** Every entry succeeded exactly when the count is the length; none did exactly when it is zero. */
  lemma {:induction false} SuccessCountExtremes(results: seq<ResultEntry>)
    ensures SuccessCount(results) == |results| <==> forall i :: 0 <= i < |results| ==> results[i].success
    ensures SuccessCount(results) == 0 <==> forall i :: 0 <= i < |results| ==> !results[i].success
  {
    if results != [] {
      var init := results[..|results| - 1];
      SuccessCountExtremes(init);
      assert forall i :: 0 <= i < |init| ==> init[i] == results[i];
    }
  }

  /** `Emails sent: ${successCount} successful, ${failureCount} failed`. */
  function SummaryMessage(successful: nat, failed: nat): string {
    "Emails sent: " + Decimal(successful) + " successful, " + Decimal(failed) + " failed"
  }

  /** `emailDetails`: `customMessage || null` keeps only a non-empty message. */
  function Details(req: SendRequest, subject: string, recipientCount: nat): EmailDetails
    requires HasLink(req)
  {
    EmailDetails(subject,
                 if req.customMessage.Some? && req.customMessage.value != "" then req.customMessage else None,
                 req.testFlightLink.value, recipientCount)
  }

  /** The response of the endpoint, as a function of the request and the transport. */
  function Respond(req: SendRequest, transport: Transport): Response {
    if !HasEmails(req) then BadRequest(EmailsRequired)
    else if !HasLink(req) then BadRequest(LinkRequired)
    else
      var emails := req.emails.items;
      var results := ResultsUpTo(req, transport, emails, |emails|);
      var successful := SuccessCount(results);
      Report(true, SummaryMessage(successful, |results| - successful), results,
             Summary(|results|, successful, |results| - successful),
             Details(req, EffectiveSubject(req.subject), |emails|))
  }

  /** The events of the whole request: none when validation fails. */
  function Trace(req: SendRequest): seq<Event> {
    if HasEmails(req) && HasLink(req) then TraceUpTo(req, req.emails.items, |req.emails.items|) else []
  }

  /** `POST`: validate, then send to each address in turn, pausing after every send. */
  method Post(req: SendRequest, transport: Transport) returns (resp: Response, ghost trace: seq<Event>)
    ensures resp == Respond(req, transport)
    ensures trace == Trace(req)
  {
    trace := [];
    if !req.emails.AnArray? || |req.emails.items| == 0 {
      return BadRequest(EmailsRequired), trace;
    }
    if req.testFlightLink.None? || req.testFlightLink.value == "" {
      return BadRequest(LinkRequired), trace;
    }
    var emails := req.emails.items;
    var results: seq<ResultEntry> := [];
    var subject := OrElse(req.subject.GetOr(""), DefaultSubject);
    for i := 0 to |emails|
      invariant results == ResultsUpTo(req, transport, emails, i)
      invariant trace == TraceUpTo(req, emails, i)
    {
      var email := emails[i];
      var html := GenerateTestFlightEmailHtml(LocalPart(email), req.testFlightLink, req.customMessage);
      var mail := Mail(email, subject, html);
      assert mail == MailTo(req, emails[i]);
      var result := SendEmail(transport(i, mail));
      trace := trace + [Send(mail)];
      results := results + [Record(email, result)];
      trace := trace + [Pause];
    }
    assert results == ResultsUpTo(req, transport, emails, |emails|);
    var successCount := SuccessCount(results);
    var failureCount := |results| - successCount;
    resp := Report(true, SummaryMessage(successCount, failureCount), results,
                   Summary(|results|, successCount, failureCount),
                   Details(req, subject, |emails|));
  }

  /**
   * Validation happens before anything is sent, emails first: a request
   * without a non-empty `emails` array is refused whatever its link, one
   * without a truthy link is refused next, and only a refused request
   * produces no events.
   */
  lemma Validation(req: SendRequest, transport: Transport)
    ensures !HasEmails(req) ==> Respond(req, transport) == BadRequest(EmailsRequired) && Trace(req) == []
    ensures HasEmails(req) && !HasLink(req) ==> Respond(req, transport) == BadRequest(LinkRequired) && Trace(req) == []
    ensures HasEmails(req) && HasLink(req) <==> Respond(req, transport).Report?
  {
  }

  /** Entry `i` of the results is the outcome of the one attempt for `emails[i]`. */
  lemma {:induction false} ResultsAt(req: SendRequest, transport: Transport, emails: seq<string>, n: nat, i: nat)
    requires i < n <= |emails|
    ensures |ResultsUpTo(req, transport, emails, n)| == n
    ensures ResultsUpTo(req, transport, emails, n)[i] == Outcome(req, transport, emails, i)
  {
    ResultsLength(req, transport, emails, n - 1);
    if i < n - 1 {
      ResultsAt(req, transport, emails, n - 1, i);
    }
  }

  lemma {:induction false} ResultsLength(req: SendRequest, transport: Transport, emails: seq<string>, n: nat)
    requires n <= |emails|
    ensures |ResultsUpTo(req, transport, emails, n)| == n
  {
    if n > 0 {
      ResultsLength(req, transport, emails, n - 1);
    }
  }

  /**
   * The events are a send followed by a pause for each address, in order:
   * the `i`-th send carries the mail for `emails[i]`, and a pause follows
   * every send, the last one included.
   */
  lemma {:induction false} TraceAt(req: SendRequest, emails: seq<string>, n: nat, i: nat)
    requires i < n <= |emails|
    ensures |TraceUpTo(req, emails, n)| == 2 * n
    ensures TraceUpTo(req, emails, n)[2 * i] == Send(MailTo(req, emails[i]))
    ensures TraceUpTo(req, emails, n)[2 * i + 1] == Pause
  {
    TraceLength(req, emails, n - 1);
    if i < n - 1 {
      TraceAt(req, emails, n - 1, i);
    }
  }

  lemma {:induction false} TraceLength(req: SendRequest, emails: seq<string>, n: nat)
    requires n <= |emails|
    ensures |TraceUpTo(req, emails, n)| == 2 * n
  {
    if n > 0 {
      TraceLength(req, emails, n - 1);
    }
  }

  /** The addresses of the send events, in order. */
  function Recipients(trace: seq<Event>): seq<string> {
    if trace == [] then []
    else Recipients(trace[..|trace| - 1]) + (if trace[|trace| - 1].Send? then [trace[|trace| - 1].mail.to] else [])
  }

  /**
   * Exactly one send per address, in input order, duplicates kept: the
   * addresses sent to are the input list itself.
   */
  lemma {:induction false} OneSendPerAddress(req: SendRequest, emails: seq<string>, n: nat)
    requires n <= |emails|
    ensures Recipients(TraceUpTo(req, emails, n)) == emails[..n]
  {
    if n > 0 {
      OneSendPerAddress(req, emails, n - 1);
      var before := TraceUpTo(req, emails, n - 1);
      var t := before + [Send(MailTo(req, emails[n - 1])), Pause];
      assert t[..|t| - 1] == before + [Send(MailTo(req, emails[n - 1]))];
      assert (before + [Send(MailTo(req, emails[n - 1]))])[..|before|] == before;
      assert emails[..n] == emails[..n - 1] + [emails[n - 1]];
    }
  }

  /**
   * The report covers every address once, in order: `results[i].email` is
   * `emails[i]`, success is what the i-th attempt reported, and the summary
   * counts add up to `results.length == emails.length`.
   */
  lemma ReportCoversEveryAddress(req: SendRequest, transport: Transport)
    requires HasEmails(req) && HasLink(req)
    ensures var r, emails := Respond(req, transport), req.emails.items;
      && r.Report? && r.success
      && |r.results| == |emails| == r.summary.total == r.details.recipientCount
      && r.summary.successful == SuccessCount(r.results)
      && r.summary.successful + r.summary.failed == r.summary.total
      && (forall i :: 0 <= i < |emails| ==>
            && r.results[i].email == emails[i]
            && (r.results[i].success <==> transport(i, MailTo(req, emails[i])).Delivered?))
  {
    var emails := req.emails.items;
    ResultsLength(req, transport, emails, |emails|);
    forall i | 0 <= i < |emails|
      ensures ResultsUpTo(req, transport, emails, |emails|)[i] == Outcome(req, transport, emails, i)
    {
      ResultsAt(req, transport, emails, |emails|, i);
    }
  }

  /**
   * The report's message prints its two counts, and its details echo the
   * batch's subject, the link as received, and the custom message unless it
   * is empty (`customMessage || null`).
   */
  lemma ReportDetails(req: SendRequest, transport: Transport)
    requires HasEmails(req) && HasLink(req)
    ensures var r := Respond(req, transport);
      && r.Report?
      && r.message == SummaryMessage(r.summary.successful, r.summary.failed)
      && r.details.subject == EffectiveSubject(req.subject)
      && r.details.testFlightLink == req.testFlightLink.value
      && r.details.customMessage == (if req.customMessage == Some("") then None else req.customMessage)
  {
  }

  /**
   * Each mail goes to its own address under the batch's one subject and
   * greets the recipient by the text before the first `@` of the address,
   * or by "there" when that text is empty.
   */
  lemma MailForAddress(req: SendRequest, email: string)
    ensures var mail, name := MailTo(req, email), LocalPart(email);
      && mail.to == email && mail.subject == EffectiveSubject(req.subject)
      && mail.html[NameSlot] == Verbatim(OrElse(name, "there"))
      && |name| <= |email| && name == email[..|name|] && '@' !in name
      && (|name| < |email| ==> email[|name|] == '@')
  {
    RenderedLayout(LocalPart(email), req.testFlightLink, req.customMessage);
    LocalPartSpec(email);
  }

  /**
   * For an accepted request the events are, address by address in input
   * order, one send of that address's mail followed by one pause; the last
   * event is a pause; the addresses sent to are the input list.
   */
  lemma BatchTrace(req: SendRequest)
    requires HasEmails(req) && HasLink(req)
    ensures var t, emails := Trace(req), req.emails.items;
      && |t| == 2 * |emails|
      && Recipients(t) == emails
      && (forall i :: 0 <= i < |emails| ==> t[2 * i] == Send(MailTo(req, emails[i])) && t[2 * i + 1] == Pause)
      && t[|t| - 1] == Pause
  {
    var emails := req.emails.items;
    TraceLength(req, emails, |emails|);
    OneSendPerAddress(req, emails, |emails|);
    assert emails[..|emails|] == emails;
    forall i | 0 <= i < |emails|
      ensures Trace(req)[2 * i] == Send(MailTo(req, emails[i])) && Trace(req)[2 * i + 1] == Pause
    {
      TraceAt(req, emails, |emails|, i);
    }
    TraceAt(req, emails, |emails|, |emails| - 1);
  }

  /**
   * A batch of three addresses in which only the second send throws: every address
   * is still tried, the failure is recorded with the thrown message, and
   * the report reads "Emails sent: 2 successful, 1 failed".
   */
  lemma OneFailureInThree(a: string, b: string, c: string, link: string, transport: Transport)
    requires link != ""
    requires forall m :: transport(1, m) == Threw(ErrorObject("rate limited"))
    requires forall i: nat, m :: i != 1 ==> transport(i, m) == Delivered("id")
    ensures var req := SendRequest(AnArray([a, b, c]), None, None, Some(link));
      var r := Respond(req, transport);
      && r.Report? && r.success
      && r.summary == Summary(3, 2, 1)
      && r.results[1] == ResultEntry(b, false, None, Some("rate limited"))
      && r.results[2] == ResultEntry(c, true, Some("id"), None)
      && r.message == "Emails sent: 2 successful, 1 failed"
  {
    var req := SendRequest(AnArray([a, b, c]), None, None, Some(link));
    var results := ResultsUpTo(req, transport, [a, b, c], 3);
    ThreeResults(a, b, c, link, transport);
    SuccessCountOfThree(results);
    assert Respond(req, transport).message == SummaryMessage(2, 1);
    TwoSuccessfulOneFailed();
  }

  /** The report's message for two successes and one failure. */
  lemma TwoSuccessfulOneFailed()
    ensures SummaryMessage(2, 1) == "Emails sent: 2 successful, 1 failed"
  {
    assert Decimal(2) == "2" && Decimal(1) == "1";
  }

  /** The entries of that batch, one by one. */
  lemma ThreeResults(a: string, b: string, c: string, link: string, transport: Transport)
    requires forall m :: transport(1, m) == Threw(ErrorObject("rate limited"))
    requires forall i: nat, m :: i != 1 ==> transport(i, m) == Delivered("id")
    ensures var req := SendRequest(AnArray([a, b, c]), None, None, Some(link));
      var results := ResultsUpTo(req, transport, [a, b, c], 3);
      && |results| == 3
      && results[0] == ResultEntry(a, true, Some("id"), None)
      && results[1] == ResultEntry(b, false, None, Some("rate limited"))
      && results[2] == ResultEntry(c, true, Some("id"), None)
  {
    var req := SendRequest(AnArray([a, b, c]), None, None, Some(link));
    var emails := [a, b, c];
    ResultsAt(req, transport, emails, 3, 0);
    ResultsAt(req, transport, emails, 3, 1);
    ResultsAt(req, transport, emails, 3, 2);
    assert transport(0, MailTo(req, a)) == Delivered("id");
    assert transport(1, MailTo(req, b)) == Threw(ErrorObject("rate limited"));
    assert transport(2, MailTo(req, c)) == Delivered("id");
  }

  /** The count of a three-entry list, entry by entry. */
  lemma SuccessCountOfThree(rs: seq<ResultEntry>)
    requires |rs| == 3
    ensures SuccessCount(rs) == (if rs[0].success then 1 else 0) + (if rs[1].success then 1 else 0) + (if rs[2].success then 1 else 0)
  {
    var two, one := rs[..2], rs[..2][..1];
    assert rs[..|rs| - 1] == two && two[..|two| - 1] == one && one[..|one| - 1] == [];
    assert two[1] == rs[1] && one[0] == rs[0];
    assert SuccessCount(one) == (if rs[0].success then 1 else 0);
    assert SuccessCount(two) == SuccessCount(one) + (if rs[1].success then 1 else 0);
  }

  /**
   * A failed send neither stops nor changes the rest of the batch: two
   * transports that differ only on attempt `j` give the same results
   * everywhere but at `j`.
   */
  lemma FailureIsIsolated(req: SendRequest, t1: Transport, t2: Transport, j: nat)
    requires HasEmails(req) && HasLink(req)
    requires forall i: nat, m: Mail :: i != j ==> t1(i, m) == t2(i, m)
    ensures var r1, r2 := Respond(req, t1).results, Respond(req, t2).results;
      |r1| == |r2| && forall i :: 0 <= i < |r1| && i != j ==> r1[i] == r2[i]
  {
    var emails := req.emails.items;
    ResultsLength(req, t1, emails, |emails|);
    ResultsLength(req, t2, emails, |emails|);
    forall i | 0 <= i < |emails| && i != j
      ensures ResultsUpTo(req, t1, emails, |emails|)[i] == ResultsUpTo(req, t2, emails, |emails|)[i]
    {
      ResultsAt(req, t1, emails, |emails|, i);
      ResultsAt(req, t2, emails, |emails|, i);
    }
  }

  /** The request still succeeds at top level when every send fails. */
  lemma AllFailedStillSucceeds(req: SendRequest, transport: Transport)
    requires HasEmails(req) && HasLink(req)
    requires forall i: nat, m: Mail :: transport(i, m).Threw?
    ensures var r := Respond(req, transport);
      r.Report? && r.success && r.summary.successful == 0 && r.summary.failed == r.summary.total == |req.emails.items|
  {
    ReportCoversEveryAddress(req, transport);
    SuccessCountExtremes(Respond(req, transport).results);
  }

  /**
   * A link of spaces is truthy, so the request passes validation, but every
   * mail is rendered with the message layout and no join button.
   */
  lemma BlankLinkPassesValidation(req: SendRequest, transport: Transport)
    requires HasEmails(req) && req.testFlightLink.Some? && req.testFlightLink.value != ""
    requires AllSpace(req.testFlightLink.value)
    ensures Respond(req, transport).Report?
    ensures forall e :: Compose(LocalPart(e), req.testFlightLink, req.customMessage).content.MessageBox?
  {
    BlankLinkSelectsMessageLayout(req.testFlightLink.value);
  }
}
