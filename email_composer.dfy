/**
 * components/EmailComposer.tsx: the form that sends the selected users an
 * invitation. It guards a send (a link first, then a selection), builds the
 * request body for the bulk endpoint, resets the form after a successful
 * batch, and renders a client-side preview that is a template of its own.
 */
module EmailComposer {
  import opened Wrappers
  import opened Text
  import opened Template
  import opened Email
  import opened SendEmailRoute
  import opened WaitlistTable

  const InitialSubject := "TestFlight Invitation - Join Our Beta!"
  const LinkAlert := "Please enter a TestFlight link"
  const SelectionAlert := "Please select at least one user"
  const SendFailedError := "Failed to send emails. Please try again."

  /** The alert `handleSend` raises instead of sending, if any: the link is checked before the selection. */
  function SendGuard(testFlightLink: string, selected: seq<WaitlistUser>): Option<string> {
    if Trim(testFlightLink) == "" then Some(LinkAlert)
    else if |selected| == 0 then Some(SelectionAlert)
    else None
  }

  /** The `disabled` expression of the send button. */
  predicate SendDisabled(sending: bool, selected: seq<WaitlistUser>, testFlightLink: string) {
    sending || |selected| == 0 || Trim(testFlightLink) == ""
  }

  /**
   * The button is disabled exactly while a send is running or when a click
   * would only raise an alert; a blank link wins over an empty selection.
   */
  lemma DisabledMatchesGuard(sending: bool, selected: seq<WaitlistUser>, testFlightLink: string)
    ensures SendDisabled(sending, selected, testFlightLink) <==> sending || SendGuard(testFlightLink, selected).Some?
    ensures AllSpace(testFlightLink) ==> SendGuard(testFlightLink, selected) == Some(LinkAlert)
    ensures SendGuard(testFlightLink, selected) == Some(SelectionAlert) <==> Trim(testFlightLink) != "" && selected == []
  {
    TrimEmptyIffAllSpace(testFlightLink);
  }

  /** `selectedUsers.map((user) => user.email)`. */
  function Emails(selected: seq<WaitlistUser>): seq<string> {
    if selected == [] then [] else Emails(selected[..|selected| - 1]) + [selected[|selected| - 1].email]
  }

  /** The addresses are the selected users' addresses, one per user, in selection order. */
  lemma {:induction false} EmailsInOrder(selected: seq<WaitlistUser>)
    ensures |Emails(selected)| == |selected|
    ensures forall i :: 0 <= i < |selected| ==> Emails(selected)[i] == selected[i].email
  {
    if selected != [] {
      EmailsInOrder(selected[..|selected| - 1]);
    }
  }

  /** Toggling an unselected user on adds that user's address at the end of the next request. */
  lemma ToggleAppendsAddress(selected: seq<WaitlistUser>, user: WaitlistUser)
    requires !HasId(selected, user.id)
    ensures Emails(Toggle(selected, user)) == Emails(selected) + [user.email]
  {
    assert (selected + [user])[..|selected|] == selected;
  }

  /** The JSON body `handleSend` posts; `customMessage: undefined` is dropped by `JSON.stringify`. */
  datatype Payload = Payload(emails: seq<string>, subject: string, customMessage: Option<string>, testFlightLink: string)

  /** The body for the current form: the message trimmed, or left out when blank; the link trimmed; the subject as typed. */
  function BuildPayload(selected: seq<WaitlistUser>, subject: string, customMessage: string, testFlightLink: string): Payload {
    Payload(Emails(selected), subject,
            if Trim(customMessage) != "" then Some(Trim(customMessage)) else None,
            Trim(testFlightLink))
  }

  /** The body as the endpoint parses it. */
  function AsRequest(p: Payload): SendRequest {
    SendRequest(AnArray(p.emails), Some(p.subject), p.customMessage, Some(p.testFlightLink))
  }

  /**
   * A body the composer sends always passes the endpoint's validation, and
   * the endpoint reports on exactly the selected addresses, with the
   * trimmed link; a non-blank typed subject is kept.
   */
  lemma ComposerRequestIsAccepted(selected: seq<WaitlistUser>, subject: string, customMessage: string,
                                  testFlightLink: string, transport: Transport)
    requires SendGuard(testFlightLink, selected).None?
    ensures var req := AsRequest(BuildPayload(selected, subject, customMessage, testFlightLink));
      && HasEmails(req) && HasLink(req)
      && Respond(req, transport).Report?
      && req.emails.items == Emails(selected)
      && Respond(req, transport).details.testFlightLink == Trim(testFlightLink)
      && (subject != "" ==> Respond(req, transport).details.subject == subject)
  {
    EmailsInOrder(selected);
  }

  /**
   * Every mail the endpoint renders for a composer request is an invitation
   * whose button holds the trimmed link, and the custom message typed in the
   * form never reaches it: the mails are those of the same request without
   * a message.
   */
  lemma ComposerMailsIgnoreMessage(selected: seq<WaitlistUser>, subject: string, customMessage: string,
                                   testFlightLink: string, email: string)
    requires Trim(testFlightLink) != ""
    ensures var req := AsRequest(BuildPayload(selected, subject, customMessage, testFlightLink));
      && IsTestFlight(req.testFlightLink)
      && MailTo(req, email).html[BodySlot] == Verbatim(Trim(testFlightLink))
      && OnlyHolesVerbatim(MailTo(req, email).html, {NameSlot, BodySlot})
      && MailTo(req, email) == MailTo(req.(customMessage := None), email)
  {
    var req := AsRequest(BuildPayload(selected, subject, customMessage, testFlightLink));
    TrimIdempotent(testFlightLink);
    RenderedLayout(LocalPart(email), req.testFlightLink, req.customMessage);
    InvitationIgnoresCustomMessage(LocalPart(email), req.testFlightLink, req.customMessage, None);
  }

  /** What `handleSend` hands to `onSendComplete`: the endpoint's answer, or the failure object it makes up. */
  datatype Completion = Answered(response: Response) | RequestFailed(error: string) {
    /** `result.success` is truthy. */
    predicate Succeeded() { Answered? && response.Report? && response.success }
  }

  /** The effect of one click on send: an alert, or a completed request. */
  datatype SendAttempt = Alerted(message: string) | Completed(completion: Completion)

  /** The completion for a request that settled with `reply`; `None` stands for a thrown fetch or JSON error. */
  function CompletionOf(reply: Option<Response>): Completion {
    match reply
    case Some(r) => Answered(r)
    case None => RequestFailed(SendFailedError)
  }

  /** The outcome of a click, given the form and how a posted body is answered. */
  function AttemptOf(selected: seq<WaitlistUser>, subject: string, customMessage: string, testFlightLink: string,
                     post: Payload -> Option<Response>): SendAttempt {
    match SendGuard(testFlightLink, selected)
    case Some(alert) => Alerted(alert)
    case None => Completed(CompletionOf(post(BuildPayload(selected, subject, customMessage, testFlightLink))))
  }

  /**
   * When the endpoint runs the model of `POST` for the composer's body, a
   * click that passes the guard always completes with a successful batch
   * report, however many sends failed.
   */
  lemma ClickAgainstEndpointSucceeds(selected: seq<WaitlistUser>, subject: string, customMessage: string,
                                     testFlightLink: string, transport: Transport)
    requires SendGuard(testFlightLink, selected).None?
    ensures var attempt := AttemptOf(selected, subject, customMessage, testFlightLink,
                                     p => Some(Respond(AsRequest(p), transport)));
      attempt.Completed? && attempt.completion.Succeeded()
  {
    ComposerRequestIsAccepted(selected, subject, customMessage, testFlightLink, transport);
  }

  /** The fragments of the preview template; its layout is always the invitation's. */
  datatype PreviewFragment =
    | PreviewHead        // wrapper, rocket heading, tagline, "Hello "
    | PreviewGreetingEnd // "!" and the "Great news!" paragraph
    | QuoteOpen          // opening of the quoted custom message
    | QuoteClose
    | StepsToButton      // the list of steps and the button's opening tag
    | ButtonToEnd        // "Join TestFlight", the expectations and the sign-off

  type PreviewHtml = seq<Piece<PreviewFragment>>

  /** `selectedUsers[0]?.email.split("@")[0] || "there"`. */
  function PreviewName(selected: seq<WaitlistUser>): string {
    if selected == [] then "there" else OrElse(LocalPart(selected[0].email), "there")
  }

  /** `generatePreviewHTML()`. */
  function GeneratePreviewHtml(testFlightLink: string, customMessage: string, selected: seq<WaitlistUser>): PreviewHtml {
    if Trim(testFlightLink) == "" then []
    else
      [Markup(PreviewHead), Verbatim(PreviewName(selected)), Markup(PreviewGreetingEnd)]
      + (if Trim(customMessage) != "" then [Markup(QuoteOpen), Verbatim(Trim(customMessage)), Markup(QuoteClose)] else [])
      + [Markup(StepsToButton), Verbatim(Trim(testFlightLink)), Markup(ButtonToEnd)]
  }

  /**
   * The preview is empty exactly when the link is blank. Otherwise it greets
   * the first selected user by the text before the `@` (or "there"), holds
   * the trimmed link in its button, and holds the quoted trimmed message
   * exactly when that is not blank; no other caller text appears.
   */
  lemma PreviewShape(testFlightLink: string, customMessage: string, selected: seq<WaitlistUser>)
    ensures var html := GeneratePreviewHtml(testFlightLink, customMessage, selected);
      && (html == [] <==> Trim(testFlightLink) == "")
      && (html != [] ==>
            && html[1] == Verbatim(PreviewName(selected))
            && html[|html| - 2] == Verbatim(Trim(testFlightLink))
            && (|html| == 9 <==> Trim(customMessage) != "")
            && (|html| == 9 ==> html[4] == Verbatim(Trim(customMessage)))
            && OnlyHolesVerbatim(html, {1, 4, |html| - 2})
            && (|html| == 6 ==> OnlyHolesVerbatim(html, {1, |html| - 2})))
  {
  }

  /** The greeting names the first selected user by the text before the first `@`, unless that is empty. */
  lemma PreviewNameIsLocalPart(selected: seq<WaitlistUser>)
    ensures selected != [] && LocalPart(selected[0].email) != "" ==>
      && PreviewName(selected) == LocalPart(selected[0].email)
      && '@' !in PreviewName(selected)
      && |PreviewName(selected)| <= |selected[0].email| && PreviewName(selected) == selected[0].email[..|PreviewName(selected)|]
    ensures selected == [] || LocalPart(selected[0].email) == "" ==> PreviewName(selected) == "there"
  {
    if selected != [] {
      LocalPartSpec(selected[0].email);
    }
  }

  /**
   * Surrounding whitespace never shows in the preview: a message or link
   * with the same trimmed text gives the same preview, so a whitespace-only
   * message previews like an empty one.
   */
  lemma PreviewIgnoresPadding(link1: string, link2: string, message1: string, message2: string, selected: seq<WaitlistUser>)
    requires Trim(link1) == Trim(link2) && Trim(message1) == Trim(message2)
    ensures GeneratePreviewHtml(link1, message1, selected) == GeneratePreviewHtml(link2, message2, selected)
    ensures AllSpace(message1) ==> GeneratePreviewHtml(link1, message1, selected) == GeneratePreviewHtml(link1, "", selected)
  {
    TrimEmptyIffAllSpace(message1);
    assert Trim("") == "";
  }

  /**
   * The preview's greeting is the one the first recipient receives, and
   * both carry the trimmed link; the preview shows a non-blank custom
   * message that the sent mail leaves out.
   */
  lemma PreviewMatchesFirstMail(selected: seq<WaitlistUser>, subject: string, customMessage: string, testFlightLink: string)
    requires SendGuard(testFlightLink, selected).None?
    ensures var req, preview := AsRequest(BuildPayload(selected, subject, customMessage, testFlightLink)),
                                GeneratePreviewHtml(testFlightLink, customMessage, selected);
      var mail := MailTo(req, selected[0].email);
      && preview[1].Verbatim? && preview[1].text == mail.html[NameSlot].text
      && preview[|preview| - 2].Verbatim? && preview[|preview| - 2].text == mail.html[BodySlot].text
      && (Trim(customMessage) != "" ==> Verbatim(Trim(customMessage)) in preview)
      && OnlyHolesVerbatim(mail.html, {NameSlot, BodySlot})
  {
    ComposerMailsIgnoreMessage(selected, subject, customMessage, testFlightLink, selected[0].email);
    PreviewShape(testFlightLink, customMessage, selected);
    RenderedLayout(LocalPart(selected[0].email), Some(Trim(testFlightLink)), BuildPayload(selected, subject, customMessage, testFlightLink).customMessage);
  }

  /** The form's state fields. */
  class Composer {
    var subject: string
    var customMessage: string
    var testFlightLink: string
    var sending: bool

    /** The initial form: the default subject, no message, no link, not sending. */
    constructor ()
      ensures subject == InitialSubject && customMessage == "" && testFlightLink == "" && !sending
    {
      subject := InitialSubject;
      customMessage := "";
      testFlightLink := "";
      sending := false;
    }

    /**
     * `handleSend()` for the current selection; `post` is how a posted body
     * is answered (`None` when the request or the JSON parsing throws). An
     * alerted click changes nothing. A completed one leaves `sending` false
     * and keeps the subject; it clears the message and the link exactly when
     * the answer reports success. `sent` is the bodies posted.
     */
    method HandleSend(selected: seq<WaitlistUser>, post: Payload -> Option<Response>)
      returns (attempt: SendAttempt, ghost sent: seq<Payload>)
      modifies this
      ensures attempt == AttemptOf(selected, old(subject), old(customMessage), old(testFlightLink), post)
      ensures attempt.Alerted? ==> sent == [] && unchanged(this)
      ensures attempt.Completed? ==>
        && sent == [BuildPayload(selected, old(subject), old(customMessage), old(testFlightLink))]
        && !sending && subject == old(subject)
        && (if attempt.completion.Succeeded() then customMessage == "" && testFlightLink == ""
            else customMessage == old(customMessage) && testFlightLink == old(testFlightLink))
    {
      sent := [];
      if Trim(testFlightLink) == "" {
        return Alerted(LinkAlert), sent;
      }
      if |selected| == 0 {
        return Alerted(SelectionAlert), sent;
      }
      sending := true;
      var emails := Emails(selected);
      var payload := Payload(emails, subject,
                             if Trim(customMessage) != "" then Some(Trim(customMessage)) else None,
                             Trim(testFlightLink));
      sent := [payload];
      var reply := post(payload);
      var completion: Completion;
      if reply.Some? {
        completion := Answered(reply.value);
        if reply.value.Report? && reply.value.success {
          customMessage := "";
          testFlightLink := "";
        }
      } else {
        completion := RequestFailed(SendFailedError);
      }
      sending := false;
      attempt := Completed(completion);
    }
  }
}
