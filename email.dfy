/**
 * lib/email.ts: the result contract of the SMTP transport wrapper `sendEmail`
 * and the server-side invitation template `generateTestFlightEmailHTML`.
 */
module Email {
  import opened Wrappers
  import opened Text
  import opened Template

  /** A value thrown by the mail library: an `Error` carries a message, anything else does not. */
  datatype Thrown = ErrorObject(message: string) | NonError

  /** How the library's `sendMail` settles: with delivery info, or by throwing. */
  datatype SmtpOutcome = Delivered(messageId: string) | Threw(thrown: Thrown)

  /** The object `sendEmail` resolves to: `{success: true, messageId}` or `{success: false, error}`. */
  datatype SendResult = Sent(messageId: string) | NotSent(error: string) {
    predicate Success() { Sent? }
  }

  /**
   * `sendEmail`: every outcome of the library, thrown values included, becomes
   * a result value; nothing propagates to the caller.
   */
  function SendEmail(outcome: SmtpOutcome): (r: SendResult)
    ensures r.Success() <==> outcome.Delivered?
    ensures r.Sent? ==> r.messageId == outcome.messageId
    ensures r.NotSent? && outcome.thrown.ErrorObject? ==> r.error == outcome.thrown.message
    ensures r.NotSent? && outcome.thrown.NonError? ==> r.error == "Unknown error"
  {
    match outcome
    case Delivered(id) => Sent(id)
    case Threw(ErrorObject(msg)) => NotSent(msg)
    case Threw(NonError) => NotSent("Unknown error")
  }

  /** `testFlightLink && testFlightLink.trim()`, read as a condition. */
  predicate IsTestFlight(testFlightLink: Option<string>) {
    testFlightLink.Some? && Trim(testFlightLink.value) != ""
  }

  /** `${customMessage}`: an absent message prints as the text "undefined" (a `null` one is not modelled). */
  function MessageText(customMessage: Option<string>): string {
    customMessage.GetOr("undefined")
  }

  /** The body of the email: a join button around the link, or a box holding the custom message. */
  datatype Content = JoinButton(href: string) | MessageBox(message: string) {
    /** What the body embeds from the caller. */
    function Embedded(): string {
      match this
      case JoinButton(href) => href
      case MessageBox(message) => message
    }
  }

  /**
   * What `generateTestFlightEmailHTML` fills into its template: the name in
   * the greeting and the body. Title, heading, tagline and footer are
   * chosen by the kind of body alone.
   */
  datatype Letter = Letter(greetingName: string, content: Content) {
    predicate IsInvitation() { content.JoinButton? }
  }

  /**
   * The letter for one recipient. The join button is chosen exactly when the
   * link is present and non-blank once trimmed; it holds the link as given,
   * untrimmed, and the custom message is then dropped. Otherwise the box
   * holds the custom message as given ("undefined" when absent). The
   * greeting falls back to "there" for an empty name.
   */
  function Compose(recipientName: string, testFlightLink: Option<string>, customMessage: Option<string>): (l: Letter)
    ensures l.IsInvitation() <==> testFlightLink.Some? && Trim(testFlightLink.value) != ""
    ensures l.IsInvitation() ==> l.content.href == testFlightLink.value
    ensures !l.IsInvitation() ==> l.content.message == MessageText(customMessage)
    ensures recipientName != "" ==> l.greetingName == recipientName
    ensures recipientName == "" ==> l.greetingName == "there"
  {
    Letter(OrElse(recipientName, "there"),
           if IsTestFlight(testFlightLink) then JoinButton(testFlightLink.value)
           else MessageBox(MessageText(customMessage)))
  }

  /**
   * The fixed fragments of the template literal. Those whose text depends on
   * the layout carry the `invitation` flag; the join-button layout's body
   * opens with the introduction and the list of steps and closes with the
   * list of expectations.
   */
  datatype Fragment =
    | DocumentHead                  // doctype and head, up to the title
    | Title(invitation: bool)       // "TestFlight Invitation" or "Message"
    | StyleToHeading                // end of title, style sheet, opening of the header
    | Heading(invitation: bool)     // rocket or envelope heading
    | HeadingToTagline
    | Tagline(invitation: bool)     // "You're invited to test our app!" or "You have a new message"
    | GreetingOpen                  // end of the header, "Hello "
    | GreetingClose                 // "!"
    | BodyOpen(invitation: bool)    // steps and the button's opening tag, or the message box
    | BodyClose(invitation: bool)   // "Join TestFlight" and the expectations, or the end of the box
    | SignOffToFooter               // closing lines, opening of the footer
    | Footer(invitation: bool)      // the beta-testing notice or the waitlist notice
    | DocumentEnd

  /** A rendered email. */
  type Html = seq<Piece<Fragment>>

  /** Where the greeting name and the body's text stand in every rendered letter. */
  const NameSlot: nat := 7
  const BodySlot: nat := 10

  /** The template literal for `l`, piece by piece. */
  function LetterHtml(l: Letter): Html {
    var inv := l.IsInvitation();
    [Markup(DocumentHead), Markup(Title(inv)), Markup(StyleToHeading), Markup(Heading(inv)),
     Markup(HeadingToTagline), Markup(Tagline(inv)), Markup(GreetingOpen), Verbatim(l.greetingName),
     Markup(GreetingClose), Markup(BodyOpen(inv)), Verbatim(l.content.Embedded()), Markup(BodyClose(inv)),
     Markup(SignOffToFooter), Markup(Footer(inv)), Markup(DocumentEnd)]
  }

  /** `generateTestFlightEmailHTML(recipientName, testFlightLink, customMessage)`. */
  function GenerateTestFlightEmailHtml(recipientName: string, testFlightLink: Option<string>, customMessage: Option<string>): Html {
    LetterHtml(Compose(recipientName, testFlightLink, customMessage))
  }

  /**
   * The layout follows `IsTestFlight` throughout: title, heading, tagline,
   * body and footer all come from the same branch. The only caller texts in
   * the email are the greeting name and, in the body, the untrimmed link
   * (invitation) or the untrimmed custom message, "undefined" when absent
   * (message layout).
   */
  lemma RenderedLayout(recipientName: string, testFlightLink: Option<string>, customMessage: Option<string>)
    ensures var html, inv := GenerateTestFlightEmailHtml(recipientName, testFlightLink, customMessage), IsTestFlight(testFlightLink);
      && |html| == 15
      && html[1] == Markup(Title(inv)) && html[3] == Markup(Heading(inv)) && html[5] == Markup(Tagline(inv))
      && html[9] == Markup(BodyOpen(inv)) && html[11] == Markup(BodyClose(inv)) && html[13] == Markup(Footer(inv))
      && html[NameSlot] == Verbatim(OrElse(recipientName, "there"))
      && (inv ==> html[BodySlot] == Verbatim(testFlightLink.value))
      && (!inv ==> html[BodySlot] == Verbatim(MessageText(customMessage)))
      && OnlyHolesVerbatim(html, {NameSlot, BodySlot})
  {
  }

  /** With a usable link the custom message has no influence on the rendered email. */
  lemma InvitationIgnoresCustomMessage(recipientName: string, testFlightLink: Option<string>, m1: Option<string>, m2: Option<string>)
    requires IsTestFlight(testFlightLink)
    ensures GenerateTestFlightEmailHtml(recipientName, testFlightLink, m1)
         == GenerateTestFlightEmailHtml(recipientName, testFlightLink, m2)
  {
  }

  /** A link made only of whitespace is truthy for a caller but selects the message layout. */
  lemma BlankLinkSelectsMessageLayout(link: string)
    requires link != "" && AllSpace(link)
    ensures !IsTestFlight(Some(link))
  {
    TrimEmptyIffAllSpace(link);
  }
}
