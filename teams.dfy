/**
 * The Teams notification: send_to_teams builds a short text digest of a
 * meeting and posts it as {"text": ...} to the configured webhook; the
 * caller skips the post when no webhook is configured and reports success
 * only for HTTP status 200. The network call itself is a parameter, post,
 * giving the status the server answers a request with.
 *
 * The partner of the digest is ParseMessage, which reads its fields back.
 */
module Teams {
  import opened Wrappers
  import opened Text
  import opened Records

  /** The reference the application passes instead of a live URL. */
  const SummaryReference: string := "(MoM attached via Streamlit)"

  const MessageOpen: string := "*Meeting Summary:* "
  const DateLabel: string := "\n\nDate: "
  const ParticipantsLabel: string := "\nParticipants: "
  const LinkLabel: string := "\n\n\U{1F449} [View MoM]("
  const LinkEnd: string := ")"

  /** The "text" of the message send_to_teams posts. */
  function MessageText(m: Meeting, summaryUrl: string): string {
    MessageOpen + (m.title + (DateLabel + (m.date + (ParticipantsLabel + (Join(", ", m.participants) +
      (LinkLabel + (summaryUrl + LinkEnd)))))))
  }

  /** The JSON body {"text": ...}. */
  datatype Message = Message(text: string)

  datatype Request = Request(url: string, body: Message, contentType: string)

  /** requests.post(webhook_url, json=message, headers={"Content-Type": "application/json"}) */
  function TeamsRequest(m: Meeting, summaryUrl: string, webhookUrl: string): (r: Request)
    ensures r.url == webhookUrl && r.contentType == "application/json"
  {
    Request(webhookUrl, Message(MessageText(m, summaryUrl)), "application/json")
  }

  datatype Delivery = Skipped | Sent | Failed(status: int)

  /**
   * What the export step reports about the notification: skipped without a
   * webhook, sent on status 200, failed with the status otherwise.
   */
  function Notify(webhookUrl: string, m: Meeting, post: Request -> int): (r: Delivery)
    ensures r == Skipped <==> webhookUrl == ""
    ensures r == Sent <==> webhookUrl != "" && post(TeamsRequest(m, SummaryReference, webhookUrl)) == 200
    ensures r.Failed? ==> r.status != 200 && r.status == post(TeamsRequest(m, SummaryReference, webhookUrl))
  {
    if webhookUrl == "" then Skipped
    else
      var status := post(TeamsRequest(m, SummaryReference, webhookUrl));
      if status == 200 then Sent else Failed(status)
  }

  /** With no webhook nothing is posted: the outcome does not depend on the network at all. */
  lemma NoWebhookNoCall(m: Meeting, post1: Request -> int, post2: Request -> int)
    ensures Notify("", m, post1) == Notify("", m, post2) == Skipped
  {
  }

  datatype ParsedMessage = ParsedMessage(title: string, date: string, participants: string, summaryUrl: string)

  function ParseMessage(text: string): (r: Option<ParsedMessage>) {
    var r0 :- Chop(text, MessageOpen);
    var (title, r1) := Field(r0, '\n');
    var r2 :- Chop(r1, DateLabel);
    var (date, r3) := Field(r2, '\n');
    var r4 :- Chop(r3, ParticipantsLabel);
    var (people, r5) := Field(r4, '\n');
    var r6 :- Chop(r5, LinkLabel);
    if |r6| >= |LinkEnd| && r6[|r6| - |LinkEnd|..] == LinkEnd then
      Some(ParsedMessage(title, date, people, r6[..|r6| - |LinkEnd|]))
    else None
  }

  lemma LabelShape()
    ensures |DateLabel| > 0 && DateLabel[0] == '\n'
    ensures |ParticipantsLabel| > 0 && ParticipantsLabel[0] == '\n'
    ensures |LinkLabel| > 0 && LinkLabel[0] == '\n'
  {
  }

  /**
   * The digest carries the title and date verbatim, the participants joined
   * with ", " and the summary reference, each readable back when the
   * single-line fields have no line break.
   */
  lemma ReadMessage(m: Meeting, summaryUrl: string)
    requires '\n' !in m.title && '\n' !in m.date
    requires forall k :: 0 <= k < |m.participants| ==> '\n' !in m.participants[k]
    ensures ParseMessage(MessageText(m, summaryUrl)) ==
            Some(ParsedMessage(m.title, m.date, Join(", ", m.participants), summaryUrl))
  {
    var people := Join(", ", m.participants);
    JoinAvoids(", ", m.participants, '\n');
    var r6 := summaryUrl + LinkEnd;
    var r5 := LinkLabel + r6;
    var r4 := people + r5;
    var r3 := ParticipantsLabel + r4;
    var r2 := m.date + r3;
    var r1 := DateLabel + r2;
    var r0 := m.title + r1;
    assert MessageText(m, summaryUrl) == MessageOpen + r0;
    LabelShape();
    assert r1[0] == '\n' && r3[0] == '\n' && r5[0] == '\n';
    ChopLiteral(MessageOpen, r0);
    FieldOf(m.title, '\n', r1);
    ChopLiteral(DateLabel, r2);
    FieldOf(m.date, '\n', r3);
    ChopLiteral(ParticipantsLabel, r4);
    FieldOf(people, '\n', r5);
    ChopLiteral(LinkLabel, r6);
    assert r6[|r6| - |LinkEnd|..] == LinkEnd;
    assert r6[..|r6| - |LinkEnd|] == summaryUrl;
  }

  /**
   * The request goes to the webhook as JSON, and the {"text": ...} body it
   * carries is the digest, whose fields read back as ReadMessage states.
   */
  lemma ReadRequest(m: Meeting, summaryUrl: string, webhookUrl: string)
    requires '\n' !in m.title && '\n' !in m.date
    requires forall k :: 0 <= k < |m.participants| ==> '\n' !in m.participants[k]
    ensures var r := TeamsRequest(m, summaryUrl, webhookUrl);
      && r.url == webhookUrl && r.contentType == "application/json"
      && ParseMessage(r.body.text) == Some(ParsedMessage(m.title, m.date, Join(", ", m.participants), summaryUrl))
  {
    ReadMessage(m, summaryUrl);
  }
}
