/**
 * The session state of the application: the webhook setting, the append-only
 * histories of meetings and action items, and the summary lines, which each
 * generation replaces wholesale. Each handler of the page is a method; the
 * export step renders the minutes against the most recent meeting, or
 * reports that there is none.
 */
module SessionState {
  import opened Wrappers
  import opened Text
  import opened Records
  import opened Base64
  import Minutes
  import Export
  import Teams

  /** The stand-in summary the "Generate Final Summary" button installs. */
  const MockSummary: seq<string> := [
    "Discussed project timelines.",
    "Assigned new tasks to the frontend team.",
    "Budget review pending for Q3."
  ]

  /** Outcome of "Generate MoM HTML". */
  datatype ExportOutcome =
    | NoMeetingFound
    | Exported(html: string, link: string, delivery: Teams.Delivery)

  class Session {
    var webhookUrl: string
    var meetings: seq<Meeting>
    var actionItems: seq<ActionItem>
    var summaryChunks: seq<string>

    /**
     * What every reachable session satisfies: each stored meeting's
     * participants list is one a participants field parses to (at least one
     * entry, each stripped and comma-free; see ParticipantsAreParses), and the
     * summary is either not generated yet or the stand-in.
     */
    ghost predicate Valid()
      reads this
    {
      && (forall i :: 0 <= i < |meetings| ==> WellFormedParticipants(meetings[i].participants))
      && (summaryChunks == [] || summaryChunks == MockSummary)
    }

    /** A fresh session: no webhook, no meetings, no action items, no summary. */
    constructor ()
      ensures Valid()
      ensures webhookUrl == "" && meetings == [] && actionItems == [] && summaryChunks == []
    {
      webhookUrl := "";
      meetings := [];
      actionItems := [];
      summaryChunks := [];
    }

    /** The sidebar's webhook field. */
    method Configure(url: string)
      requires Valid()
      modifies this
      ensures Valid()
      ensures webhookUrl == url
      ensures meetings == old(meetings) && actionItems == old(actionItems) && summaryChunks == old(summaryChunks)
    {
      webhookUrl := url;
    }

    /** "Start Meeting": records the form as a new meeting at the end of the history. */
    method StartMeeting(id: string, title: string, date: string, participants: string, notes: string)
      returns (m: Meeting)
      requires Valid()
      modifies this
      ensures Valid()
      ensures m == Meeting(id, title, date, ParseParticipants(participants), notes)
      ensures meetings == old(meetings) + [m]
      ensures webhookUrl == old(webhookUrl) && actionItems == old(actionItems) && summaryChunks == old(summaryChunks)
    {
      m := Meeting(id, title, date, ParseParticipants(participants), notes);
      ParsedParticipantsWellFormed(participants);
      ghost var before := meetings;
      meetings := meetings + [m];
      assert forall i :: 0 <= i < |meetings| ==> WellFormedParticipants(meetings[i].participants) by {
        forall i | 0 <= i < |meetings| ensures WellFormedParticipants(meetings[i].participants) {
          if i < |before| { assert meetings[i] == before[i]; }
        }
      }
    }

    /** "Add Action Item": records the form at the end of the action-item collection. */
    method AddActionItem(task: string, assignee: string, dueDate: string, status: Status)
      returns (item: ActionItem)
      requires Valid()
      modifies this
      ensures Valid()
      ensures item == ActionItem(task, assignee, dueDate, status)
      ensures StatusText(item.status) in ["Pending", "In Progress", "Done"]
      ensures actionItems == old(actionItems) + [item]
      ensures webhookUrl == old(webhookUrl) && meetings == old(meetings) && summaryChunks == old(summaryChunks)
    {
      item := ActionItem(task, assignee, dueDate, status);
      actionItems := actionItems + [item];
    }

    /** "Generate Final Summary": replaces the summary with the stand-in, whatever it held. */
    method GenerateSummary()
      requires Valid()
      modifies this
      ensures Valid()
      ensures summaryChunks == MockSummary
      ensures webhookUrl == old(webhookUrl) && meetings == old(meetings) && actionItems == old(actionItems)
    {
      summaryChunks := MockSummary;
    }

    /** meetings[-1], guarded by the emptiness check. */
    function LatestMeeting(): (r: Option<Meeting>)
      reads this
      ensures r.None? <==> meetings == []
      ensures r.Some? ==> r.value == meetings[|meetings| - 1] && r.value in meetings
    {
      if meetings == [] then None else Some(meetings[|meetings| - 1])
    }

    /**
     * The participants line the minutes show for the latest meeting, typed
     * back into the form, gives that meeting's participants again.
     */
    lemma DisplayedParticipantsReparse()
      requires Valid()
      ensures LatestMeeting().Some? ==>
        var ps := LatestMeeting().value.participants;
        ParseParticipants(Join(", ", ps)) == ps
    {
      if meetings != [] {
        ParseDisplayedParticipants(meetings[|meetings| - 1].participants);
      }
    }

    /**
     * "Generate MoM HTML": with no meeting, a warning and nothing else;
     * otherwise the minutes of the latest meeting with the session's global
     * summary and action items, the download link carrying their bytes, and
     * the outcome of the notification. encode stands for html.encode() and
     * post for the webhook's answer.
     */
    method ExportMinutes(encode: string -> seq<byte>, post: Teams.Request -> int) returns (r: ExportOutcome)
      ensures r.NoMeetingFound? <==> meetings == []
      ensures r.Exported? ==>
        && r.html == Minutes.Render(meetings[|meetings| - 1], summaryChunks, actionItems)
        && r.link == Export.DownloadLink(encode(r.html))
        && r.delivery == Teams.Notify(webhookUrl, meetings[|meetings| - 1], post)
    {
      var latest := LatestMeeting();
      if latest.None? {
        return NoMeetingFound;
      }
      var m := latest.value;
      var html := Minutes.Render(m, summaryChunks, actionItems);
      var link := Export.DownloadLink(encode(html));
      var delivery := Teams.Notify(webhookUrl, m, post);
      r := Exported(html, link, delivery);
    }
  }

  /** Generating the summary twice leaves the same state as generating it once. */
  method GenerateSummaryTwice(s: Session)
    requires s.Valid()
    modifies s
    ensures s.Valid() && s.summaryChunks == MockSummary
    ensures s.webhookUrl == old(s.webhookUrl) && s.meetings == old(s.meetings) && s.actionItems == old(s.actionItems)
  {
    s.GenerateSummary();
    s.GenerateSummary();
  }

  /** A meeting just started is the one the export step uses. */
  method StartThenLatest(s: Session, id: string, title: string, date: string, participants: string, notes: string)
    returns (m: Meeting)
    requires s.Valid()
    modifies s
    ensures s.Valid()
    ensures m == Meeting(id, title, date, ParseParticipants(participants), notes) && s.LatestMeeting() == Some(m)
    ensures s.meetings == old(s.meetings) + [m]
    ensures s.webhookUrl == old(s.webhookUrl) && s.actionItems == old(s.actionItems) && s.summaryChunks == old(s.summaryChunks)
  {
    m := s.StartMeeting(id, title, date, participants, notes);
  }
}
