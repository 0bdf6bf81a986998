/**
 * The records the session keeps: a meeting, an action item and its status,
 * and the parsing of the comma-separated participants field.
 * Dates are kept as the text str(date) produces; the id is the text of a
 * freshly generated UUID, supplied by the caller.
 */
module Records {
  import opened Wrappers
  import opened Text

  /** The three choices the status select box offers. */
  datatype Status = Pending | InProgress | Done

  function StatusText(s: Status): (r: string)
    ensures r in ["Pending", "In Progress", "Done"]
  {
    match s
    case Pending => "Pending"
    case InProgress => "In Progress"
    case Done => "Done"
  }

  /** Reads a status back from its displayed text. */
  function StatusFromText(t: string): (r: Option<Status>)
    ensures r.Some? <==> t in ["Pending", "In Progress", "Done"]
  {
    if t == "Pending" then Some(Pending)
    else if t == "In Progress" then Some(InProgress)
    else if t == "Done" then Some(Done)
    else None
  }

  /** Distinct statuses are displayed differently, and each display reads back. */
  lemma StatusTextRoundTrip(s: Status)
    ensures StatusFromText(StatusText(s)) == Some(s)
  {
  }

  datatype Meeting = Meeting(id: string, title: string, date: string, participants: seq<string>, notes: string)

  datatype ActionItem = ActionItem(task: string, assignee: string, dueDate: string, status: Status)

  /** Strips every piece, keeping order, empties and duplicates. */
  function StripAll(pieces: seq<string>): (r: seq<string>)
    ensures |r| == |pieces|
    ensures forall k :: 0 <= k < |r| ==> r[k] == Strip(pieces[k])
    decreases |pieces|
  {
    if |pieces| == 0 then [] else [Strip(pieces[0])] + StripAll(pieces[1..])
  }

  /** The participants of a meeting form: split on "," and strip every piece. */
  function ParseParticipants(input: string): (r: seq<string>)
    ensures |r| == |Split(input, ',')| && |r| >= 1
  {
    StripAll(Split(input, ','))
  }

  /** One participant per comma-separated segment: (number of commas) + 1 entries. */
  lemma ParticipantsCount(input: string)
    ensures |ParseParticipants(input)| == multiset(input)[','] + 1
  {
    SplitCount(input, ',');
  }

  /**
   * What every parsed participants list satisfies: at least one entry, each
   * stripped and free of commas. ParticipantsAreParses shows these are
   * exactly the lists a participants field can produce.
   */
  predicate WellFormedParticipants(ps: seq<string>) {
    |ps| >= 1 && forall k :: 0 <= k < |ps| ==> IsStripped(ps[k]) && ',' !in ps[k]
  }

  lemma ParsedParticipantsWellFormed(input: string)
    ensures WellFormedParticipants(ParseParticipants(input))
  {
    var pieces := Split(input, ',');
    var ps := ParseParticipants(input);
    assert ps == StripAll(pieces);
    SplitPiecesHaveNoSeparator(input, ',');
    forall k | 0 <= k < |ps| ensures IsStripped(ps[k]) && ',' !in ps[k] {
      assert ps[k] == Strip(pieces[k]) && ',' !in pieces[k];
      StripKeepsOut(pieces[k], ',');
    }
  }

  /**
   * Each participant is the corresponding comma-free segment of the input,
   * up to white space removed at its two ends, and the segments with the
   * commas between them make up the whole input.
   */
  lemma ParticipantsAreSegments(input: string)
    ensures forall k :: 0 <= k < |Split(input, ',')| ==> ParseParticipants(input)[k] == Strip(Split(input, ',')[k])
    ensures Join([','], Split(input, ',')) == input
    ensures forall k :: 0 <= k < |Split(input, ',')| ==> ',' !in Split(input, ',')[k]
    ensures forall k :: 0 <= k < |Split(input, ',')| ==> TrimmedFrom(ParseParticipants(input)[k], Split(input, ',')[k])
  {
    JoinSplit(input, ',');
    SplitPiecesHaveNoSeparator(input, ',');
    var pieces := Split(input, ',');
    var ps := ParseParticipants(input);
    forall k | 0 <= k < |pieces|
      ensures TrimmedFrom(ps[k], pieces[k])
    {
      StripRemovesOnlySpace(pieces[k]);
    }
  }

  /**
   * The displayed participants line reads back as the same list: names that
   * are stripped and comma-free, joined with ", ", parse to themselves.
   */
  lemma {:induction false} ParseDisplayedParticipants(names: seq<string>)
    requires WellFormedParticipants(names)
    ensures ParseParticipants(Join(", ", names)) == names
  {
    var pieces := Padded(names);
    JoinPadded(names);
    SplitJoin(pieces, ',');
    var ps := ParseParticipants(Join(", ", names));
    assert |ps| == |names|;
    forall k | 0 <= k < |names|
      ensures ps[k] == names[k]
    {
      StripPadded(names, k);
    }
  }

  lemma StripPadded(names: seq<string>, k: nat)
    requires k < |names|
    requires forall k :: 0 <= k < |names| ==> IsStripped(names[k]) && ',' !in names[k]
    ensures Strip(Padded(names)[k]) == names[k]
  {
    var x := names[k];
    if k == 0 {
      StripUnique([], x, []);
      assert [] + x + [] == x;
    } else {
      StripUnique(" ", x, []);
      assert " " + x + [] == " " + x;
    }
  }

  /** The pieces a split on "," sees in a ", "-join: every name after the first keeps its leading space. */
  function Padded(names: seq<string>): (r: seq<string>)
    requires |names| >= 1
    requires forall k :: 0 <= k < |names| ==> ',' !in names[k]
    ensures |r| == |names| && r[0] == names[0]
    ensures forall k :: 1 <= k < |r| ==> r[k] == " " + names[k]
    ensures forall k :: 0 <= k < |r| ==> ',' !in r[k]
  {
    [names[0]] + seq(|names| - 1, k requires 0 <= k < |names| - 1 => " " + names[k + 1])
  }

  lemma {:induction false} JoinPadded(names: seq<string>)
    requires |names| >= 1
    requires forall k :: 0 <= k < |names| ==> ',' !in names[k]
    ensures Join([','], Padded(names)) == Join(", ", names)
    decreases |names|
  {
    if |names| > 1 {
      var tail := names[1..];
      JoinPadded(tail);
      var p := Padded(names);
      var q := Padded(tail);
      var j := Join(", ", tail);
      assert p == [names[0]] + p[1..];
      JoinCons([','], names[0], p[1..]);
      assert p[1..] == [" " + q[0]] + q[1..];
      JoinPrefixFirst([','], " ", q);
      assert q == [q[0]] + q[1..];
      assert names == [names[0]] + tail;
      JoinCons(", ", names[0], tail);
      assert names[0] + ", " + j == names[0] + [','] + (" " + j);
    }
  }

  /** An empty participants field gives one empty participant, as "".split(",") does. */
  lemma EmptyParticipantsField()
    ensures ParseParticipants("") == [""]
  {
  }

  /** Empties and duplicates survive: "Bob, , Bob" has three participants. */
  lemma ParticipantsKeepEmptiesAndDuplicates()
    ensures ParseParticipants("Bob, , Bob") == ["Bob", "", "Bob"]
  {
    var names := ["Bob", "", "Bob"];
    assert Join(", ", names) == "Bob, , Bob";
    ParseDisplayedParticipants(names);
  }

  /** The well-formed lists are exactly the results of parsing some participants field. */
  lemma ParticipantsAreParses(ps: seq<string>)
    ensures WellFormedParticipants(ps) <==> exists input :: ParseParticipants(input) == ps
  {
    if WellFormedParticipants(ps) {
      ParseDisplayedParticipants(ps);
    }
    if exists input :: ParseParticipants(input) == ps {
      var input :| ParseParticipants(input) == ps;
      ParsedParticipantsWellFormed(input);
    }
  }

  /** Typing the displayed participants line back into the form gives the same participants. */
  lemma ReparseParticipants(input: string)
    ensures ParseParticipants(Join(", ", ParseParticipants(input))) == ParseParticipants(input)
  {
    ParsedParticipantsWellFormed(input);
    ParseDisplayedParticipants(ParseParticipants(input));
  }
}
