/**
 * The minutes-of-meeting document: generate_meeting_html renders a meeting,
 * the global summary lines and the global action items into one HTML page
 * by plain interpolation, without any escaping.
 *
 * The partner of the renderer is ParseMinutes, which reads every
 * interpolated field back out of a document. It succeeds on every
 * rendering whose fields contain no "<". Some such restriction is needed:
 * unescaped fields can imitate the markup, and RenderIsNotInjective
 * exhibits two different summaries with the same rendering.
 */
module Minutes {
  import opened Wrappers
  import opened Text
  import opened Records

  // The fixed text of the template, between the interpolated fields.

  const Head: string := "\n    <html>\n    <head>\n        <style>\n            body { font-family: Arial; padding: 20px; }\n            h1 { color: #444; }\n            .summary { margin-bottom: 30px; }\n            table { border-collapse: collapse; width: 100%; }\n            th, td { border: 1px solid #ccc; padding: 8px; text-align: left; }\n            th { background-color: #f4f4f4; }\n        </style>\n    </head>\n    <body>\n        <h1>Meeting Summary: "
  const AfterTitle: string := "</h1>" + "\n        <p><strong>Date:</strong> "
  const AfterDate: string := "</p>" + "\n        <p><strong>Participants:</strong> "
  const AfterParticipants: string := "</p>" + "\n        <div class=\"summary\">\n            <h2>Summary</h2>\n            <ul>\n                "
  const AfterSummary: string := "\n" + "            </ul>\n        </div>\n        <div class=\"actions\">\n            <h2>Action Items</h2>\n            <table>\n                " + HeaderRow + "\n                "
  const Footer: string := "\n" + "            </table>\n        </div>\n    </body>\n    </html>\n    "

  const ItemOpen: string := "<li>"
  const ItemClose: string := "</li>"
  const RowOpen: string := "<tr><td>"
  const CellBreak: string := "</td><td>"
  const RowClose: string := "</td></tr>"

  /** The column headings every action-item table starts with, in order; part of AfterSummary. */
  const HeaderRow: string := "<tr><th>Task</th><th>Assignee</th><th>Due Date</th><th>Status</th></tr>"

  function ListItem(point: string): string {
    ItemOpen + point + ItemClose
  }

  /** ''.join(f'<li>{point}</li>' for point in summary) */
  function ListBody(summary: seq<string>): (r: string)
    ensures |r| == TotalLength(summary) + |summary| * (|ItemOpen| + |ItemClose|)
    decreases |summary|
  {
    if |summary| == 0 then "" else ListItem(summary[0]) + ListBody(summary[1..])
  }

  function Row(item: ActionItem): string {
    RowOpen + (item.task + (CellBreak + (item.assignee + (CellBreak + (item.dueDate + (CellBreak + (StatusText(item.status) + RowClose)))))))
  }

  /** ''.join(f"<tr>...</tr>" for item in items) */
  function Rows(items: seq<ActionItem>): string
    decreases |items|
  {
    if |items| == 0 then "" else Row(items[0]) + Rows(items[1..])
  }

  /** generate_meeting_html(meeting, summary_chunks, action_items) */
  function Render(m: Meeting, summary: seq<string>, items: seq<ActionItem>): string {
    Head + (m.title + (AfterTitle + (m.date + (AfterDate + (Join(", ", m.participants) +
      (AfterParticipants + (ListBody(summary) + (AfterSummary + (Rows(items) + Footer)))))))))
  }

  /** One list item per summary line, in order: rendering a longer summary appends exactly one item. */
  lemma {:induction false} ListBodyAppend(summary: seq<string>, point: string)
    ensures ListBody(summary + [point]) == ListBody(summary) + ListItem(point)
    decreases |summary|
  {
    if |summary| == 0 {
      assert summary + [point] == [point];
    } else {
      assert (summary + [point])[1..] == summary[1..] + [point];
      ListBodyAppend(summary[1..], point);
    }
  }

  /** One row per action item, in order: a longer collection appends exactly one row. */
  lemma {:induction false} RowsAppend(items: seq<ActionItem>, item: ActionItem)
    ensures Rows(items + [item]) == Rows(items) + Row(item)
    decreases |items|
  {
    if |items| == 0 {
      assert items + [item] == [item];
    } else {
      assert (items + [item])[1..] == items[1..] + [item];
      RowsAppend(items[1..], item);
    }
  }

  // ---------------------------------------------------------------------
  // Reading a document back

  /** What a reader can recover from a document: the participants only as the displayed line. */
  datatype ParsedMinutes = ParsedMinutes(title: string, date: string, participants: string,
                                         summary: seq<string>, items: seq<ActionItem>)

  function ParseItems(s: string): (r: Option<(seq<string>, string)>)
    decreases |s|
  {
    if ItemOpen <= s then
      var (point, r1) := Field(s[|ItemOpen|..], '<');
      var r2 :- Chop(r1, ItemClose);
      var more :- ParseItems(r2);
      Some(([point] + more.0, more.1))
    else Some(([], s))
  }

  function ParseRow(s: string): (r: Option<(ActionItem, string)>)
    ensures r.Some? ==> |r.value.1| < |s|
  {
    var r0 :- Chop(s, RowOpen);
    var (task, r1) := Field(r0, '<');
    var r2 :- Chop(r1, CellBreak);
    var (assignee, r3) := Field(r2, '<');
    var r4 :- Chop(r3, CellBreak);
    var (due, r5) := Field(r4, '<');
    var r6 :- Chop(r5, CellBreak);
    var (status, r7) := Field(r6, '<');
    var r8 :- Chop(r7, RowClose);
    var st :- StatusFromText(status);
    Some((ActionItem(task, assignee, due, st), r8))
  }

  function ParseRows(s: string): (r: Option<(seq<ActionItem>, string)>)
    decreases |s|
  {
    if RowOpen <= s then
      var (item, r1) :- ParseRow(s);
      var more :- ParseRows(r1);
      Some(([item] + more.0, more.1))
    else Some(([], s))
  }

  /** The summary list, the fixed text between the two sections, the table rows and the footer. */
  function ParseBody(s: string): (r: Option<(seq<string>, seq<ActionItem>)>) {
    var (summary, r1) :- ParseItems(s);
    var r2 :- Chop(r1, AfterSummary);
    var (items, r3) :- ParseRows(r2);
    if r3 == Footer then Some((summary, items)) else None
  }

  function ParseMinutes(doc: string): (r: Option<ParsedMinutes>) {
    var r0 :- Chop(doc, Head);
    var (title, r1) := Field(r0, '<');
    var r2 :- Chop(r1, AfterTitle);
    var (date, r3) := Field(r2, '<');
    var r4 :- Chop(r3, AfterDate);
    var (people, r5) := Field(r4, '<');
    var r6 :- Chop(r5, AfterParticipants);
    var (summary, items) :- ParseBody(r6);
    Some(ParsedMinutes(title, date, people, summary, items))
  }

  /** No field of the record contains "<", so none can be mistaken for markup. */
  predicate MarkupFree(m: Meeting, summary: seq<string>, items: seq<ActionItem>) {
    && '<' !in m.title && '<' !in m.date
    && (forall k :: 0 <= k < |m.participants| ==> '<' !in m.participants[k])
    && (forall k :: 0 <= k < |summary| ==> '<' !in summary[k])
    && (forall k :: 0 <= k < |items| ==> '<' !in items[k].task && '<' !in items[k].assignee && '<' !in items[k].dueDate)
  }

  lemma {:induction false} ParseListBody(summary: seq<string>, rest: string)
    requires forall k :: 0 <= k < |summary| ==> '<' !in summary[k]
    requires !(ItemOpen <= rest)
    ensures ParseItems(ListBody(summary) + rest) == Some((summary, rest))
    decreases |summary|
  {
    if |summary| == 0 {
      assert ListBody(summary) + rest == rest;
    } else {
      var p := summary[0];
      var tail := ListBody(summary[1..]) + rest;
      var s := ListBody(summary) + rest;
      var after := p + (ItemClose + tail);
      Reassociate(ItemOpen, p, ItemClose, ListBody(summary[1..]), rest);
      assert s == ItemOpen + after;
      ChopLiteral(ItemOpen, after);
      FieldOf(p, '<', ItemClose + tail);
      ChopLiteral(ItemClose, tail);
      ParseListBody(summary[1..], rest);
      assert ParseItems(s) == Some(([p] + summary[1..], rest));
      assert summary == [p] + summary[1..];
    }
  }

  lemma Reassociate(a: string, b: string, c: string, d: string, e: string)
    ensures a + b + c + d + e == a + (b + (c + (d + e)))
  {
  }

  lemma Assoc(a: string, b: string, c: string)
    ensures (a + b) + c == a + (b + c)
  {
  }

  /** A row followed by more text, with every concatenation nested to the right. */
  lemma RowThen(item: ActionItem, rest: string)
    ensures Row(item) + rest == RowOpen + (item.task + (CellBreak + (item.assignee + (CellBreak +
      (item.dueDate + (CellBreak + (StatusText(item.status) + (RowClose + rest))))))))
  {
    var st := StatusText(item.status);
    var t7 := st + RowClose;
    var t6 := CellBreak + t7;
    var t5 := item.dueDate + t6;
    var t4 := CellBreak + t5;
    var t3 := item.assignee + t4;
    var t2 := CellBreak + t3;
    var t1 := item.task + t2;
    assert Row(item) == RowOpen + t1;
    Assoc(RowOpen, t1, rest);
    Assoc(item.task, t2, rest);
    Assoc(CellBreak, t3, rest);
    Assoc(item.assignee, t4, rest);
    Assoc(CellBreak, t5, rest);
    Assoc(item.dueDate, t6, rest);
    Assoc(CellBreak, t7, rest);
    Assoc(st, RowClose, rest);
  }

  lemma ParseOneRow(item: ActionItem, rest: string)
    requires '<' !in item.task && '<' !in item.assignee && '<' !in item.dueDate
    ensures ParseRow(Row(item) + rest) == Some((item, rest))
  {
    var st := StatusText(item.status);
    var r8 := rest;
    var r7 := RowClose + r8;
    var r6 := st + r7;
    var r5 := CellBreak + r6;
    var r4 := item.dueDate + r5;
    var r3 := CellBreak + r4;
    var r2 := item.assignee + r3;
    var r1 := CellBreak + r2;
    var r0 := item.task + r1;
    RowThen(item, rest);
    ChopLiteral(RowOpen, r0);
    FieldOf(item.task, '<', r1);
    ChopLiteral(CellBreak, r2);
    FieldOf(item.assignee, '<', r3);
    ChopLiteral(CellBreak, r4);
    FieldOf(item.dueDate, '<', r5);
    ChopLiteral(CellBreak, r6);
    FieldOf(st, '<', r7);
    ChopLiteral(RowClose, r8);
    StatusTextRoundTrip(item.status);
  }

  lemma {:induction false} ParseTableRows(items: seq<ActionItem>, rest: string)
    requires forall k :: 0 <= k < |items| ==> '<' !in items[k].task && '<' !in items[k].assignee && '<' !in items[k].dueDate
    requires !(RowOpen <= rest)
    ensures ParseRows(Rows(items) + rest) == Some((items, rest))
    decreases |items|
  {
    if |items| == 0 {
      assert Rows(items) + rest == rest;
    } else {
      var tail := Rows(items[1..]) + rest;
      assert Rows(items) + rest == Row(items[0]) + tail;
      ParseOneRow(items[0], tail);
      assert RowOpen <= Row(items[0]) + tail;
      ParseTableRows(items[1..], rest);
      assert items == [items[0]] + items[1..];
    }
  }

  /** Where each fixed piece of the template begins: markup after a field, a line break after a list. */
  lemma TemplateShape()
    ensures |AfterTitle| > 0 && AfterTitle[0] == '<'
    ensures |AfterDate| > 0 && AfterDate[0] == '<'
    ensures |AfterParticipants| > 0 && AfterParticipants[0] == '<'
    ensures |AfterSummary| > 0 && AfterSummary[0] == '\n'
    ensures |Footer| > 0 && Footer[0] == '\n'
  {
  }

  lemma FirstOfAppend(lit: string, rest: string)
    requires |lit| > 0
    ensures (lit + rest)[0] == lit[0]
  {
  }

  lemma NotOpenedBy(open: string, s: string)
    requires |open| > 0 && |s| > 0 && open[0] == '<' && s[0] != '<'
    ensures !(open <= s)
  {
  }

  /** The two lists read back exactly, in order, up to the footer. */
  lemma ParseRenderBody(summary: seq<string>, items: seq<ActionItem>)
    requires forall k :: 0 <= k < |summary| ==> '<' !in summary[k]
    requires forall k :: 0 <= k < |items| ==> '<' !in items[k].task && '<' !in items[k].assignee && '<' !in items[k].dueDate
    ensures ParseBody(ListBody(summary) + (AfterSummary + (Rows(items) + Footer))) == Some((summary, items))
  {
    var r3 := Footer;
    var r2 := Rows(items) + r3;
    var r1 := AfterSummary + r2;
    TemplateShape();
    FirstOfAppend(AfterSummary, r2);
    NotOpenedBy(ItemOpen, r1);
    NotOpenedBy(RowOpen, r3);
    ParseListBody(summary, r1);
    ChopLiteral(AfterSummary, r2);
    ParseTableRows(items, r3);
  }

  /** The header fields read back verbatim when none contains "<"; the rest is read by ParseBody. */
  lemma ParseHeader(title: string, date: string, people: string, body: string,
                    summary: seq<string>, items: seq<ActionItem>)
    requires '<' !in title && '<' !in date && '<' !in people
    requires ParseBody(body) == Some((summary, items))
    ensures ParseMinutes(Head + (title + (AfterTitle + (date + (AfterDate + (people + (AfterParticipants + body))))))) ==
            Some(ParsedMinutes(title, date, people, summary, items))
  {
    var r5 := AfterParticipants + body;
    var r4 := people + r5;
    var r3 := AfterDate + r4;
    var r2 := date + r3;
    var r1 := AfterTitle + r2;
    var r0 := title + r1;
    TemplateShape();
    FirstOfAppend(AfterTitle, r2);
    FirstOfAppend(AfterDate, r4);
    FirstOfAppend(AfterParticipants, body);
    ChopLiteral(Head, r0);
    FieldOf(title, '<', r1);
    ChopLiteral(AfterTitle, r2);
    FieldOf(date, '<', r3);
    ChopLiteral(AfterDate, r4);
    FieldOf(people, '<', r5);
    ChopLiteral(AfterParticipants, body);
  }

  /**
   * Reading a rendering gives back the title and the date verbatim, the
   * participants joined with ", ", every summary line and every action item
   * with its four cells, all in order.
   */
  lemma ParseRender(m: Meeting, summary: seq<string>, items: seq<ActionItem>)
    requires MarkupFree(m, summary, items)
    ensures ParseMinutes(Render(m, summary, items)) ==
            Some(ParsedMinutes(m.title, m.date, Join(", ", m.participants), summary, items))
  {
    var people := Join(", ", m.participants);
    JoinAvoids(", ", m.participants, '<');
    var body := ListBody(summary) + (AfterSummary + (Rows(items) + Footer));
    ParseRenderBody(summary, items);
    ParseHeader(m.title, m.date, people, body, summary, items);
  }

  /** The list body of one line holding "</li><li>" is the list body of the two lines around it. */
  lemma ListBodyMerge(x: string, y: string)
    ensures ListBody([x + ItemClose + ItemOpen + y]) == ListBody([x, y])
  {
    var joined := x + ItemClose + ItemOpen + y;
    assert ListBody([joined]) == ListItem(joined) + ListBody([]);
    assert ListBody([x, y]) == ListItem(x) + ListBody([y]) by {
      assert [x, y][1..] == [y];
    }
    assert ListBody([y]) == ListItem(y) + ListBody([]);
    assert ListItem(joined) == ListItem(x) + ListItem(y);
  }

  /**
   * Because nothing is escaped, a summary line that contains the markup
   * between two list items renders exactly like those two separate lines.
   */
  lemma RenderIsNotInjective(m: Meeting, items: seq<ActionItem>, x: string, y: string)
    ensures [x + ItemClose + ItemOpen + y] != [x, y]
    ensures Render(m, [x + ItemClose + ItemOpen + y], items) == Render(m, [x, y], items)
  {
    ListBodyMerge(x, y);
  }

  /** A sprint review with two participants, one summary line and one pending action item. */
  lemma SprintReviewExample(m: Meeting, summary: seq<string>, items: seq<ActionItem>)
    requires m.title == "Sprint Review" && m.date == "2024-06-01" && m.participants == ["Alice", "Bob"]
    requires summary == ["Discussed project timelines."]
    requires items == [ActionItem("Fix bug", "Bob", "2024-06-04", Pending)]
    ensures ParseMinutes(Render(m, summary, items)) ==
      Some(ParsedMinutes("Sprint Review", "2024-06-01", "Alice, Bob", summary, items))
  {
    ExampleFields(m, summary, items);
    ParseRender(m, summary, items);
  }

  lemma ExampleFields(m: Meeting, summary: seq<string>, items: seq<ActionItem>)
    requires m.title == "Sprint Review" && m.date == "2024-06-01" && m.participants == ["Alice", "Bob"]
    requires summary == ["Discussed project timelines."]
    requires items == [ActionItem("Fix bug", "Bob", "2024-06-04", Pending)]
    ensures Join(", ", m.participants) == "Alice, Bob"
    ensures MarkupFree(m, summary, items)
  {
    ExampleParticipants(m.participants);
  }

  lemma ExampleParticipants(people: seq<string>)
    requires people == ["Alice", "Bob"]
    ensures Join(", ", people) == "Alice, Bob"
  {
    assert Join(", ", people) == "Alice" + ", " + "Bob";
  }
}
