/** The ticket record: a mutable object whose status, priority and comments
    change in place, and the text rendering of it. */
module Models {
  import opened Sequences
  import opened Text

  const DefaultStatus: string := "Open"
  const DefaultPriority: string := "Medium"
  const NoComments: string := "No comments"
  const Separator: string := "\n----------------------------------"

  /** The values of all eight fields of a ticket at one moment. */
  datatype TicketRecord = TicketRecord(
    id: int,
    customerName: string,
    contactInfo: string,
    category: string,
    description: string,
    status: string,
    priority: string,
    comments: string)

  /** The comments text after one more comment: a newline separates it
      from earlier comments, and an empty text takes the comment as is. */
  function AppendComment(comments: string, comment: string): (r: string)
    ensures |r| == |comments| + |comment| + (if comments == "" then 0 else 1)
    ensures comments <= r
    ensures comments != "" ==> r[|comments|] == '\n'
    ensures r[|r| - |comment|..] == comment
  {
    (if comments != "" then comments + "\n" else comments) + comment
  }

  /** Reference view of the comments text: the entries joined by newlines. */
  function JoinLines(entries: seq<string>): string
  {
    if entries == [] then ""
    else if |entries| == 1 then entries[0]
    else JoinLines(entries[..|entries| - 1]) + "\n" + entries[|entries| - 1]
  }

  /** Appending a comment to a joined log is joining the log extended by
      that comment, as long as an empty text means an empty log. */
  lemma AppendCommentJoins(entries: seq<string>, comment: string)
    requires JoinLines(entries) == "" ==> entries == []
    ensures AppendComment(JoinLines(entries), comment) == JoinLines(entries + [comment])
  {
  }

  /** The text shown for the comments: a placeholder when there are none. */
  function CommentsText(comments: string): (t: string)
    ensures comments != "" ==> t == comments
    ensures t == NoComments <==> comments == "" || comments == NoComments
  {
    if comments == "" then NoComments else comments
  }

  /** Object.toString of a ticket with these field values: the id on the
      first line after "ID: ", and the comments section (or the placeholder)
      just before the closing separator. */
  function Render(r: TicketRecord): (s: string)
    ensures |s| > 4 + |IntToDecimal(r.id)|
    ensures s[..4] == "ID: "
    ensures s[4..4 + |IntToDecimal(r.id)|] == IntToDecimal(r.id)
    ensures s[4 + |IntToDecimal(r.id)|] == '\n'
    ensures var tail := "\nComments:\n" + CommentsText(r.comments) + Separator;
      |tail| <= |s| && s[|s| - |tail|..] == tail
  {
    var d := IntToDecimal(r.id);
    var rest := "\nCustomer: " + r.customerName +
      "\nContact: " + r.contactInfo +
      "\nCategory: " + r.category +
      "\nDescription: " + r.description +
      "\nStatus: " + r.status +
      "\nPriority: " + r.priority;
    var tail := "\nComments:\n" + CommentsText(r.comments) + Separator;
    var body := rest + tail;
    assert body[|body| - |tail|..] == tail;
    ConcatSlices("ID: ", d, body);
    "ID: " + d + body
  }

  /** The id can be read back from the first line of the rendering. */
  lemma RenderIdReadable(r: TicketRecord)
    ensures var s := Render(r);
      IndexOf(s, '\n').Some? &&
      var k := IndexOf(s, '\n').value;
      4 <= k && Numeral(s[4..k]) && ParseInt(s[4..k]) == r.id
  {
    var s := Render(r);
    var d := IntToDecimal(r.id);
    var k := 4 + |d|;
    IntToDecimalRoundTrip(r.id);
    assert s[4..k] == d;
    IntToDecimalHasNoNewline(r.id);
    assert s[..k] == "ID: " + d;
    IndexOfUnique(s, '\n', k);
  }

  /** A support ticket. The five fields given at construction have no
      setter, so they are constants; status, priority and comments are changed in place, and
      every holder of a reference to the ticket sees the change. */
  class TicketModel {
    const id: int
    const customerName: string
    const contactInfo: string
    const category: string
    const description: string
    var status: string
    var priority: string
    var comments: string

    /** The current field values. */
    function Snapshot(): TicketRecord
      reads this
    {
      TicketRecord(id, customerName, contactInfo, category, description, status, priority, comments)
    }

    /** A new ticket: the given fields, status "Open", priority "Medium", no comments. */
    constructor (id: int, customerName: string, contactInfo: string, category: string, description: string)
      ensures Snapshot() == TicketRecord(id, customerName, contactInfo, category, description,
                                         DefaultStatus, DefaultPriority, "")
    {
      this.id := id;
      this.customerName := customerName;
      this.contactInfo := contactInfo;
      this.category := category;
      this.description := description;
      this.status := DefaultStatus;
      this.priority := DefaultPriority;
      this.comments := "";
    }

    /** Replaces the status; any text is accepted and nothing else changes. */
    method SetStatus(status: string)
      modifies this`status
      ensures Snapshot() == old(Snapshot()).(status := status)
    {
      this.status := status;
    }

    /** Replaces the priority; any text is accepted and nothing else changes. */
    method SetPriority(priority: string)
      modifies this`priority
      ensures Snapshot() == old(Snapshot()).(priority := priority)
    {
      this.priority := priority;
    }

    /** Adds a comment after the existing ones; nothing else changes. */
    method AddComment(comment: string)
      modifies this`comments
      ensures Snapshot() == old(Snapshot()).(comments := AppendComment(old(comments), comment))
      ensures old(comments) <= comments
    {
      if comments != "" {
        comments := comments + "\n";
      }
      comments := comments + comment;
    }

    /** The multi-line description of the ticket. */
    function ToString(): (s: string)
      reads this
    {
      Render(Snapshot())
    }
  }

  /** The id of every ticket, in order. */
  function Ids(ts: seq<TicketModel>): (ids: seq<int>)
    reads ts
    ensures |ids| == |ts|
    ensures forall i :: 0 <= i < |ts| ==> ids[i] == ts[i].id
  {
    if ts == [] then [] else [ts[0].id] + Ids(ts[1..])
  }

  /** The field values of every ticket, in order. */
  function Records(ts: seq<TicketModel>): (rs: seq<TicketRecord>)
    reads ts
    ensures |rs| == |ts|
    ensures forall i :: 0 <= i < |ts| ==> rs[i] == ts[i].Snapshot()
  {
    if ts == [] then [] else [ts[0].Snapshot()] + Records(ts[1..])
  }

  /** Ids are handed out by the counter: increasing along the list, at
      least 1, and below the next id to be handed out. */
  predicate WellNumbered(ids: seq<int>, nextId: int)
  {
    1 <= nextId && StrictlyIncreasing(ids) && forall x :: x in ids ==> 1 <= x < nextId
  }
}
