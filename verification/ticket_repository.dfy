/** The ticket store the application wires up: an in-memory list of tickets
    scanned by index, and the counter that hands out ticket ids. */
module Repository {
  import opened Sequences
  import opened Text
  import opened Models

  /** A search criterion is in force when it is non-null and non-empty. */
  predicate Given(criterion: Option<string>)
  {
    criterion.Some? && criterion.value != ""
  }

  /** Reference reading of one criterion: null or empty, or the field and
      the criterion lower-case to the same text. */
  predicate AcceptsLowerCase(field: string, criterion: Option<string>)
  {
    criterion == None || criterion == Some("") || LowerCase(field) == LowerCase(criterion.value)
  }

  /** Reference reading of the whole search: all four criteria accept. */
  predicate AcceptsAllLowerCase(r: TicketRecord, customerName: Option<string>, category: Option<string>,
                                status: Option<string>, priority: Option<string>)
  {
    AcceptsLowerCase(r.customerName, customerName) && AcceptsLowerCase(r.category, category) &&
    AcceptsLowerCase(r.status, status) && AcceptsLowerCase(r.priority, priority)
  }

  /** A field passes a criterion that is not in force, and otherwise
      passes when it equals the criterion ignoring case. */
  predicate FieldMatches(field: string, criterion: Option<string>)
    ensures FieldMatches(field, criterion) <==> AcceptsLowerCase(field, criterion)
  {
    if Given(criterion) then
      EqualsIgnoreCaseIsLowerEq(field, criterion.value);
      EqualsIgnoreCase(field, criterion.value)
    else
      true
  }

  /** The four criteria of the search, combined with AND. */
  predicate MatchesCriteria(r: TicketRecord, customerName: Option<string>, category: Option<string>,
                            status: Option<string>, priority: Option<string>)
    ensures MatchesCriteria(r, customerName, category, status, priority) <==>
              AcceptsAllLowerCase(r, customerName, category, status, priority)
  {
    FieldMatches(r.customerName, customerName) && FieldMatches(r.category, category) &&
    FieldMatches(r.status, status) && FieldMatches(r.priority, priority)
  }

  /** For every ticket record, whether it meets the four criteria. */
  function CriteriaMask(rs: seq<TicketRecord>, customerName: Option<string>, category: Option<string>,
                        status: Option<string>, priority: Option<string>): (m: seq<bool>)
    ensures |m| == |rs|
    ensures forall i :: 0 <= i < |rs| ==>
              (m[i] <==> AcceptsAllLowerCase(rs[i], customerName, category, status, priority))
  {
    seq(|rs|, i requires 0 <= i < |rs| => MatchesCriteria(rs[i], customerName, category, status, priority))
  }

  /** The per-ticket test of the criteria search: starting from a pass,
      each criterion in force is compared with its field ignoring case. */
  method TicketMatches(ticket: TicketModel, customerName: Option<string>, category: Option<string>,
                       status: Option<string>, priority: Option<string>)
    returns (matches: bool)
    ensures matches == MatchesCriteria(ticket.Snapshot(), customerName, category, status, priority)
  {
    ghost var r := ticket.Snapshot();
    matches := true;
    if Given(customerName) {
      matches := matches && EqualsIgnoreCase(ticket.customerName, customerName.value);
    }
    assert matches == FieldMatches(r.customerName, customerName);
    if Given(category) {
      matches := matches && EqualsIgnoreCase(ticket.category, category.value);
    }
    assert matches == (FieldMatches(r.customerName, customerName) && FieldMatches(r.category, category));
    if Given(status) {
      matches := matches && EqualsIgnoreCase(ticket.status, status.value);
    }
    if Given(priority) {
      matches := matches && EqualsIgnoreCase(ticket.priority, priority.value);
    }
  }

  /** Appending a ticket whose id exceeds every stored id, and is below the
      counter, keeps the numbering well-formed. */
  lemma WellNumberedAppend(ts: seq<TicketModel>, nextId: int, t: TicketModel)
    requires WellNumbered(Ids(ts), nextId)
    requires forall x :: x in Ids(ts) ==> x < t.id
    requires 1 <= t.id < nextId
    ensures WellNumbered(Ids(ts + [t]), nextId)
  {
    assert Ids(ts + [t]) == Ids(ts) + [t.id];
    StrictlyIncreasingSnoc(Ids(ts), t.id);
  }

  /** What selecting by the criteria yields: exactly the matching tickets,
      in store order, and every ticket when no criterion is in force. */
  lemma CriteriaSelection(ts: seq<TicketModel>, customerName: Option<string>, category: Option<string>,
                          status: Option<string>, priority: Option<string>)
    ensures var results := Select(ts, CriteriaMask(Records(ts), customerName, category, status, priority));
      (forall t :: t in results <==>
         t in ts && MatchesCriteria(t.Snapshot(), customerName, category, status, priority)) &&
      IsSubsequence(results, ts) &&
      (!Given(customerName) && !Given(category) && !Given(status) && !Given(priority) ==> results == ts)
  {
    var keep := CriteriaMask(Records(ts), customerName, category, status, priority);
    forall t ensures t in Select(ts, keep) <==>
        t in ts && MatchesCriteria(t.Snapshot(), customerName, category, status, priority)
    {
      SelectMembership(ts, keep, t);
    }
    SelectIsSubsequence(ts, keep);
    if !Given(customerName) && !Given(category) && !Given(status) && !Given(priority) {
      SelectAll(ts, keep);
    }
  }

  /** A front-to-back scan that stops at position i has found the first
      ticket carrying the id. */
  lemma FirstMatch(ts: seq<TicketModel>, id: int, i: nat)
    requires i < |ts| && ts[i].id == id
    requires forall j :: 0 <= j < i ==> ts[j].id != id
    ensures IndexOf(Ids(ts), id) == Some(i)
  {
    IndexOfUnique(Ids(ts), id, i);
  }

  /** A scan that passes every ticket without a match: the id is absent. */
  lemma NoMatch(ts: seq<TicketModel>, id: int)
    requires forall j :: 0 <= j < |ts| ==> ts[j].id != id
    ensures id !in Ids(ts) && IndexOf(Ids(ts), id) == None
  {
  }

  /** Ids of a list are those of an updated list when one slot is replaced by a ticket with the same id. */
  lemma IdsReplace(ts: seq<TicketModel>, i: nat, u: TicketModel)
    requires i < |ts| && ts[i].id == u.id
    ensures Ids(ts[i := u]) == Ids(ts)
  {
  }

  /** Ids of a list with one slot removed. */
  lemma IdsRemoveAt(ts: seq<TicketModel>, i: nat)
    requires i < |ts|
    ensures Ids(RemoveAt(ts, i)) == RemoveAt(Ids(ts), i)
  {
  }

  /** Dropping one id keeps a well-formed numbering well-formed, and the
      dropped id occurs nowhere else. */
  lemma WellNumberedIdsRemoveAt(ids: seq<int>, nextId: int, i: nat)
    requires i < |ids| && WellNumbered(ids, nextId)
    ensures WellNumbered(RemoveAt(ids, i), nextId)
    ensures ids[i] !in RemoveAt(ids, i)
  {
    var left := RemoveAt(ids, i);
    StrictlyIncreasingRemoveAt(ids, i);
    forall x | x in left ensures x in ids && x != ids[i] {
      var k :| 0 <= k < |left| && left[k] == x;
      var k' := if k < i then k else k + 1;
      assert x == ids[k'] && k' != i;
    }
  }

  /** Removing one ticket keeps the numbering well-formed, and no other
      ticket shares the removed one's id. */
  lemma WellNumberedRemoveAt(ts: seq<TicketModel>, nextId: int, i: nat)
    requires i < |ts| && WellNumbered(Ids(ts), nextId)
    ensures WellNumbered(Ids(RemoveAt(ts, i)), nextId)
    ensures ts[i].id !in Ids(RemoveAt(ts, i))
  {
    IdsRemoveAt(ts, i);
    WellNumberedIdsRemoveAt(Ids(ts), nextId, i);
  }

  class TicketRepository {
    var tickets: seq<TicketModel>
    var nextId: int

    /** An empty store whose first id is 1. */
    constructor ()
      ensures tickets == [] && nextId == 1
      ensures WellNumbered(Ids(tickets), nextId)
    {
      tickets := [];
      nextId := 1;
    }

    /** Appends the ticket as it is; no check of its id is made. */
    method CreateTicket(ticket: TicketModel)
      modifies this
      ensures tickets == old(tickets) + [ticket] && nextId == old(nextId)
      ensures (old(WellNumbered(Ids(tickets), nextId)) && (forall x :: x in old(Ids(tickets)) ==> x < ticket.id) &&
               1 <= ticket.id < nextId) ==> WellNumbered(Ids(tickets), nextId)
    {
      if WellNumbered(Ids(tickets), nextId) && (forall x :: x in Ids(tickets) ==> x < ticket.id) && 1 <= ticket.id < nextId {
        WellNumberedAppend(tickets, nextId, ticket);
      }
      tickets := tickets + [ticket];
    }

    /** A copy of the list: the stored tickets in store order. */
    method GetAllTickets() returns (all: seq<TicketModel>)
      ensures all == tickets
    {
      all := tickets;
    }

    /** The first ticket in store order with the given id, or null. */
    method GetTicketById(id: int) returns (found: TicketModel?)
      ensures match IndexOf(Ids(tickets), id)
              case None => found == null
              case Some(i) => found == tickets[i]
      ensures found != null ==> found in tickets && found.id == id
      ensures found == null <==> forall t :: t in tickets ==> t.id != id
    {
      var i := 0;
      while i < |tickets|
        invariant 0 <= i <= |tickets|
        invariant forall j :: 0 <= j < i ==> tickets[j].id != id
      {
        if tickets[i].id == id {
          FirstMatch(tickets, id, i);
          return tickets[i];
        }
        i := i + 1;
      }
      NoMatch(tickets, id);
      return null;
    }

    /** Replaces the first ticket with the same id as the given one, in its
        slot; when no ticket has that id nothing changes. */
    method UpdateTicket(updatedTicket: TicketModel)
      modifies this
      ensures nextId == old(nextId)
      ensures match old(IndexOf(Ids(tickets), updatedTicket.id))
              case None => tickets == old(tickets)
              case Some(i) => tickets == old(tickets)[i := updatedTicket]
      ensures Ids(tickets) == old(Ids(tickets))
      ensures old(WellNumbered(Ids(tickets), nextId)) ==> WellNumbered(Ids(tickets), nextId)
    {
      var i := 0;
      while i < |tickets|
        invariant 0 <= i <= |tickets|
        invariant tickets == old(tickets)
        invariant forall j :: 0 <= j < i ==> tickets[j].id != updatedTicket.id
      {
        if tickets[i].id == updatedTicket.id {
          FirstMatch(tickets, updatedTicket.id, i);
          IdsReplace(tickets, i, updatedTicket);
          tickets := tickets[i := updatedTicket];
          return;
        }
        i := i + 1;
      }
      NoMatch(tickets, updatedTicket.id);
    }

    /** Removes the first ticket with the given id and reports whether there was one. */
    method DeleteTicket(id: int) returns (deleted: bool)
      modifies this
      ensures nextId == old(nextId)
      ensures deleted <==> id in old(Ids(tickets))
      ensures match old(IndexOf(Ids(tickets), id))
              case None => tickets == old(tickets)
              case Some(i) => tickets == RemoveAt(old(tickets), i)
      ensures old(WellNumbered(Ids(tickets), nextId)) ==> WellNumbered(Ids(tickets), nextId) && id !in Ids(tickets)
    {
      var i := 0;
      while i < |tickets|
        invariant 0 <= i <= |tickets|
        invariant tickets == old(tickets)
        invariant forall j :: 0 <= j < i ==> tickets[j].id != id
      {
        if tickets[i].id == id {
          FirstMatch(tickets, id, i);
          var remaining := RemoveAt(tickets, i);
          ghost var remainingIds := Ids(remaining);
          if WellNumbered(Ids(tickets), nextId) {
            WellNumberedRemoveAt(tickets, nextId, i);
            assert WellNumbered(remainingIds, nextId) && id !in remainingIds;
          }
          tickets := remaining;
          assert Ids(tickets) == remainingIds;
          return true;
        }
        i := i + 1;
      }
      NoMatch(tickets, id);
      assert Ids(tickets) == old(Ids(tickets));
      return false;
    }

    /** The tickets, in store order, whose customer name, category, status and
        priority each equal the corresponding criterion ignoring case; a null
        or empty criterion accepts every value. */
    method SearchByCriteria(customerName: Option<string>, category: Option<string>,
                            status: Option<string>, priority: Option<string>)
      returns (results: seq<TicketModel>)
      ensures results == Select(tickets, CriteriaMask(Records(tickets), customerName, category, status, priority))
      ensures forall t :: t in results <==>
                t in tickets && MatchesCriteria(t.Snapshot(), customerName, category, status, priority)
      ensures IsSubsequence(results, tickets)
      ensures !Given(customerName) && !Given(category) && !Given(status) && !Given(priority) ==>
                results == tickets
    {
      ghost var keep := CriteriaMask(Records(tickets), customerName, category, status, priority);
      results := [];
      var i := 0;
      while i < |tickets|
        invariant 0 <= i <= |tickets|
        invariant results == Select(tickets[..i], keep[..i])
      {
        var ticket := tickets[i];
        var matches := TicketMatches(ticket, customerName, category, status, priority);
        assert matches == keep[i];
        if matches {
          results := results + [ticket];
        }
        SelectPrefixStep(tickets, keep, i);
        i := i + 1;
      }
      assert results == Select(tickets, keep) by {
        assert tickets[..i] == tickets && keep[..i] == keep;
      }
      CriteriaSelection(tickets, customerName, category, status, priority);
    }

    /** Hands out the current counter value and advances the counter by one. */
    method GetNextId() returns (id: int)
      modifies this
      ensures id == old(nextId) && nextId == old(nextId) + 1
      ensures tickets == old(tickets)
      ensures old(WellNumbered(Ids(tickets), nextId)) ==> WellNumbered(Ids(tickets), nextId)
    {
      id := nextId;
      nextId := nextId + 1;
    }
  }
}
