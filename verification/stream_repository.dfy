/** The older ticket store, written with streams: lookup and search filter
    the list, and deletion removes every ticket carrying the id. */
module StreamRepository {
  import opened Sequences
  import opened Models
  import Repository

  /** The fixed-field search is the predicate search with the criteria as predicate. */
  lemma CriteriaSearchIsPredicateSearch(ts: seq<TicketModel>, customerName: Option<string>,
                                        category: Option<string>, status: Option<string>,
                                        priority: Option<string>)
    ensures Select(ts, Repository.CriteriaMask(Records(ts), customerName, category, status, priority)) ==
            Select(ts, Mask(Records(ts),
                            r => Repository.MatchesCriteria(r, customerName, category, status, priority)))
  {
    assert Repository.CriteriaMask(Records(ts), customerName, category, status, priority) ==
           Mask(Records(ts), r => Repository.MatchesCriteria(r, customerName, category, status, priority));
  }

  class TicketRepository {
    var tickets: seq<TicketModel>
    var nextId: int

    /** The field initialisers: an empty list and first id 1. */
    constructor ()
      ensures tickets == [] && nextId == 1
      ensures WellNumbered(Ids(tickets), nextId)
    {
      tickets := [];
      nextId := 1;
    }

    /** Appends the ticket as it is; no check of its id is made. */
    method CreateTicket(ticket: TicketModel)
      modifies this
      ensures tickets == old(tickets) + [ticket] && nextId == old(nextId)
      ensures (old(WellNumbered(Ids(tickets), nextId)) && (forall x :: x in old(Ids(tickets)) ==> x < ticket.id) &&
               1 <= ticket.id < nextId) ==> WellNumbered(Ids(tickets), nextId)
    {
      if WellNumbered(Ids(tickets), nextId) && (forall x :: x in Ids(tickets) ==> x < ticket.id) && 1 <= ticket.id < nextId {
        Repository.WellNumberedAppend(tickets, nextId, ticket);
      }
      tickets := tickets + [ticket];
    }

    /** A copy of the list: the stored tickets in store order. */
    method GetAllTickets() returns (all: seq<TicketModel>)
      ensures all == tickets
    {
      all := tickets;
    }

    /** The first ticket of the tickets whose id is the given one, or null. */
    function GetTicketById(id: int): (found: TicketModel?)
      reads this, tickets
      ensures match IndexOf(Ids(tickets), id)
              case None => found == null
              case Some(i) => found == tickets[i]
      ensures found != null ==> found in tickets && found.id == id
    {
      var matching := Select(tickets, EqualsKey(Ids(tickets), id));
      FilterFirstIsIndexOf(tickets, Ids(tickets), id);
      if matching == [] then null else matching[0]
    }

    /** Replaces the first ticket with the same id as the given one, in its
        slot; when no ticket has that id nothing changes. */
    method UpdateTicket(updatedTicket: TicketModel)
      modifies this
      ensures nextId == old(nextId)
      ensures match old(IndexOf(Ids(tickets), updatedTicket.id))
              case None => tickets == old(tickets)
              case Some(i) => tickets == old(tickets)[i := updatedTicket]
      ensures Ids(tickets) == old(Ids(tickets))
      ensures old(WellNumbered(Ids(tickets), nextId)) ==> WellNumbered(Ids(tickets), nextId)
    {
      var i := 0;
      while i < |tickets|
        invariant 0 <= i <= |tickets|
        invariant tickets == old(tickets)
        invariant forall j :: 0 <= j < i ==> tickets[j].id != updatedTicket.id
      {
        if tickets[i].id == updatedTicket.id {
          Repository.FirstMatch(tickets, updatedTicket.id, i);
          Repository.IdsReplace(tickets, i, updatedTicket);
          tickets := tickets[i := updatedTicket];
          return;
        }
        i := i + 1;
      }
      Repository.NoMatch(tickets, updatedTicket.id);
    }

    /** Removes every ticket with the given id, keeping the others in order,
        and reports whether anything was removed. */
    method DeleteTicket(id: int) returns (removed: bool)
      modifies this
      ensures nextId == old(nextId)
      ensures tickets == Select(old(tickets), DiffersFromKey(old(Ids(tickets)), id))
      ensures removed <==> id in old(Ids(tickets))
      ensures removed <==> |tickets| < old(|tickets|)
      ensures id !in Ids(tickets)
      ensures old(Distinct(Ids(tickets))) ==>
                tickets == match old(IndexOf(Ids(tickets), id))
                           case None => old(tickets)
                           case Some(i) => RemoveAt(old(tickets), i)
      ensures old(WellNumbered(Ids(tickets), nextId)) ==> WellNumbered(Ids(tickets), nextId)
    {
      ghost var before := tickets;
      ghost var beforeIds := Ids(tickets);
      var kept;
      kept, removed := RemoveIfId(tickets, id);
      ghost var keptIds := Ids(kept);
      if WellNumbered(beforeIds, nextId) {
        WellNumberedRemoveAll(before, nextId, id);
        assert WellNumbered(keptIds, nextId);
      }
      tickets := kept;
      assert Ids(tickets) == keptIds;
      assert old(Ids(tickets)) == beforeIds && old(tickets) == before;
    }

    /** The tickets satisfying the predicate, in store order. The predicate
        sees a ticket's field values. */
    function SearchTickets(p: TicketRecord -> bool): (results: seq<TicketModel>)
      reads this, tickets
      ensures results == Select(tickets, Mask(Records(tickets), p))
      ensures forall k :: 0 <= k < |results| ==> results[k] in tickets && p(results[k].Snapshot())
      ensures forall i :: 0 <= i < |tickets| && p(tickets[i].Snapshot()) ==> tickets[i] in results
      ensures IsSubsequence(results, tickets)
      ensures (forall i :: 0 <= i < |tickets| ==> p(tickets[i].Snapshot())) ==> results == tickets
      ensures (forall i :: 0 <= i < |tickets| ==> !p(tickets[i].Snapshot())) ==> results == []
    {
      var keep := Mask(Records(tickets), p);
      SelectIsSubsequence(tickets, keep);
      PredicateSelection(tickets, p);
      Select(tickets, keep)
    }

    /** Hands out the current counter value and advances the counter by one. */
    method GetNextId() returns (id: int)
      modifies this
      ensures id == old(nextId) && nextId == old(nextId) + 1
      ensures tickets == old(tickets)
      ensures old(WellNumbered(Ids(tickets), nextId)) ==> WellNumbered(Ids(tickets), nextId)
    {
      id := nextId;
      nextId := nextId + 1;
    }
  }

  /** ArrayList.removeIf with the test "the ticket's id is id", on the
      list's contents: the tickets that pass are dropped, the rest kept in
      order, and the result says whether any was dropped. */
  method RemoveIfId(ts: seq<TicketModel>, id: int) returns (kept: seq<TicketModel>, removed: bool)
    ensures kept == Select(ts, DiffersFromKey(Ids(ts), id))
    ensures removed <==> id in Ids(ts)
    ensures removed <==> |kept| < |ts|
    ensures id !in Ids(kept)
    ensures Distinct(Ids(ts)) ==>
              kept == match IndexOf(Ids(ts), id)
                      case None => ts
                      case Some(i) => RemoveAt(ts, i)
  {
    ghost var keep := DiffersFromKey(Ids(ts), id);
    kept := [];
    removed := false;
    var i := 0;
    while i < |ts|
      invariant 0 <= i <= |ts|
      invariant kept == Select(ts[..i], keep[..i])
      invariant removed <==> false in keep[..i]
    {
      assert keep[..i + 1] == keep[..i] + [keep[i]];
      if ts[i].id == id {
        removed := true;
      } else {
        kept := kept + [ts[i]];
      }
      SelectPrefixStep(ts, keep, i);
      i := i + 1;
    }
    assert ts[..i] == ts && keep[..i] == keep;
    RemoveAllFacts(ts, id);
  }

  /** Selecting by a predicate on field values: exactly the tickets that
      satisfy it, all of them when every ticket does, none when none does. */
  lemma PredicateSelection(ts: seq<TicketModel>, p: TicketRecord -> bool)
    ensures var results := Select(ts, Mask(Records(ts), p));
      (forall k :: 0 <= k < |results| ==> results[k] in ts && p(results[k].Snapshot())) &&
      (forall i :: 0 <= i < |ts| && p(ts[i].Snapshot()) ==> ts[i] in results) &&
      ((forall i :: 0 <= i < |ts| ==> p(ts[i].Snapshot())) ==> results == ts) &&
      ((forall i :: 0 <= i < |ts| ==> !p(ts[i].Snapshot())) ==> results == [])
  {
    var keep := Mask(Records(ts), p);
    var results := Select(ts, keep);
    forall k | 0 <= k < |results| ensures results[k] in ts && p(results[k].Snapshot()) {
      SelectMembership(ts, keep, results[k]);
    }
    forall i | 0 <= i < |ts| && p(ts[i].Snapshot()) ensures ts[i] in results {
      SelectMembership(ts, keep, ts[i]);
    }
    if forall i :: 0 <= i < |ts| ==> p(ts[i].Snapshot()) {
      SelectAll(ts, keep);
    }
    if forall i :: 0 <= i < |ts| ==> !p(ts[i].Snapshot()) {
      SelectNone(ts, keep);
    }
  }

  /** Removing every ticket with an id: none is left with it, something was
      removed exactly when the id was present, and with distinct ids this is
      removing the first one. */
  lemma RemoveAllFacts(ts: seq<TicketModel>, id: int)
    ensures var kept := Select(ts, DiffersFromKey(Ids(ts), id));
      id !in Ids(kept) &&
      (false in DiffersFromKey(Ids(ts), id) <==> id in Ids(ts)) &&
      (|kept| < |ts| <==> id in Ids(ts)) &&
      (Distinct(Ids(ts)) ==>
         kept == match IndexOf(Ids(ts), id)
                 case None => ts
                 case Some(i) => RemoveAt(ts, i))
  {
    var keep := DiffersFromKey(Ids(ts), id);
    var kept := Select(ts, keep);
    forall k | 0 <= k < |kept| ensures kept[k].id != id {
      SelectMembership(ts, keep, kept[k]);
    }
    SelectShrinks(ts, keep);
    if false in keep {
      var j :| 0 <= j < |keep| && keep[j] == false;
      assert Ids(ts)[j] == id;
    }
    if id in Ids(ts) {
      var j :| 0 <= j < |ts| && Ids(ts)[j] == id;
      assert keep[j] == false;
    }
    if Distinct(Ids(ts)) {
      SelectAwayDistinctKey(ts, Ids(ts), id);
    }
  }

  /** Removing every ticket with an id keeps the numbering well-formed. */
  lemma WellNumberedRemoveAll(ts: seq<TicketModel>, nextId: int, id: int)
    requires WellNumbered(Ids(ts), nextId)
    ensures WellNumbered(Ids(Select(ts, DiffersFromKey(Ids(ts), id))), nextId)
  {
    StrictlyIncreasingDistinct(Ids(ts));
    SelectAwayDistinctKey(ts, Ids(ts), id);
    match IndexOf(Ids(ts), id)
    case None =>
    case Some(i) =>
      Repository.WellNumberedRemoveAt(ts, nextId, i);
  }
}
