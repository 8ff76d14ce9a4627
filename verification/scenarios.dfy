/** The store used the way the console front end uses it: ids drawn from
    the counter, tickets changed by read-modify-write, and the searches of
    the menu. */
module Scenarios {
  import opened Sequences
  import opened Text
  import opened Models
  import Repository
  import StreamRepository

  /** The create-ticket flow: draw an id, build the ticket with it, store it.
      Done this way the ids stay increasing and below the counter. */
  method OpenTicket(repo: Repository.TicketRepository, customerName: string, contactInfo: string,
                    category: string, description: string)
    returns (ticket: TicketModel)
    requires WellNumbered(Ids(repo.tickets), repo.nextId)
    modifies repo
    ensures fresh(ticket)
    ensures ticket.Snapshot() == TicketRecord(old(repo.nextId), customerName, contactInfo, category,
                                              description, DefaultStatus, DefaultPriority, "")
    ensures repo.tickets == old(repo.tickets) + [ticket]
    ensures repo.nextId == old(repo.nextId) + 1
    ensures WellNumbered(Ids(repo.tickets), repo.nextId)
  {
    var id := repo.GetNextId();
    ticket := new TicketModel(id, customerName, contactInfo, category, description);
    repo.CreateTicket(ticket);
  }

  /** The counter of a new store hands out 1, 2, 3. */
  method IdsCountFromOne() returns (first: int, second: int, third: int)
    ensures first == 1 && second == 2 && third == 3
  {
    var repo := new Repository.TicketRepository();
    first := repo.GetNextId();
    second := repo.GetNextId();
    third := repo.GetNextId();
  }

  /** A new store holding Alice's network ticket (id 1) and Bob's billing
      ticket (id 2), both just created. */
  method TwoTickets() returns (repo: Repository.TicketRepository, alice: TicketModel, bob: TicketModel)
    ensures fresh(repo) && fresh(alice) && fresh(bob) && alice != bob
    ensures repo.tickets == [alice, bob] && repo.nextId == 3
    ensures alice.Snapshot() == TicketRecord(1, "Alice", "alice@example.com", "Network", "No connection",
                                             DefaultStatus, DefaultPriority, "")
    ensures bob.Snapshot() == TicketRecord(2, "Bob", "bob@example.com", "Billing", "Double charge",
                                           DefaultStatus, DefaultPriority, "")
    ensures WellNumbered(Ids(repo.tickets), repo.nextId)
  {
    repo := new Repository.TicketRepository();
    alice := OpenTicket(repo, "Alice", "alice@example.com", "Network", "No connection");
    bob := OpenTicket(repo, "Bob", "bob@example.com", "Billing", "Double charge");
  }

  /** Look up by id: the first ticket is found under id 1. */
  method LookUp()
  {
    var repo, alice, bob := TwoTickets();
    assert Ids(repo.tickets) == [1, 2];
    var found := repo.GetTicketById(1);
    assert found == alice;
  }

  /** The category criterion "billing" rejects a "Network" ticket and
      accepts a "Billing" one. */
  lemma BillingCriterionMask(network: TicketRecord, billing: TicketRecord)
    requires network.category == "Network" && billing.category == "Billing"
    ensures Repository.CriteriaMask([network, billing], None, Some("billing"), None, None) == [false, true]
  {
    assert Repository.Given(Some("billing")) && !Repository.Given(None);
    assert !EqualsIgnoreCase("Network", "billing");
    assert EqualsIgnoreCase("Billing", "billing");
    assert !Repository.FieldMatches(network.category, Some("billing"));
    assert Repository.FieldMatches(billing.category, Some("billing"));
    assert !Repository.MatchesCriteria(network, None, Some("billing"), None, None);
    assert Repository.MatchesCriteria(billing, None, Some("billing"), None, None);
  }

  /** Search by category ignoring case: "billing" finds Bob's "Billing" ticket only. */
  method SearchIgnoringCase()
  {
    var repo, alice, bob := TwoTickets();
    assert Records(repo.tickets) == [alice.Snapshot(), bob.Snapshot()];
    BillingCriterionMask(alice.Snapshot(), bob.Snapshot());
    var billing := repo.SearchByCriteria(None, Some("billing"), None, None);
    assert billing == [bob];
  }

  /** An empty criterion is not in force: the search returns every ticket. */
  method EmptyCriterionMatchesAll()
  {
    var repo, alice, bob := TwoTickets();
    var everything := repo.SearchByCriteria(None, Some(""), None, None);
    assert everything == [alice, bob];
  }

  /** Delete the first ticket: it can no longer be found and the list holds the other. */
  method DeleteThenList()
  {
    var repo, alice, bob := TwoTickets();
    assert Ids(repo.tickets) == [1, 2];
    var deleted := repo.DeleteTicket(1);
    assert deleted && repo.tickets == [bob];
    var found := repo.GetTicketById(1);
    assert found == null;
    var all := repo.GetAllTickets();
    assert all == [bob];
  }

  /** Two comments on a new ticket are kept in order, one per line. */
  method TwoComments() returns (comments: string)
    ensures comments == "called back" + "\n" + "resolved"
  {
    var ticket := new TicketModel(1, "Alice", "alice@example.com", "Network", "No connection");
    assert ticket.comments == "";
    ticket.AddComment("called back");
    assert ticket.comments == "called back";
    ticket.AddComment("resolved");
    comments := ticket.comments;
    assert comments == AppendComment("called back", "resolved");
  }

  /** The status changed through a looked-up ticket and written back with
      UpdateTicket. The ticket in the store is the same object, so the change
      is visible even before the write-back. */
  method UpdateThroughLookup()
  {
    var repo, alice, bob := TwoTickets();
    assert Ids(repo.tickets) == [1, 2];
    var ticket := repo.GetTicketById(2);
    assert ticket == bob;
    ticket.SetStatus("Closed");
    assert repo.tickets[1].status == "Closed";

    repo.UpdateTicket(ticket);
    var again := repo.GetTicketById(2);
    assert again.status == "Closed";
    assert again.priority == DefaultPriority && again.category == "Billing";
  }

  /** Two tickets that both carry id 7. */
  method SameIdTwice() returns (first: TicketModel, second: TicketModel)
    ensures fresh(first) && fresh(second) && first != second
    ensures first.id == 7 && second.id == 7
  {
    first := new TicketModel(7, "Alice", "alice@example.com", "Network", "No connection");
    second := new TicketModel(7, "Bob", "bob@example.com", "Billing", "Double charge");
  }

  /** With a duplicated id the newer store deletes only the first ticket carrying it. */
  method DuplicateIdDeletesFirst()
  {
    var first, second := SameIdTwice();
    var repo := new Repository.TicketRepository();
    repo.CreateTicket(first);
    repo.CreateTicket(second);
    assert Ids(repo.tickets) == [7, 7];
    var removed := repo.DeleteTicket(7);
    assert removed && repo.tickets == [second];
  }

  /** With a duplicated id the older store deletes every ticket carrying it. */
  method DuplicateIdDeletesAll()
  {
    var first, second := SameIdTwice();
    var repo := new StreamRepository.TicketRepository();
    repo.CreateTicket(first);
    repo.CreateTicket(second);
    var removed := repo.DeleteTicket(7);
    assert Ids(repo.tickets) == [] by {
      assert |repo.tickets| <= 2 && 7 !in Ids(repo.tickets);
    }
    assert removed && repo.tickets == [];
  }

  /** The predicate search of the older store with an always-true and an
      always-false predicate. */
  method PredicateSearchExtremes()
  {
    var older := new StreamRepository.TicketRepository();
    var a := new TicketModel(1, "Alice", "alice@example.com", "Network", "No connection");
    older.CreateTicket(a);
    var all := older.SearchTickets((r: TicketRecord) => true);
    var none := older.SearchTickets((r: TicketRecord) => false);
    assert all == [a] && none == [];
    var open := older.SearchTickets((r: TicketRecord) => r.status == DefaultStatus);
    assert open == [a];
  }

  /** Selecting the first and third of three elements keeps a repeated element twice. */
  lemma SelectKeepsRepeats<T>(x: T, y: T)
    ensures Select([x, y, x], [true, false, true]) == [x, x]
  {
    assert [x, y, x][1..] == [y, x] && [true, false, true][1..] == [false, true];
    assert [y, x][1..] == [x] && [false, true][1..] == [true];
    assert [x][1..] == [] && [true][1..] == [];
    assert Select([x], [true]) == [x];
    assert Select([y, x], [false, true]) == [x];
    assert Select([x, y, x], [true, false, true]) == [x] + [x];
  }

  /** An older store holding one ticket twice with another between. */
  method StoredTwice() returns (repo: StreamRepository.TicketRepository, a: TicketModel, b: TicketModel)
    ensures repo.tickets == [a, b, a]
    ensures a.category == "Network" && b.category == "Billing"
  {
    repo := new StreamRepository.TicketRepository();
    a := new TicketModel(1, "Alice", "alice@example.com", "Network", "No connection");
    b := new TicketModel(2, "Bob", "bob@example.com", "Billing", "Double charge");
    repo.CreateTicket(a);
    repo.CreateTicket(b);
    repo.CreateTicket(a);
  }

  /** A ticket stored twice is found twice by the predicate search, as the
      stream filter keeps every element that passes. */
  method SearchKeepsRepeats() returns (a: TicketModel, network: seq<TicketModel>)
    ensures network == [a, a]
  {
    var repo, b;
    repo, a, b := StoredTwice();
    var isNetwork := (r: TicketRecord) => r.category == "Network";
    assert Mask(Records(repo.tickets), isNetwork) == [true, false, true];
    network := repo.SearchTickets(isNetwork);
    SelectKeepsRepeats(a, b);
  }
}
