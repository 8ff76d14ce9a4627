# Call-center ticket store, modelled in Dafny

This project models the storage core of a small Java call-center ticketing
system. There are three parts:

- the ticket object itself (`TicketModel`);
- the in-memory store the application wires up;
- an older variant of that store written with streams.

A ticket has eight fields: id, customer name, contact info, category,
description, status, priority and comments. Only status, priority and
comments change after construction, and they change in place. Every holder of
a reference to the ticket sees the change, so the model keeps the ticket as a
Dafny `class`. The datatype `TicketRecord` is the snapshot of its field values
at one moment.

Each store is a `class` with two fields:

- `tickets`, a `seq<TicketModel>` that the methods reassign the way the Java
  methods mutate their `ArrayList`;
- `nextId`, the id counter.

Scans that the Java code writes as index loops are `while` loops proved
against sequence functions:

- `IndexOf` gives the first position holding an id;
- `Select` filters a sequence by a mask of flags, keeping order;
- `RemoveAt` drops one slot.

The stream expressions of the older store (`filter`/`findFirst`,
`filter`/`collect`) are Dafny functions over the same `Select`.

The application hands out ids from the counter and stores each ticket built
with the id it got. With that protocol the store keeps an invariant,
`WellNumbered`: ids increase along the list, are at least 1, and are all below
`nextId`. Every store operation preserves it. The store itself never checks
ids, so each preservation clause is conditional and states when it holds.

Modules:

- `Sequences` holds first-match lookup, masked selection, subsequence,
  distinctness and removal at an index.
- `Text` holds the case-insensitive comparison of `String.equalsIgnoreCase`
  (ASCII letters only) and the decimal rendering of an `int`.
- `Models` holds the ticket class, comment appending, `toString` rendering and
  the numbering invariant.
- `Repository` holds `code/src/repository/TicketRepository.java`.
- `StreamRepository` holds `repository/TicketRepository.java`.
- `Scenarios` holds client code that drives the stores the way the console
  front end does.

Where the code and its own Javadoc disagree, the model follows the code:

- The Javadoc of the older store's `deleteTicket`
  (`repository/TicketRepository.java:79`) says it "Deletes a ticket", but the
  method calls `removeIf`, which removes every ticket carrying the id. The newer
  store removes only the first. `StreamRepository.TicketRepository.DeleteTicket`
  states the remove-all behaviour and proves that the two coincide when ids are
  distinct. `Scenarios.DuplicateIdDeletesAll` and
  `Scenarios.DuplicateIdDeletesFirst` show where they differ.
- The Javadoc of `addComment` (`code/src/models/TicketModel.java:64`) speaks of
  a comment history. The code keeps a single string, with comments joined by
  newlines, and so does the model. `Models.AppendCommentJoins` relates the
  string to the list of comments it stands for.
- The constructor's Javadoc (`code/src/models/TicketModel.java:18`) calls the id
  a "Unique identifier". The store does not enforce that. Uniqueness follows
  only from the counter protocol (`WellNumbered`).

## Model

| member | source | states |
|---|---|---|
| Models.TicketModel.constructor | code/src/models/TicketModel.java:26-36 | the five given fields are stored, status is "Open", priority is "Medium", comments are empty |
| Models.TicketModel.SetStatus | code/src/models/TicketModel.java:54 | status becomes the argument and no other field changes (frame `this`\`status`) |
| Models.TicketModel.SetPriority | code/src/models/TicketModel.java:61 | priority becomes the argument and no other field changes |
| Models.TicketModel.AddComment | code/src/models/TicketModel.java:70-73 | comments become `AppendComment(old comments, c)`, the old text is a prefix of the new one, and no other field changes |
| Models.AppendComment | code/src/models/TicketModel.java:70-73 | the result starts with the old comments and ends with the new comment; its length is the sum of both, plus one separator exactly when there were comments before |
| Models.AppendCommentJoins | code/src/models/TicketModel.java:70-73 | appending to the newline-joined text of a comment list gives the joined text of the list extended by that comment |
| Models.CommentsText | code/src/models/TicketModel.java:92 | non-empty comments are shown verbatim; the placeholder "No comments" appears exactly when comments are empty (or literally are that text) |
| Models.Render | code/src/models/TicketModel.java:84-94 | the rendering starts with "ID: " and the decimal id followed by a newline, and ends with the comments section and the dashed separator |
| Models.RenderIdReadable | code/src/models/TicketModel.java:85 | the first line of the rendering is "ID: " and a numeral that reads back as exactly the ticket's id |
| Text.CharEqualsIgnoreCase | code/src/repository/TicketRepository.java:117-118 | two characters are equal ignoring case exactly when their lower cases are equal |
| Text.EqualsIgnoreCase | code/src/repository/TicketRepository.java:117-118 | two strings are equal ignoring case exactly when they have the same length and agree ignoring case at every position |
| Text.EqualsIgnoreCaseIsLowerEq | code/src/repository/TicketRepository.java:116-131 | the per-character three-way test of equalsIgnoreCase holds exactly when the two strings lower-case to the same text |
| Text.EqualsIgnoreCaseIsEquivalence | code/src/repository/TicketRepository.java:116-131 | case-insensitive equality is reflexive, symmetric and transitive |
| Text.NatToDecimal | code/src/models/TicketModel.java:85 | decimal digits of a natural number: non-empty, only digits, no leading zero |
| Text.IntToDecimal | code/src/models/TicketModel.java:85 | the rendering of an int is a numeral (digits, optionally after a minus sign) that starts with '-' exactly when the int is negative |
| Text.IntToDecimalRoundTrip | code/src/models/TicketModel.java:85 | reading back the decimal rendering of any int gives that int |
| Sequences.IndexOf | code/src/repository/TicketRepository.java:58-65 | None exactly when the value is absent; otherwise an index that holds the value with no occurrence before it |
| Sequences.SelectMembership | repository/TicketRepository.java:98-100 | an element is in the filtered sequence exactly when it sits at a flagged position |
| Sequences.SelectIsSubsequence | repository/TicketRepository.java:98-100 | the filtered sequence keeps the original relative order |
| Sequences.SelectShrinks | repository/TicketRepository.java:86-88 | filtering drops something exactly when some flag is clear |
| Sequences.FilterFirstIsIndexOf | repository/TicketRepository.java:54-59 | filter-then-first by key yields the element at the first position with that key, and nothing when the key is absent |
| Sequences.SelectAwayDistinctKey | repository/TicketRepository.java:86-88 | with distinct keys, dropping every element with a key is removing the one at its first position |
| Repository.TicketRepository.constructor | code/src/repository/TicketRepository.java:26-29 | an empty list and counter 1, which is well numbered |
| Repository.TicketRepository.CreateTicket | code/src/repository/TicketRepository.java:37-39 | the ticket is appended with no id check and the counter is unchanged; numbering stays well formed when the new id is above all stored ids and below the counter |
| Repository.TicketRepository.GetAllTickets | code/src/repository/TicketRepository.java:47-49 | returns the stored tickets in store order and changes nothing |
| Repository.TicketRepository.GetTicketById | code/src/repository/TicketRepository.java:58-65 | returns the ticket at the first position carrying the id, or null exactly when no ticket carries it |
| Repository.TicketRepository.UpdateTicket | code/src/repository/TicketRepository.java:73-80 | replaces only the first slot whose id matches, keeping length, order and ids; with no match the list is unchanged; numbering is preserved |
| Repository.TicketRepository.DeleteTicket | code/src/repository/TicketRepository.java:89-97 | returns true exactly when the id was present; then the first ticket with it is removed and the rest keep their order; otherwise nothing changes; on a well-numbered store the id is gone afterwards |
| Repository.TicketRepository.SearchByCriteria | code/src/repository/TicketRepository.java:110-138 | returns, in store order, exactly the tickets whose fields equal every non-null non-empty criterion ignoring case; with no criterion in force, all tickets |
| Repository.TicketRepository.GetNextId | code/src/repository/TicketRepository.java:146-148 | returns the counter and leaves it one greater; the list is unchanged and numbering is preserved |
| Repository.CriteriaMask | code/src/repository/TicketRepository.java:113-131 | one flag per ticket, set exactly when every criterion is null or empty or lower-cases to the same text as the ticket's field (`AcceptsAllLowerCase`, a reference reading independent of the per-character test) |
| Repository.FieldMatches | code/src/repository/TicketRepository.java:116-119 | one field passes one criterion exactly when the criterion is null or empty or both lower-case to the same text |
| Repository.MatchesCriteria | code/src/repository/TicketRepository.java:113-131 | a ticket passes the search exactly when all four fields pass the lower-case reading of their criteria |
| Repository.TicketMatches | code/src/repository/TicketRepository.java:114-131 | the sequence of `if`s that narrows `matches` from true ends with exactly `MatchesCriteria` of the ticket's current field values |
| Repository.CriteriaSelection | code/src/repository/TicketRepository.java:110-138 | the criteria selection holds exactly the matching tickets, in store order, and every ticket when no criterion is given |
| Repository.WellNumberedAppend | code/src/repository/TicketRepository.java:37-39 | appending a ticket whose id exceeds all stored ids and is below the counter keeps numbering well formed |
| Repository.WellNumberedRemoveAt | code/src/repository/TicketRepository.java:89-97 | removing one ticket keeps numbering well formed, and no remaining ticket has the removed id |
| Repository.IdsReplace | code/src/repository/TicketRepository.java:73-80 | replacing a slot by a ticket with the same id leaves the id list unchanged |
| StreamRepository.TicketRepository.constructor | repository/TicketRepository.java:20-21 | an empty list and counter 1, which is well numbered |
| StreamRepository.TicketRepository.CreateTicket | repository/TicketRepository.java:30-32 | the ticket is appended and nothing else changes; numbering is preserved under the same condition as the newer store |
| StreamRepository.TicketRepository.GetAllTickets | repository/TicketRepository.java:42-44 | returns the stored tickets in store order and changes nothing |
| StreamRepository.TicketRepository.GetTicketById | repository/TicketRepository.java:54-59 | filter-then-findFirst gives the ticket at the first position carrying the id, or null when none does |
| StreamRepository.TicketRepository.UpdateTicket | repository/TicketRepository.java:69-76 | replaces only the first slot whose id matches; with no match the list is unchanged; ids and numbering are preserved |
| StreamRepository.TicketRepository.DeleteTicket | repository/TicketRepository.java:86-88 | removes every ticket with the id and keeps the rest in order; returns true exactly when the id was present, equivalently when the list shrank; afterwards no ticket has the id; with distinct ids this is removing the first match |
| StreamRepository.TicketRepository.SearchTickets | repository/TicketRepository.java:98-100 | the result is the order-preserving selection of the stored tickets that satisfy the predicate, so a ticket stored twice is returned twice; every result satisfies the predicate and every stored ticket that satisfies it is a result, in store order; all tickets when all satisfy it, none when none does |
| StreamRepository.TicketRepository.GetNextId | repository/TicketRepository.java:109-111 | returns the counter and leaves it one greater; the list is unchanged and numbering is preserved |
| StreamRepository.RemoveIfId | repository/TicketRepository.java:87 | the loop of `removeIf` keeps exactly the tickets without the id, in order, and reports whether any was dropped |
| StreamRepository.RemoveAllFacts | repository/TicketRepository.java:87 | after dropping every ticket with an id, none has it; the list shrank exactly when the id was present |
| StreamRepository.WellNumberedRemoveAll | repository/TicketRepository.java:86-88 | dropping every ticket with an id keeps numbering well formed |
| StreamRepository.PredicateSelection | repository/TicketRepository.java:98-100 | filtering by a predicate on field values gives exactly the satisfying tickets; all when all satisfy it, none when none does |
| StreamRepository.CriteriaSearchIsPredicateSearch | repository/TicketRepository.java:98-100 | the newer store's criteria search is the older store's predicate search with the criteria as predicate |
| Scenarios.OpenTicket | code/src/CallCenterApp.java:107-115 | drawing an id from the counter, building a ticket with it and storing it appends a fresh ticket with that id and the default fields, and keeps numbering well formed |
| Scenarios.IdsCountFromOne | code/src/repository/TicketRepository.java:146-148 | a new store hands out ids 1, 2, 3 |
| Scenarios.TwoComments | code/src/models/TicketModel.java:70-73 | "called back" then "resolved" on a new ticket gives "called back\nresolved" |
| Scenarios.SearchKeepsRepeats | repository/TicketRepository.java:98-100 | searching a list holding the same ticket twice around another returns that ticket twice |
| Scenarios.BillingCriterionMask | code/src/repository/TicketRepository.java:120-123 | the category criterion "billing" rejects a "Network" ticket and accepts a "Billing" one |

## Left out

- The getters of `TicketModel` are not separate members. A reader of the model reads the field directly.
- `Models.TicketModel.ToString` has no contract of its own. It is `Render` applied to the current field values, and `Render` carries the contract.
- Java `int` is 32 bits. The counter `nextId` and ids are unbounded here, so the wrap-around of `nextId++` past 2^31-1 is not modelled.
- `equalsIgnoreCase` folds case over all of Unicode. The model folds only the ASCII letters A-Z and a-z; every other character compares exactly.
- The predicate passed to `searchTickets` sees a ticket's field values (`TicketRecord`), not the object. A predicate that inspects object identity or mutates the ticket cannot be expressed.
- Stream laziness, the concrete `List` class returned by `Collectors.toList`, and the `ArrayList` copy made by `getAllTickets` are not modelled. A Dafny sequence is already a value, so the copy is the sequence itself; its elements are the same ticket objects, as in Java.
- Null references are not modelled: tickets in the list, their string fields and every argument except the search criteria are non-null. In Java the null cases behave as follows, and none of them is modelled:
  - `getTicketById`, `updateTicket` and `deleteTicket` throw `NullPointerException` when they reach a null ticket in the list. `searchByCriteria` throws on a null ticket only when some criterion is in force (`code/src/repository/TicketRepository.java:116-131`); with none in force it never dereferences the ticket, and the null is added to its results (line 134).
  - `searchByCriteria` throws on a null field only when that field's criterion is in force and `matches` is still true (`code/src/repository/TicketRepository.java:116-130`); otherwise the `&&` short-circuits and the null field is never read.
  - `toString` renders a null field as the text "null" (`code/src/models/TicketModel.java:85-93`).
  - `addComment(null)` appends the text "null" (`code/src/models/TicketModel.java:72`).
  - `updateTicket(null)` throws on a non-empty list and does nothing on an empty one (`code/src/repository/TicketRepository.java:74`).
  - Null search criteria are modelled, as `None`.
- The console front end (`CallCenterApp`) with its input loops and printing, and the service classes that only delegate to the repository, are not part of this model. `Scenarios.OpenTicket` reproduces only the order of calls the front end makes when creating a ticket.
