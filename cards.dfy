/**
 * The card records and the card table with its record operations. Dates are day
 * numbers; "today" is passed in. A carrier id of -1 widens a lookup, delete or
 * expiry change to every owner.
 */
module Cards {
  import opened Common

  datatype Card = Card(
    id: int,
    number: string,
    carrierName: string,
    expiresDate: int,
    paymentSystem: string,
    cvv: string,
    carrierId: int,
    frozen: bool)

  /** The details a caller supplies for a new card. */
  datatype CardDetails = CardDetails(
    number: string,
    carrierName: string,
    expiresDate: int,
    paymentSystem: string,
    cvv: string)

  /** The carrier id that stands for "any owner". */
  const AnyCarrier := -1

  /** The card with this id exists and is visible to `carrierId`. */
  predicate InScope(rows: map<int, Card>, id: int, carrierId: int) {
    id in rows && (carrierId == AnyCarrier || rows[id].carrierId == carrierId)
  }

  // ---------------------------------------------------------------------------
  // Queries

  /** The card with this id within the carrier scope, if there is one. */
  function CardById(rows: map<int, Card>, id: int, carrierId: int): (r: Option<Card>)
    ensures r.None? <==> !(id in rows && (carrierId == AnyCarrier || rows[id].carrierId == carrierId))
    ensures r.Some? ==> id in rows && r.value == rows[id]
  {
    if InScope(rows, id, carrierId) then Some(rows[id]) else None
  }

  /** The cards owned by `carrierId`. Here -1 is not a wildcard: it matches only owner -1. */
  function CardsOf(rows: map<int, Card>, carrierId: int): (r: set<Card>)
    ensures r <= rows.Values
    ensures forall c :: c in r <==> c in rows.Values && c.carrierId == carrierId
  {
    set c | c in rows.Values && c.carrierId == carrierId
  }

  /**
   * The "any owner" id widens a lookup by id but not a listing by owner: a card owned
   * by someone else is found by id under -1, yet is not among the cards of -1.
   */
  lemma {:induction false} ListingIgnoresAnyCarrier(rows: map<int, Card>, id: int)
    requires id in rows && rows[id].carrierId != AnyCarrier
    ensures CardById(rows, id, AnyCarrier) == Some(rows[id])
    ensures rows[id] !in CardsOf(rows, AnyCarrier)
  {
  }

  /** One table where this shows: card 1 of owner 7. */
  lemma AnyCarrierListingExample()
    ensures var card := Card(1, "4000000000000002", "Owner", 20000, "visa", "123", 7, false);
      var rows := map[1 := card];
      && CardById(rows, 1, AnyCarrier) == Some(card)
      && CardsOf(rows, AnyCarrier) == {}
  {
    var card := Card(1, "4000000000000002", "Owner", 20000, "visa", "123", 7, false);
    var rows := map[1 := card];
    forall c | c in rows.Values ensures c == card {
      var k :| k in rows && rows[k] == c;
    }
    ListingIgnoresAnyCarrier(rows, 1);
  }

  // ---------------------------------------------------------------------------
  // Transitions, as values

  /** Whether an expiry change succeeds: the card is in scope, frozen, and the new date is after today. */
  predicate CanRenew(rows: map<int, Card>, id: int, carrierId: int, newDate: int, today: int) {
    InScope(rows, id, carrierId) && rows[id].frozen && newDate > today
  }

  /** The card with a new expiry date, no longer frozen. */
  function Renewed(c: Card, newDate: int): Card {
    c.(expiresDate := newDate, frozen := false)
  }

  /** The table after an expiry change. */
  function AfterRenew(rows: map<int, Card>, id: int, carrierId: int, newDate: int, today: int): map<int, Card> {
    if CanRenew(rows, id, carrierId, newDate, today) then rows[id := Renewed(rows[id], newDate)] else rows
  }

  /** The table after a delete. */
  function AfterDelete(rows: map<int, Card>, id: int, carrierId: int): map<int, Card> {
    if InScope(rows, id, carrierId) then rows - {id} else rows
  }

  /** A successful renewal leaves the card unfrozen with an expiry after today, nothing else changed. */
  lemma RenewOutcome(rows: map<int, Card>, id: int, carrierId: int, newDate: int, today: int)
    requires CanRenew(rows, id, carrierId, newDate, today)
    ensures var after := AfterRenew(rows, id, carrierId, newDate, today);
      && after.Keys == rows.Keys
      && !after[id].frozen && after[id].expiresDate == newDate && after[id].expiresDate > today
      && after[id].(expiresDate := rows[id].expiresDate, frozen := true) == rows[id]
      && (forall j :: j in rows && j != id ==> after[j] == rows[j])
  {
  }

  /** A renewal succeeds at most once: the renewed card is no longer frozen. */
  lemma RenewOnlyOnce(rows: map<int, Card>, id: int, carrierId: int, newDate: int, today: int,
                      laterDate: int, laterToday: int)
    requires CanRenew(rows, id, carrierId, newDate, today)
    ensures !CanRenew(AfterRenew(rows, id, carrierId, newDate, today), id, carrierId, laterDate, laterToday)
  {
  }

  /** A caller scoped to one owner never changes or deletes another owner's card. */
  lemma ScopedCallsIsolateOwners(rows: map<int, Card>, id: int, carrierId: int, newDate: int, today: int)
    requires carrierId != AnyCarrier
    ensures forall j :: j in rows && rows[j].carrierId != carrierId ==>
      && j in AfterRenew(rows, id, carrierId, newDate, today)
      && AfterRenew(rows, id, carrierId, newDate, today)[j] == rows[j]
      && j in AfterDelete(rows, id, carrierId)
      && AfterDelete(rows, id, carrierId)[j] == rows[j]
  {
  }

  /** Whatever an owner's scope reaches, the "any owner" scope reaches too. */
  lemma AnyCarrierWidens(rows: map<int, Card>, id: int, carrierId: int)
    requires InScope(rows, id, carrierId)
    ensures InScope(rows, id, AnyCarrier)
    ensures CardById(rows, id, AnyCarrier) == CardById(rows, id, carrierId)
  {
  }

  // ---------------------------------------------------------------------------
  // The table

  class CardTable {
    var rows: map<int, Card>
    /** The next primary key the table hands out. */
    var nextId: int

    ghost predicate Valid()
      reads this
    {
      0 < nextId && forall id :: id in rows ==> rows[id].id == id && 0 < id < nextId
    }

    constructor()
      ensures Valid() && rows == map[]
    {
      rows := map[];
      nextId := 1;
    }

    /** Stores a new card for `carrierId` under a fresh id; a new card is not frozen. */
    method AddNewCard(details: CardDetails, carrierId: int) returns (id: int)
      requires Valid()
      modifies this
      ensures Valid()
      ensures id == old(nextId) && id !in old(rows) && nextId == old(nextId) + 1
      ensures rows == old(rows)[id := Card(id, details.number, details.carrierName, details.expiresDate,
                                           details.paymentSystem, details.cvv, carrierId, false)]
    {
      id := nextId;
      rows := rows[id := Card(id, details.number, details.carrierName, details.expiresDate,
                              details.paymentSystem, details.cvv, carrierId, false)];
      nextId := nextId + 1;
    }

    /** Deletes the card if it is in scope; reports whether it was. */
    method DeleteCardById(id: int, carrierId: int) returns (deleted: bool)
      requires Valid()
      modifies this
      ensures Valid() && nextId == old(nextId)
      ensures deleted <==> InScope(old(rows), id, carrierId)
      ensures rows == AfterDelete(old(rows), id, carrierId)
      ensures !deleted ==> rows == old(rows)
    {
      var card := CardById(rows, id, carrierId);
      if card.Some? {
        rows := rows - {id};
        deleted := true;
      } else {
        deleted := false;
      }
    }

    /**
     * Renews a frozen card in scope: a new expiry date after today, and unfrozen.
     * Any other case reports false and changes nothing.
     */
    method ChangeCardExpiresDate(id: int, carrierId: int, newDate: int, today: int) returns (changed: bool)
      requires Valid()
      modifies this
      ensures Valid() && nextId == old(nextId)
      ensures changed <==> CanRenew(old(rows), id, carrierId, newDate, today)
      ensures rows == AfterRenew(old(rows), id, carrierId, newDate, today)
      ensures !changed ==> rows == old(rows)
    {
      var card := CardById(rows, id, carrierId);
      if card.Some? {
        if card.value.frozen {
          if newDate > today {
            rows := rows[id := card.value.(expiresDate := newDate, frozen := false)];
            changed := true;
          } else {
            changed := false;
          }
        } else {
          changed := false;
        }
      } else {
        changed := false;
      }
    }
  }
}
