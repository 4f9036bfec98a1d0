/** The card store behind `ICardRepository`, as an in-memory table. The SQL of
    the production repository is not part of this model, so the query
    semantics written here are the store's contract as the service relies on
    it: inclusive year/month ranges, the un-notified cards of one month, rows
    in insertion order, a bulk flag update, and sequential store-assigned ids. */
module CardStore {
  import opened Models

  /** `(y1, m1)` is not after `(y2, m2)`, year first. */
  predicate NotAfter(y1: int, m1: int, y2: int, m2: int)
  {
    y1 < y2 || (y1 == y2 && m1 <= m2)
  }

  /** The two row filters the store evaluates. */
  datatype Filter =
    | DateRange(startYear: int, startMonth: int, endYear: int, endMonth: int)
    | Pending(year: int, month: int)

  /** Whether a card satisfies a filter: inside the inclusive range, or due in
      the given month and not notified yet. */
  predicate Selects(f: Filter, c: PaymentCard)
    ensures f.Pending? && Selects(f, c) ==>
      && !c.notificationSent
      && NotAfter(f.year, f.month, c.expirationYear, c.expirationMonth)
      && NotAfter(c.expirationYear, c.expirationMonth, f.year, f.month)
  {
    match f
    case DateRange(sy, sm, ey, em) =>
      NotAfter(sy, sm, c.expirationYear, c.expirationMonth) && NotAfter(c.expirationYear, c.expirationMonth, ey, em)
    case Pending(y, m) =>
      c.expirationYear == y && c.expirationMonth == m && !c.notificationSent
  }

  /** The rows a filter selects, in table order. */
  function Where(rows: seq<PaymentCard>, f: Filter): (r: seq<PaymentCard>)
    ensures |r| <= |rows|
    ensures forall c :: c in r <==> c in rows && Selects(f, c)
  {
    if rows == [] then []
    else (if Selects(f, rows[0]) then [rows[0]] else []) + Where(rows[1..], f)
  }

  /** `OFFSET offset LIMIT limit`: skip `offset` rows, then keep at most `limit`. */
  function Page(s: seq<PaymentCard>, offset: nat, limit: nat): (r: seq<PaymentCard>)
    ensures |r| == if offset >= |s| then 0 else if |s| - offset < limit then |s| - offset else limit
    ensures forall i :: 0 <= i < |r| ==> r[i] == s[offset + i]
  {
    if offset >= |s| then []
    else if |s| - offset < limit then s[offset..]
    else s[offset..offset + limit]
  }

  /** Ids strictly increase along the table: the store hands them out in order. */
  predicate IdsIncreasing(rows: seq<PaymentCard>)
  {
    forall i, j :: 0 <= i < j < |rows| ==> rows[i].id < rows[j].id
  }

  /** Filtering keeps the table order, so the selected ids still increase. */
  lemma {:induction false} WhereKeepsOrder(rows: seq<PaymentCard>, f: Filter)
    requires IdsIncreasing(rows)
    ensures IdsIncreasing(Where(rows, f))
  {
    if rows != [] {
      var tail := rows[1..];
      TailIncreasing(rows);
      WhereKeepsOrder(tail, f);
      var rest := Where(tail, f);
      if Selects(f, rows[0]) {
        HeadBelowTail(rows);
        ConsIncreasing(rows[0], rest);
      }
    }
  }

  /** Dropping the first row keeps the ids increasing. */
  lemma TailIncreasing(rows: seq<PaymentCard>)
    requires rows != [] && IdsIncreasing(rows)
    ensures IdsIncreasing(rows[1..])
  {
    var tail := rows[1..];
    forall i, j | 0 <= i < j < |tail| ensures tail[i].id < tail[j].id {
      assert tail[i] == rows[i + 1] && tail[j] == rows[j + 1];
    }
  }

  /** In an increasing table the first row's id is below every later row's id. */
  lemma HeadBelowTail(rows: seq<PaymentCard>)
    requires rows != [] && IdsIncreasing(rows)
    ensures forall c :: c in rows[1..] ==> rows[0].id < c.id
  {
    forall c | c in rows[1..] ensures rows[0].id < c.id {
      var k :| 0 <= k < |rows[1..]| && rows[1..][k] == c;
      assert rows[k + 1] == c;
    }
  }

  /** A row placed before increasing rows of larger ids keeps them increasing. */
  lemma ConsIncreasing(first: PaymentCard, rest: seq<PaymentCard>)
    requires IdsIncreasing(rest)
    requires forall c :: c in rest ==> first.id < c.id
    ensures IdsIncreasing([first] + rest)
  {
    var r := [first] + rest;
    forall i, j | 0 <= i < j < |r| ensures r[i].id < r[j].id {
      assert r[j] == rest[j - 1];
      if i > 0 {
        assert r[i] == rest[i - 1];
      }
    }
  }

  /** A page of an increasing table is increasing. */
  lemma PageKeepsOrder(s: seq<PaymentCard>, offset: nat, limit: nat)
    requires IdsIncreasing(s)
    ensures IdsIncreasing(Page(s, offset, limit))
  {
    var r := Page(s, offset, limit);
    forall i, j | 0 <= i < j < |r| ensures r[i].id < r[j].id {
      assert r[i] == s[offset + i] && r[j] == s[offset + j];
    }
  }

  /** `MarkAsNotifiedAsync(ids)`: every row whose id is listed gets its flag set;
      nothing else about any row changes. */
  function MarkNotified(rows: seq<PaymentCard>, ids: seq<int>): (r: seq<PaymentCard>)
    ensures |r| == |rows|
    ensures forall i :: 0 <= i < |r| ==> r[i].notificationSent == (rows[i].notificationSent || rows[i].id in ids)
    ensures forall i :: 0 <= i < |r| ==> r[i].(notificationSent := rows[i].notificationSent) == rows[i]
  {
    seq(|rows|, i requires 0 <= i < |rows| => if rows[i].id in ids then rows[i].(notificationSent := true) else rows[i])
  }

  /** Marking the same ids twice changes nothing the second time. */
  lemma MarkNotifiedIdempotent(rows: seq<PaymentCard>, ids: seq<int>)
    ensures MarkNotified(MarkNotified(rows, ids), ids) == MarkNotified(rows, ids)
  {
    var once := MarkNotified(rows, ids);
    var twice := MarkNotified(once, ids);
    forall i | 0 <= i < |rows| ensures twice[i] == once[i] {
      assert once[i].id == rows[i].id;
    }
  }

  /** Once marked, a card is no longer pending in any month. */
  lemma MarkedNotPending(rows: seq<PaymentCard>, ids: seq<int>, year: int, month: int)
    ensures forall c :: c in Where(MarkNotified(rows, ids), Pending(year, month)) ==> c.id !in ids
  {
    var r := MarkNotified(rows, ids);
    forall c | c in Where(r, Pending(year, month)) ensures c.id !in ids {
      var i :| 0 <= i < |r| && r[i] == c;
      assert r[i].id == rows[i].id;
    }
  }

  /** The in-memory table: its rows in insertion order and the next id to hand out. */
  class InMemoryCardStore {
    var rows: seq<PaymentCard>
    var nextId: int

    ghost predicate Valid()
      reads this
    {
      nextId >= 1 && IdsIncreasing(rows) && forall i :: 0 <= i < |rows| ==> 1 <= rows[i].id < nextId
    }

    constructor ()
      ensures Valid() && rows == [] && nextId == 1
    {
      rows := [];
      nextId := 1;
    }

    /** `AddCardAsync`: stores the card under a fresh id and returns that id. */
    method AddCard(card: PaymentCard) returns (id: int)
      requires Valid()
      modifies this
      ensures Valid()
      ensures id == old(nextId) && nextId == old(nextId) + 1
      ensures rows == old(rows) + [card.(id := id)]
    {
      id := nextId;
      rows := rows + [card.(id := id)];
      nextId := nextId + 1;
    }

    /** `GetCardsByDateRangeAsync`: a page of the cards expiring between the
        two inclusive bounds. */
    method GetCardsByDateRange(startYear: int, startMonth: int, endYear: int, endMonth: int, offset: nat, limit: nat)
      returns (cards: seq<PaymentCard>)
      ensures cards == Page(Where(rows, DateRange(startYear, startMonth, endYear, endMonth)), offset, limit)
    {
      cards := Page(Where(rows, DateRange(startYear, startMonth, endYear, endMonth)), offset, limit);
    }

    /** `GetPendingNotificationsAsync`: a page of this month's un-notified
        cards, the month being the one of `now` with a two-digit year. */
    method GetPendingNotifications(now: DateTime, offset: nat, limit: nat) returns (cards: seq<PaymentCard>)
      ensures cards == Page(Where(rows, Pending(now.year % 100, now.month)), offset, limit)
    {
      cards := Page(Where(rows, Pending(now.year % 100, now.month)), offset, limit);
    }

    /** `GetCardsToNotifyAsync`: at most `limit` un-notified cards of the month. */
    method GetCardsToNotify(year: int, month: int, limit: nat) returns (cards: seq<PaymentCard>)
      ensures cards == Page(Where(rows, Pending(year, month)), 0, limit)
    {
      cards := Page(Where(rows, Pending(year, month)), 0, limit);
    }

    /** `MarkAsNotifiedAsync`: sets the flag of every listed card. */
    method MarkAsNotified(ids: seq<int>)
      requires Valid()
      modifies this
      ensures Valid()
      ensures rows == MarkNotified(old(rows), ids) && nextId == old(nextId)
    {
      rows := MarkNotified(rows, ids);
    }
  }
}
