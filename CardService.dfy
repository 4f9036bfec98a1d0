/** `CardService`: card ingestion and the fetch, publish, acknowledge cycle,
    over the in-memory store and the oracle publisher. The clock is a
    parameter (`now`), SHA-256 is the parameter `sha256`, and a ghost trace
    records, in order, the publish calls a cycle makes and its bulk update of
    the notification flags (not the fetch, which changes nothing). */
module CardService {
  import opened Common
  import opened Models
  import CardValidator
  import CardTokenGenerator
  import opened CardStore
  import opened Publisher

  /** The batch size used when none is configured. */
  const DefaultBatchSize: nat := 10

  /** One call the notification cycle makes on a collaborator. */
  datatype Event = Send(cardId: int) | Mark(cardIds: seq<int>)

  /** The card `AddCardAsync` builds before it is stored (its id still 0), or
      the argument error it throws. The mask is checked first, so a bad mask
      wins over a bad date; the mask error names the `cardMask` parameter and
      the date error names none. */
  function NewCard(mask: string, year: int, month: int, cardType: string, firstName: string, lastName: string,
                   now: DateTime, sha256: string -> CardTokenGenerator.Digest): (r: Result<PaymentCard>)
    ensures r.Ok? <==> CardValidator.IsValidCardMask(mask).Pass? && CardValidator.IsValidExpirationDate(year, month).Pass?
    ensures CardValidator.IsValidCardMask(mask).Fail? ==>
      r == Err(ArgumentError(CardValidator.IsValidCardMask(mask).errorMessage, Some("cardMask")))
    ensures CardValidator.IsValidCardMask(mask).Pass? && CardValidator.IsValidExpirationDate(year, month).Fail? ==>
      r == Err(ArgumentError(CardValidator.IsValidExpirationDate(year, month).errorMessage, None))
    ensures r.Ok? ==>
      && CardTokenGenerator.Generate(mask, cardType, sha256) == Ok(r.value.cardToken)
      && r.value == PaymentCard(0, r.value.cardToken, mask, year, month, cardType, firstName, lastName, false, now)
  {
    match CardValidator.IsValidCardMask(mask)
    case Fail(m) => Err(ArgumentError(m, Some("cardMask")))
    case Pass =>
      match CardValidator.IsValidExpirationDate(year, month)
      case Fail(m) => Err(ArgumentError(m, None))
      case Pass =>
        CardTokenGenerator.ValidMaskYieldsToken(mask, cardType, sha256);
        var token := CardTokenGenerator.Generate(mask, cardType, sha256).value;
        Ok(PaymentCard(0, token, mask, year, month, cardType, firstName, lastName, false, now))
  }

  /** A mask that is too short is refused with the mask's reason whatever the
      date, "4111" being the instance the unit tests use. */
  lemma ShortMaskWinsOverDate(year: int, month: int, cardType: string, firstName: string, lastName: string,
                              now: DateTime, sha256: string -> CardTokenGenerator.Digest)
    ensures NewCard("4111", year, month, cardType, firstName, lastName, now, sha256)
      == Err(ArgumentError(CardValidator.TooFewDigits, Some("cardMask")))
  {
    CardValidator.InvalidMaskExamples();
  }

  /** A well-formed masked number with a date outside the supported range is
      refused with the date's reason, which names no parameter. */
  lemma BadDateRefused(first6: string, middle: string, last4: string, year: int, month: int, cardType: string,
                       firstName: string, lastName: string, now: DateTime, sha256: string -> CardTokenGenerator.Digest)
    requires |first6| == 6 && |last4| == 4
    requires forall i :: 0 <= i < 6 ==> '0' <= first6[i] <= '9'
    requires forall i :: 0 <= i < 4 ==> '0' <= last4[i] <= '9'
    requires forall i :: 0 <= i < |middle| ==> CardValidator.IsMaskFiller(middle[i])
    requires !CardValidator.IsValidDate(year, month)
    ensures NewCard(first6 + middle + last4, year, month, cardType, firstName, lastName, now, sha256)
      == Err(ArgumentError(CardValidator.IsValidExpirationDate(year, month).errorMessage, None))
  {
    CardValidator.MaskedNumberIsValid(first6, middle, last4);
  }

  /** A well-formed masked number with a supported date is accepted: the card
      keeps every input, is not notified yet and carries a 64-digit token. */
  lemma GoodCardAccepted(first6: string, middle: string, last4: string, year: int, month: int, cardType: string,
                         firstName: string, lastName: string, now: DateTime, sha256: string -> CardTokenGenerator.Digest)
    requires |first6| == 6 && |last4| == 4
    requires forall i :: 0 <= i < 6 ==> '0' <= first6[i] <= '9'
    requires forall i :: 0 <= i < 4 ==> '0' <= last4[i] <= '9'
    requires forall i :: 0 <= i < |middle| ==> CardValidator.IsMaskFiller(middle[i])
    requires CardValidator.IsValidDate(year, month)
    ensures var r := NewCard(first6 + middle + last4, year, month, cardType, firstName, lastName, now, sha256);
      && r.Ok?
      && r.value.cardMask == first6 + middle + last4 && r.value.cardType == cardType
      && r.value.expirationYear == year && r.value.expirationMonth == month
      && r.value.userFirstName == firstName && r.value.userLastName == lastName
      && !r.value.notificationSent && |r.value.cardToken| == 64
  {
    CardValidator.MaskedNumberIsValid(first6, middle, last4);
  }

  /** The ids of some cards, in the same order. */
  function Ids(cards: seq<PaymentCard>): (r: seq<int>)
    ensures |r| == |cards| && forall i :: 0 <= i < |r| ==> r[i] == cards[i].id
  {
    seq(|cards|, i requires 0 <= i < |cards| => cards[i].id)
  }

  /** One `Send` event per card, in order. */
  function Sends(cards: seq<PaymentCard>): (r: seq<Event>)
    ensures |r| == |cards| && forall i :: 0 <= i < |r| ==> r[i] == Send(cards[i].id)
  {
    seq(|cards|, i requires 0 <= i < |cards| => Send(cards[i].id))
  }

  /** Sending one more card of a batch adds its `Send` event. */
  lemma SendsPrefix(cards: seq<PaymentCard>, i: nat)
    requires i < |cards|
    ensures Sends(cards[..i + 1]) == Sends(cards[..i]) + [Send(cards[i].id)]
  {
  }

  /** The cards one cycle fetches: at most `batchSize` of the un-notified cards
      expiring in the month of `now`, with a two-digit year. */
  function Batch(rows: seq<PaymentCard>, now: DateTime, batchSize: nat): (r: seq<PaymentCard>)
    ensures |r| <= batchSize
    ensures forall c :: c in r ==> c in rows && c.expirationYear == now.year % 100 && c.expirationMonth == now.month && !c.notificationSent
  {
    Page(Where(rows, Pending(now.year % 100, now.month)), 0, batchSize)
  }

  /** The calls a cycle makes on a non-empty batch when the publisher's calls
      start at number `from`: a send per card up to and including the first
      that fails; a mark of the whole batch only when none fails. */
  function CycleEvents(batch: seq<PaymentCard>, outcomes: seq<bool>, from: nat): (r: seq<Event>)
    ensures r == [] <==> batch == []
    ensures batch != [] ==> |r| == FirstRejection(outcomes, from, |batch|) + 1
    ensures forall i :: 0 <= i < |r| - 1 ==> r[i] == Send(batch[i].id)
  {
    if batch == [] then []
    else
      var k := FirstRejection(outcomes, from, |batch|);
      if k == |batch| then Sends(batch) + [Mark(Ids(batch))] else Sends(batch[..k + 1])
  }

  /** The table after a cycle: the batch marked when every send succeeded,
      untouched otherwise. */
  function CycleRows(rows: seq<PaymentCard>, batch: seq<PaymentCard>, outcomes: seq<bool>, from: nat): (r: seq<PaymentCard>)
    ensures |r| == |rows|
    ensures forall i :: 0 <= i < |r| ==> r[i].(notificationSent := rows[i].notificationSent) == rows[i]
    ensures forall i :: 0 <= i < |r| && rows[i].notificationSent ==> r[i].notificationSent
  {
    if batch != [] && FirstRejection(outcomes, from, |batch|) == |batch| then MarkNotified(rows, Ids(batch)) else rows
  }

  /** An empty batch makes no call at all and leaves the table alone. */
  lemma EmptyBatchNoCalls(rows: seq<PaymentCard>, outcomes: seq<bool>, from: nat)
    ensures CycleEvents([], outcomes, from) == [] && CycleRows(rows, [], outcomes, from) == rows
  {
  }

  /** When every send succeeds: one send per card in fetch order, then exactly
      one mark, carrying exactly the fetched ids; no mark comes before the last send. */
  lemma SuccessfulCycleSendsThenMarks(batch: seq<PaymentCard>, outcomes: seq<bool>, from: nat)
    requires batch != [] && FirstRejection(outcomes, from, |batch|) == |batch|
    ensures |CycleEvents(batch, outcomes, from)| == |batch| + 1
    ensures forall i :: 0 <= i < |batch| ==> CycleEvents(batch, outcomes, from)[i] == Send(batch[i].id)
    ensures forall i :: 0 <= i < |batch| + 1 ==> (CycleEvents(batch, outcomes, from)[i].Mark? <==> i == |batch|)
    ensures CycleEvents(batch, outcomes, from)[|batch|] == Mark(Ids(batch))
  {
    var e := CycleEvents(batch, outcomes, from);
    assert e == Sends(batch) + [Mark(Ids(batch))];
  }

  /** When send `k` fails: the cards before it and that card were sent, in
      order, no card after it, and there is no mark. With distinct ids no later
      card shows up among the sends. */
  lemma FailedCycleStopsAtFailure(batch: seq<PaymentCard>, outcomes: seq<bool>, from: nat)
    requires FirstRejection(outcomes, from, |batch|) < |batch|
    requires IdsIncreasing(batch)
    ensures var k := FirstRejection(outcomes, from, |batch|);
      && |CycleEvents(batch, outcomes, from)| == k + 1
      && CycleEvents(batch, outcomes, from)[k] == Send(batch[k].id)
      && !Accepts(outcomes, from + k)
      && (forall i :: 0 <= i <= k ==> CycleEvents(batch, outcomes, from)[i] == Send(batch[i].id))
      && (forall j :: k < j < |batch| ==> Send(batch[j].id) !in CycleEvents(batch, outcomes, from))
      && (forall m :: m in CycleEvents(batch, outcomes, from) ==> m.Send?)
  {
    var k := FirstRejection(outcomes, from, |batch|);
    var e := CycleEvents(batch, outcomes, from);
    assert e == Sends(batch[..k + 1]);
  }

  /** A cycle that fails leaves every card's flag as it was. */
  lemma FailedCycleMarksNothing(rows: seq<PaymentCard>, batch: seq<PaymentCard>, outcomes: seq<bool>, from: nat)
    requires FirstRejection(outcomes, from, |batch|) < |batch|
    ensures CycleRows(rows, batch, outcomes, from) == rows
  {
  }

  /** After a successful cycle no card of the batch is pending any more, so
      the next cycle does not send it again; cards outside the batch keep
      their flags. */
  lemma SuccessfulCycleNotRepeated(rows: seq<PaymentCard>, now: DateTime, batchSize: nat, outcomes: seq<bool>, from: nat)
    requires Batch(rows, now, batchSize) != []
    requires FirstRejection(outcomes, from, |Batch(rows, now, batchSize)|) == |Batch(rows, now, batchSize)|
    ensures var batch := Batch(rows, now, batchSize);
      var after := CycleRows(rows, batch, outcomes, from);
      && (forall c :: c in Batch(after, now, batchSize) ==> c.id !in Ids(batch))
      && (forall i :: 0 <= i < |rows| && rows[i].id !in Ids(batch) ==> after[i] == rows[i])
  {
    var batch := Batch(rows, now, batchSize);
    var after := MarkNotified(rows, Ids(batch));
    MarkedNotPending(rows, Ids(batch), now.year % 100, now.month);
    forall i | 0 <= i < |rows| && rows[i].id !in Ids(batch) ensures after[i] == rows[i] {
      assert after[i].(notificationSent := rows[i].notificationSent) == rows[i];
    }
  }

  /** The fetched batch comes out of the table in id order, so its ids are distinct. */
  lemma BatchIdsIncreasing(rows: seq<PaymentCard>, now: DateTime, batchSize: nat)
    requires IdsIncreasing(rows)
    ensures IdsIncreasing(Batch(rows, now, batchSize))
  {
    var f := Pending(now.year % 100, now.month);
    WhereKeepsOrder(rows, f);
    PageKeepsOrder(Where(rows, f), 0, batchSize);
  }

  class CardService {
    const store: InMemoryCardStore
    const producer: KafkaProducer
    const batchSize: nat
    /** The sends and the flag updates of the notification cycles, oldest first. */
    ghost var trace: seq<Event>

    ghost predicate Valid()
      reads store
    {
      store.Valid()
    }

    constructor (store: InMemoryCardStore, producer: KafkaProducer, batchSize: nat)
      requires store.Valid()
      ensures Valid()
      ensures this.store == store && this.producer == producer && this.batchSize == batchSize
      ensures trace == []
    {
      this.store := store;
      this.producer := producer;
      this.batchSize := batchSize;
      trace := [];
    }

    /** The constructor with the `batchSize` argument left out. */
    constructor WithDefaultBatchSize(store: InMemoryCardStore, producer: KafkaProducer)
      requires store.Valid()
      ensures Valid()
      ensures this.store == store && this.producer == producer && batchSize == DefaultBatchSize
      ensures trace == []
    {
      this.store := store;
      this.producer := producer;
      batchSize := DefaultBatchSize;
      trace := [];
    }

    /** `AddCardAsync`: on an argument error nothing is stored; otherwise the
        card is stored once, and the returned card carries the store's id. */
    method AddCard(mask: string, year: int, month: int, cardType: string, firstName: string, lastName: string,
                   now: DateTime, sha256: string -> CardTokenGenerator.Digest)
      returns (r: Result<PaymentCard>)
      requires Valid()
      modifies store
      ensures Valid()
      ensures NewCard(mask, year, month, cardType, firstName, lastName, now, sha256).Err? ==>
        && r == NewCard(mask, year, month, cardType, firstName, lastName, now, sha256)
        && store.rows == old(store.rows) && store.nextId == old(store.nextId)
      ensures NewCard(mask, year, month, cardType, firstName, lastName, now, sha256).Ok? ==>
        && r == Ok(NewCard(mask, year, month, cardType, firstName, lastName, now, sha256).value.(id := old(store.nextId)))
        && store.rows == old(store.rows) + [r.value] && store.nextId == old(store.nextId) + 1
    {
      var maskCheck := CardValidator.IsValidCardMask(mask);
      if maskCheck.Fail? {
        return Err(ArgumentError(maskCheck.errorMessage, Some("cardMask")));
      }
      var dateCheck := CardValidator.IsValidExpirationDate(year, month);
      if dateCheck.Fail? {
        return Err(ArgumentError(dateCheck.errorMessage, None));
      }
      CardTokenGenerator.ValidMaskYieldsToken(mask, cardType, sha256);
      var token := CardTokenGenerator.Generate(mask, cardType, sha256).value;
      var card := PaymentCard(0, token, mask, year, month, cardType, firstName, lastName, false, now);
      var cardId := store.AddCard(card);
      card := card.(id := cardId);
      return Ok(card);
    }

    /** `GetCardsByDateRangeAsync`: exactly what the store returns. */
    method GetCardsByDateRange(startYear: int, startMonth: int, endYear: int, endMonth: int, offset: nat, limit: nat)
      returns (cards: seq<PaymentCard>)
      ensures cards == Page(Where(store.rows, DateRange(startYear, startMonth, endYear, endMonth)), offset, limit)
    {
      cards := store.GetCardsByDateRange(startYear, startMonth, endYear, endMonth, offset, limit);
    }

    /** `GetPendingNotificationsAsync`: exactly what the store returns. */
    method GetPendingNotifications(now: DateTime, offset: nat, limit: nat) returns (cards: seq<PaymentCard>)
      ensures cards == Page(Where(store.rows, Pending(now.year % 100, now.month)), offset, limit)
    {
      cards := store.GetPendingNotifications(now, offset, limit);
    }

    /** The `foreach` of the cycle: sends the cards in order and stops at the
        first failing send. `sent` is the number of cards sent successfully. */
    method SendEach(cards: seq<PaymentCard>) returns (sent: nat)
      modifies this, producer
      ensures sent == FirstRejection(producer.outcomes, old(producer.calls), |cards|)
      ensures producer.calls == old(producer.calls) + (if sent == |cards| then sent else sent + 1)
      ensures producer.delivered == old(producer.delivered) + cards[..sent]
      ensures trace == old(trace) + Sends(cards[..if sent == |cards| then sent else sent + 1])
    {
      ghost var from := producer.calls;
      ghost var k := FirstRejection(producer.outcomes, from, |cards|);
      sent := 0;
      while sent < |cards|
        invariant 0 <= sent <= k
        invariant producer.calls == from + sent
        invariant producer.delivered == old(producer.delivered) + cards[..sent]
        invariant trace == old(trace) + Sends(cards[..sent])
      {
        SendsPrefix(cards, sent);
        trace := trace + [Send(cards[sent].id)];
        var ok := producer.SendCardExpirationNotification(cards[sent]);
        if !ok {
          assert sent == k;
          return;
        }
        assert cards[..sent + 1] == cards[..sent] + [cards[sent]];
        sent := sent + 1;
      }
    }

    /** `ProcessCardNotificationsAsync`: fetch a batch, send each card in order,
        and mark the batch only after every send succeeded. A failing send
        ends the cycle with the error for that card. */
    method ProcessCardNotifications(now: DateTime) returns (r: Result<()>)
      requires Valid()
      modifies this, store, producer
      ensures Valid()
      ensures var batch := Batch(old(store.rows), now, batchSize);
        var k := FirstRejection(producer.outcomes, old(producer.calls), |batch|);
        && trace == old(trace) + CycleEvents(batch, producer.outcomes, old(producer.calls))
        && store.rows == CycleRows(old(store.rows), batch, producer.outcomes, old(producer.calls))
        && store.nextId == old(store.nextId)
        && producer.delivered == old(producer.delivered) + batch[..k]
        && producer.calls == old(producer.calls) + (if batch == [] then 0 else if k == |batch| then k else k + 1)
        && (r.Ok? <==> k == |batch|)
        && (r.Err? ==> r.error == PublishFailed(batch[k].id))
    {
      var cards := store.GetCardsToNotify(now.year % 100, now.month, batchSize);
      if cards == [] {
        return Ok(());
      }
      var sent := SendEach(cards);
      if sent < |cards| {
        return Err(PublishFailed(cards[sent].id));
      }
      assert cards[..sent] == cards;
      trace := trace + [Mark(Ids(cards))];
      store.MarkAsNotified(Ids(cards));
      return Ok(());
    }
  }
}
