/** `PaymentCard`, the record the store keeps for each card, and the clock
    value the core reads. */
module Models {

  /** `DateTime.UtcNow`, read only for its year, its month, and as the opaque
      `CreatedAt` stamp. A `DateTime` year is at least 1. */
  datatype DateTime = DateTime(year: nat, month: nat, ticks: int)

  /** One stored card. `id` is the store-assigned `long` (0 until stored). */
  datatype PaymentCard = PaymentCard(
    id: int,
    cardToken: string,
    cardMask: string,
    expirationYear: int,
    expirationMonth: int,
    cardType: string,
    userFirstName: string,
    userLastName: string,
    notificationSent: bool,
    createdAt: DateTime)

  /** The words of `PaymentCard`'s public property names, in declaration order. */
  const PropertyWords: seq<seq<string>> := [
    ["Id"], ["Card", "Token"], ["Card", "Mask"], ["Expiration", "Year"], ["Expiration", "Month"],
    ["Card", "Type"], ["User", "First", "Name"], ["User", "Last", "Name"], ["Notification", "Sent"],
    ["Created", "At"]]

  /** The property names as reflection lists them: each one its words run
      together (`UserFirstName`, `NotificationSent`, ...). */
  const PropertyNames: seq<string> := seq(|PropertyWords|, i requires 0 <= i < |PropertyWords| => Concat(PropertyWords[i]))

  /** The words of a PascalCase name run together. */
  function Concat(words: seq<string>): string
  {
    if words == [] then [] else words[0] + Concat(words[1..])
  }
}
