# CardExpirationNotifier core, modelled in Dafny

CardExpirationNotifier stores masked payment cards and runs a notification
cycle every `intervalSeconds` (60 by default). Each cycle fetches up to
`batchSize` un-notified cards that expire in the current month and notifies
their owners. This project models the core of
that service:

- **Card validation** (`CardValidator`). The expiration-date range check tests
  the month before the year. The mask check refuses blank masks first. It then
  strips `*`, `X`, `x` and spaces, and requires at least ten remaining characters.
- **Card tokens** (`CardTokenGenerator`). The generator strips `*`, `X` and `x`
  but keeps spaces. It takes the first six and the last four remaining
  characters and appends the card type. It hashes that string with SHA-256 and
  renders the digest as lower-case hexadecimal.
- **The service** (`CardService`), as a class over an in-memory card store
  (`CardStore.InMemoryCardStore`) and a publisher (`Publisher.KafkaProducer`):
  - card ingestion;
  - the two pass-through queries;
  - the notification cycle: fetch a batch, send each card in order, and mark
    the batch as notified only when every send succeeded.

  A ghost trace records each cycle's sends and its flag update (not the
  fetch, which changes nothing).
- **The partition migration** (`PartitionMigration`). `Up` creates the
  `payment_cards` table, its two indexes and one range partition per month
  from 2020-01 to 2035-12. Each partition has a half-open bound, and December
  wraps to January of the next year. `Down` drops the same partitions and then
  the table.
- **The snake_case column mapper** (`SnakeCaseColumnMapper`):
  - `ToSnakeCase`: the regex replacement `([a-z])([A-Z])` → `$1_$2`, then
    lower-casing;
  - `GetMember`: the first property whose snake_case name equals the column
    name, ignoring case.

Inputs that the source reads from its environment are parameters here:
- `now` is the value of `DateTime.UtcNow`;
- `sha256` is SHA-256 over the UTF-8 bytes of a string, known only to give 32 bytes;
- the publisher's oracle says which publish calls fail.

Every `Execute.Sql` call of the migration becomes one `Statement` value. A
thrown `ArgumentException` becomes `Err(ArgumentError(message, paramName))`. A
publish failure that the cycle rethrows becomes `Err(PublishFailed(cardId))`.

Two behaviours of the code are easy to misread:

- With exactly ten characters left after stripping, the code's first-six and
  last-four slices do not overlap. The hash input is the whole stripped mask
  followed by the card type (`CardTokenGenerator.TenCharacterMaskHashedWhole`).
- `AddCardAsync` checks the mask before the date. A card with both a bad mask
  and a bad date is refused with the mask's reason (`CardService.NewCard`,
  `CardService.ShortMaskWinsOverDate`), not the date's.

## Model

| member | source | states |
|---|---|---|
| Text.Without | CardExpirationNotifier/CardExpirationNotifier.BusinessLogic/Validators/CardValidator.cs:40 | `Replace(c, "")` never lengthens the string and leaves no `c` in it |
| Text.WithoutAppend | CardExpirationNotifier/CardExpirationNotifier.BusinessLogic/Validators/CardValidator.cs:40 | removing a character distributes over concatenation, so the kept characters stay in order |
| Text.WithoutAbsent | CardExpirationNotifier/CardExpirationNotifier.BusinessLogic/Utils/CardTokenGenerator.cs:12 | removing a character that does not occur changes nothing |
| Text.LowerChar | CardExpirationNotifier/CardExpirationNotifier.DataStorage/Infrastructure/SnakeCaseColumnMapper.cs:49 | upper-case ASCII letters map to their lower-case letter (code + 32); every other character is kept |
| Text.Lower | CardExpirationNotifier/CardExpirationNotifier.DataStorage/Infrastructure/SnakeCaseColumnMapper.cs:49 | `ToLower` keeps the length and lower-cases each character on its own (`LowerChar` at every position), leaving no upper-case ASCII letter |
| Text.IsWhiteSpace | CardExpirationNotifier/CardExpirationNotifier.BusinessLogic/Validators/CardValidator.cs:33 | space and tab are white space; no white-space character is a letter or a digit |
| Text.IsNullOrWhiteSpace | CardExpirationNotifier/CardExpirationNotifier.BusinessLogic/Validators/CardValidator.cs:33 | the empty mask is blank; a blank mask holds no letter or digit |
| Text.EqualsIgnoreCase | CardExpirationNotifier/CardExpirationNotifier.DataStorage/Infrastructure/SnakeCaseColumnMapper.cs:36 | `OrdinalIgnoreCase` equality holds exactly when the lengths agree and the characters agree after lower-casing, position by position |
| Text.LowerIdempotent | CardExpirationNotifier/CardExpirationNotifier.DataStorage/Infrastructure/SnakeCaseColumnMapper.cs:49 | lower-casing twice is lower-casing once |
| CardValidator.IsValidExpirationDate | CardExpirationNotifier/CardExpirationNotifier.BusinessLogic/Validators/CardValidator.cs:10-27 | passes exactly for year 20..35 and month 1..12; a bad month gives the month message whatever the year; a good month with a bad year gives the unsupported-year message |
| CardValidator.StripMask | CardExpirationNotifier/CardExpirationNotifier.BusinessLogic/Validators/CardValidator.cs:40 | stripping `*`, `X`, `x` and space never lengthens the mask |
| CardValidator.IsValidCardMask | CardExpirationNotifier/CardExpirationNotifier.BusinessLogic/Validators/CardValidator.cs:29-49 | a blank mask gives the empty-mask message first; otherwise fewer than ten stripped characters give the too-few-digits message; it passes exactly when neither applies |
| CardValidator.StripMaskAppend | CardExpirationNotifier/CardExpirationNotifier.BusinessLogic/Validators/CardValidator.cs:40 | stripping distributes over concatenation |
| CardValidator.StripMaskFiller | CardExpirationNotifier/CardExpirationNotifier.BusinessLogic/Validators/CardValidator.cs:40 | a single filler character strips to nothing |
| CardValidator.StripMaskIgnoresFiller | CardExpirationNotifier/CardExpirationNotifier.BusinessLogic/Validators/CardValidator.cs:40 | inserting one filler character anywhere leaves the stripped mask unchanged |
| CardValidator.VerdictIgnoresFillerChoice | CardExpirationNotifier/CardExpirationNotifier.BusinessLogic/Validators/CardValidator.cs:39-46 | two non-blank masks that differ only in which filler stands at one position get the same verdict |
| CardValidator.VerdictIgnoresFillerPosition | CardExpirationNotifier/CardExpirationNotifier.BusinessLogic/Validators/CardValidator.cs:39-46 | adding or removing one filler character keeps a non-blank mask's verdict |
| CardValidator.ExpirationDateExamples | CardExpirationNotifier/CardExpirationNotifier.BusinessLogic/Validators/CardValidator.cs:14-26 | (20,1), (35,12) and (25,6) pass; (19,12) and (36,1) fail on the year; (25,0) and (25,13) fail on the month |
| CardValidator.StripMaskKeepsDigits | CardExpirationNotifier/CardExpirationNotifier.BusinessLogic/Validators/CardValidator.cs:40 | a mask with no filler is kept whole |
| CardValidator.StripMaskDropsFiller | CardExpirationNotifier/CardExpirationNotifier.BusinessLogic/Validators/CardValidator.cs:40 | a mask made only of filler strips to nothing |
| CardValidator.MaskedNumberIsValid | CardExpirationNotifier/CardExpirationNotifier.BusinessLogic/Validators/CardValidator.cs:29-49 | six digits, any filler middle and four digits strip to the ten digits, and the mask passes |
| CardValidator.MaskedNumberStrips | CardExpirationNotifier/CardExpirationNotifier.BusinessLogic/Validators/CardValidator.cs:40 | six non-filler characters, a filler middle and four non-filler characters strip to the ten non-filler characters |
| CardValidator.InvalidMaskExamples | CardExpirationNotifier/CardExpirationNotifier.BusinessLogic/Validators/CardValidator.cs:33-46 | "4111" fails with too-few-digits; "" and "   " fail with empty-mask |
| CardTokenGenerator.StripFiller | CardExpirationNotifier/CardExpirationNotifier.BusinessLogic/Utils/CardTokenGenerator.cs:12 | stripping `*`, `X` and `x` never lengthens the mask |
| CardTokenGenerator.HashInput | CardExpirationNotifier/CardExpirationNotifier.BusinessLogic/Utils/CardTokenGenerator.cs:12-27 | the argument error (with parameter name `cardMask`) exactly when fewer than ten characters remain; otherwise the first six, then the last four stripped characters, then the card type |
| CardTokenGenerator.Nibble | CardExpirationNotifier/CardExpirationNotifier.BusinessLogic/Utils/CardTokenGenerator.cs:30 | each half of a byte is a value 0..15 |
| CardTokenGenerator.ToHexString | CardExpirationNotifier/CardExpirationNotifier.BusinessLogic/Utils/CardTokenGenerator.cs:30 | `Convert.ToHexString` gives two digits per byte |
| CardTokenGenerator.RenderDigit | CardExpirationNotifier/CardExpirationNotifier.BusinessLogic/Utils/CardTokenGenerator.cs:30 | rendered digit `i` has the value of the high (even `i`) or the low (odd `i`) four bits of byte `i / 2` |
| CardTokenGenerator.RenderPair | CardExpirationNotifier/CardExpirationNotifier.BusinessLogic/Utils/CardTokenGenerator.cs:30 | the two digits rendered for a byte read back as that byte |
| CardTokenGenerator.HexValue | CardExpirationNotifier/CardExpirationNotifier.BusinessLogic/Utils/CardTokenGenerator.cs:30 | the value of a hexadecimal digit is 0..15 |
| CardTokenGenerator.ParseHex | CardExpirationNotifier/CardExpirationNotifier.BusinessLogic/Utils/CardTokenGenerator.cs:30 | reading hexadecimal back yields one byte per two digits |
| CardTokenGenerator.LowerHexDigit | CardExpirationNotifier/CardExpirationNotifier.BusinessLogic/Utils/CardTokenGenerator.cs:30 | lower-casing an upper-case hex digit gives the lower-case digit of the same value |
| CardTokenGenerator.RenderShape | CardExpirationNotifier/CardExpirationNotifier.BusinessLogic/Utils/CardTokenGenerator.cs:30 | `ToHexString(hash).ToLowerInvariant()` is two lower-case hex digits per byte |
| CardTokenGenerator.RenderRoundTrip | CardExpirationNotifier/CardExpirationNotifier.BusinessLogic/Utils/CardTokenGenerator.cs:30 | the rendering can be read back into the digest, so it loses nothing |
| CardTokenGenerator.Render | CardExpirationNotifier/CardExpirationNotifier.BusinessLogic/Utils/CardTokenGenerator.cs:30 | the hex rendering has two characters per digest byte and no upper-case letter |
| CardTokenGenerator.Generate | CardExpirationNotifier/CardExpirationNotifier.BusinessLogic/Utils/CardTokenGenerator.cs:8-31 | throws the argument error exactly when fewer than ten characters remain after stripping; otherwise returns 64 lower-case hex digits that read back as `sha256` of the hash input |
| CardTokenGenerator.CardTypeChangesToken | CardExpirationNotifier/CardExpirationNotifier.BusinessLogic/Utils/CardTokenGenerator.cs:27-30 | for a valid mask, two card types whose hash inputs `sha256` tells apart give different tokens |
| CardTokenGenerator.TokenDeterminesDigest | CardExpirationNotifier/CardExpirationNotifier.BusinessLogic/Utils/CardTokenGenerator.cs:28-30 | two tokens are equal exactly when their digests are equal |
| CardTokenGenerator.TokenDependsOnlyOnEnds | CardExpirationNotifier/CardExpirationNotifier.BusinessLogic/Utils/CardTokenGenerator.cs:12-27 | masks with the same first six and last four stripped characters give the same hash input and token |
| CardTokenGenerator.TenCharacterMaskHashedWhole | CardExpirationNotifier/CardExpirationNotifier.BusinessLogic/Utils/CardTokenGenerator.cs:17-27 | with exactly ten stripped characters the slices do not overlap and the whole stripped mask is hashed |
| CardTokenGenerator.CardTypeChangesHashInput | CardExpirationNotifier/CardExpirationNotifier.BusinessLogic/Utils/CardTokenGenerator.cs:27 | for a fixed mask, different card types give different hash inputs |
| CardTokenGenerator.ValidMaskYieldsToken | CardExpirationNotifier/CardExpirationNotifier.BusinessLogic/Services/CardService.cs:31-43 | a mask the validator accepts never makes the generator throw |
| CardTokenGenerator.StripFillerAppend | CardExpirationNotifier/CardExpirationNotifier.BusinessLogic/Utils/CardTokenGenerator.cs:12 | the generator's stripping distributes over concatenation |
| CardTokenGenerator.StripFillerOfMaskedNumber | CardExpirationNotifier/CardExpirationNotifier.BusinessLogic/Utils/CardTokenGenerator.cs:12 | six digits, a middle of `*`/`X`/`x` and four digits strip to the ten digits |
| CardTokenGenerator.StripFillerKeeps | CardExpirationNotifier/CardExpirationNotifier.BusinessLogic/Utils/CardTokenGenerator.cs:12 | a string without `*`, `X`, `x` is kept whole |
| CardTokenGenerator.StripFillerDrops | CardExpirationNotifier/CardExpirationNotifier.BusinessLogic/Utils/CardTokenGenerator.cs:12 | a string of `*`, `X`, `x` strips to nothing |
| CardTokenGenerator.SameTokenForAnyFiller | CardExpirationNotifier/CardExpirationNotifier.BusinessLogic/Utils/CardTokenGenerator.cs:8-31 | "411111******1111" and "411111XXXXXX1111" (and any such pair) hash first6 + last4 + type and give the same token |
| CardTokenGenerator.ShortMaskRejected | CardExpirationNotifier/tests/CardExpirationNotifier.UnitTests/CardTokenGeneratorTests.cs:88-101 | "4111" gives the argument error |
| PartitionMigration.Digit | CardExpirationNotifier/CardExpirationNotifier.DataStorage/Migrations/001_CreatePartitionedCardTable.cs:42 | a decimal digit character has the value it stands for |
| PartitionMigration.Decimal | CardExpirationNotifier/CardExpirationNotifier.DataStorage/Migrations/001_CreatePartitionedCardTable.cs:42 | a number's decimal rendering has at least one digit |
| PartitionMigration.D2 | CardExpirationNotifier/CardExpirationNotifier.DataStorage/Migrations/001_CreatePartitionedCardTable.cs:42 | the `D2` format gives at least two digits |
| PartitionMigration.D2TwoDigits | CardExpirationNotifier/CardExpirationNotifier.DataStorage/Migrations/001_CreatePartitionedCardTable.cs:42 | below 100, `D2` is the tens digit then the units digit |
| PartitionMigration.PartitionName | CardExpirationNotifier/CardExpirationNotifier.DataStorage/Migrations/001_CreatePartitionedCardTable.cs:42 | every name starts with `payment_cards_y`; below 100 the year and month are written as exactly two digits each |
| PartitionMigration.PartitionFor | CardExpirationNotifier/CardExpirationNotifier.DataStorage/Migrations/001_CreatePartitionedCardTable.cs:42-54 | the partition of a month starts at that month, contains it, and ends at the next month |
| PartitionMigration.PartitionNameInjective | CardExpirationNotifier/CardExpirationNotifier.DataStorage/Migrations/001_CreatePartitionedCardTable.cs:42 | two-digit (year, month) pairs with equal partition names are equal |
| PartitionMigration.NextMonth | CardExpirationNotifier/CardExpirationNotifier.DataStorage/Migrations/001_CreatePartitionedCardTable.cs:43-50 | the following month, with December wrapping to January of the next year; always exactly one month later |
| PartitionMigration.BeforeIsIndexOrder | CardExpirationNotifier/CardExpirationNotifier.DataStorage/Migrations/001_CreatePartitionedCardTable.cs:24 | row-wise comparison of (year, month) bounds is the order of month indices |
| PartitionMigration.Layout | CardExpirationNotifier/CardExpirationNotifier.DataStorage/Migrations/001_CreatePartitionedCardTable.cs:38-57 | the loops create 192 partitions |
| PartitionMigration.KeyAt | CardExpirationNotifier/CardExpirationNotifier.DataStorage/Migrations/001_CreatePartitionedCardTable.cs:38-40 | the loops visit the key of position `k` at month index 240 + `k`: year 20..35, month 1..12 |
| PartitionMigration.LayoutAt | CardExpirationNotifier/CardExpirationNotifier.DataStorage/Migrations/001_CreatePartitionedCardTable.cs:38-57 | the partition for (year, month) is at position (year - 20) * 12 + month - 1 |
| PartitionMigration.CreateStep | CardExpirationNotifier/CardExpirationNotifier.DataStorage/Migrations/001_CreatePartitionedCardTable.cs:42-55 | the partition one pass of the inner `Up` loop builds for (year, month) is the next one of the layout |
| PartitionMigration.DropStep | CardExpirationNotifier/CardExpirationNotifier.DataStorage/Migrations/001_CreatePartitionedCardTable.cs:65-69 | the name one pass of the inner `Down` loop drops is that of the next partition of the layout |
| PartitionMigration.CreateAll | CardExpirationNotifier/CardExpirationNotifier.DataStorage/Migrations/001_CreatePartitionedCardTable.cs:52-55 | one create statement per partition |
| PartitionMigration.DropAll | CardExpirationNotifier/CardExpirationNotifier.DataStorage/Migrations/001_CreatePartitionedCardTable.cs:68 | one drop statement per partition |
| PartitionMigration.Up | CardExpirationNotifier/CardExpirationNotifier.DataStorage/Migrations/001_CreatePartitionedCardTable.cs:8-58 | the parent table with its ten columns, the two indexes, then the partitions of the layout, year-major |
| PartitionMigration.Down | CardExpirationNotifier/CardExpirationNotifier.DataStorage/Migrations/001_CreatePartitionedCardTable.cs:60-74 | a drop per partition of the layout, in creation order, then the parent table |
| PartitionMigration.LayoutContiguous | CardExpirationNotifier/CardExpirationNotifier.DataStorage/Migrations/001_CreatePartitionedCardTable.cs:38-57 | the partitions run from (20,1) to (36,1) exclusive, each ending where the next begins |
| PartitionMigration.LayoutStep | CardExpirationNotifier/CardExpirationNotifier.DataStorage/Migrations/001_CreatePartitionedCardTable.cs:43-54 | the partition after any position starts at the upper bound of the one before it |
| PartitionMigration.LayoutNamesDistinct | CardExpirationNotifier/CardExpirationNotifier.DataStorage/Migrations/001_CreatePartitionedCardTable.cs:42 | each name is payment_cards_yYY_mMM of its lower bound, and no two partitions share a name |
| PartitionMigration.DistinctNamesAt | CardExpirationNotifier/CardExpirationNotifier.DataStorage/Migrations/001_CreatePartitionedCardTable.cs:42 | partitions at two different positions have different names |
| PartitionMigration.ValidDateInExactlyOnePartition | CardExpirationNotifier/CardExpirationNotifier.DataStorage/Migrations/001_CreatePartitionedCardTable.cs:38-57 | every date the validator accepts lies in exactly one partition, the one at (year - 20) * 12 + month - 1 |
| PartitionMigration.DownUndoesUp | CardExpirationNotifier/CardExpirationNotifier.DataStorage/Migrations/001_CreatePartitionedCardTable.cs:60-74 | `Down` drops exactly the partitions `Up` created, in the same order, and the parent table last |
| SnakeCaseColumnMapper.Underscored | CardExpirationNotifier/CardExpirationNotifier.DataStorage/Infrastructure/SnakeCaseColumnMapper.cs:49 | inserting `_` at each lower-to-upper boundary lengthens the name by the number of boundaries |
| SnakeCaseColumnMapper.RegexReplaceIsUnderscored | CardExpirationNotifier/CardExpirationNotifier.DataStorage/Infrastructure/SnakeCaseColumnMapper.cs:49 | the left-to-right, non-overlapping regex replacement inserts `_` at every boundary and nowhere else |
| SnakeCaseColumnMapper.RegexReplace | CardExpirationNotifier/CardExpirationNotifier.DataStorage/Infrastructure/SnakeCaseColumnMapper.cs:49 | inserting underscores never shortens the name |
| SnakeCaseColumnMapper.ToSnakeCase | CardExpirationNotifier/CardExpirationNotifier.DataStorage/Infrastructure/SnakeCaseColumnMapper.cs:46-50 | the snake_case name is no shorter than the property name and holds no upper-case ASCII letter |
| SnakeCaseColumnMapper.Matches | CardExpirationNotifier/CardExpirationNotifier.DataStorage/Infrastructure/SnakeCaseColumnMapper.cs:36 | a property matches a column exactly when the lower-cased column name equals the property's snake_case name |
| SnakeCaseColumnMapper.ToSnakeCaseSpec | CardExpirationNotifier/CardExpirationNotifier.DataStorage/Infrastructure/SnakeCaseColumnMapper.cs:46-50 | `ToSnakeCase` is the underscored name lower-cased, one character longer per boundary, with no upper-case ASCII letter |
| SnakeCaseColumnMapper.NoBoundaryUnchanged | CardExpirationNotifier/CardExpirationNotifier.DataStorage/Infrastructure/SnakeCaseColumnMapper.cs:49 | a name without boundaries gets no underscore |
| SnakeCaseColumnMapper.ToSnakeCaseIdempotent | CardExpirationNotifier/CardExpirationNotifier.DataStorage/Infrastructure/SnakeCaseColumnMapper.cs:46-50 | applying `ToSnakeCase` twice is applying it once |
| SnakeCaseColumnMapper.UnderscoredAppend | CardExpirationNotifier/CardExpirationNotifier.DataStorage/Infrastructure/SnakeCaseColumnMapper.cs:49 | underscoring a concatenation adds one `_` at the junction exactly when the left part ends lower-case and the right starts upper-case |
| SnakeCaseColumnMapper.WordUnderscored | CardExpirationNotifier/CardExpirationNotifier.DataStorage/Infrastructure/SnakeCaseColumnMapper.cs:49 | a capitalised word has no boundary inside it |
| SnakeCaseColumnMapper.AppendWord | CardExpirationNotifier/CardExpirationNotifier.DataStorage/Infrastructure/SnakeCaseColumnMapper.cs:49 | appending a capitalised word to a lower-case-ending name adds one `_` before it |
| SnakeCaseColumnMapper.FindProperty | CardExpirationNotifier/CardExpirationNotifier.DataStorage/Infrastructure/SnakeCaseColumnMapper.cs:35-36 | `FirstOrDefault` finds the first matching property at or after the start, and none exactly when none matches |
| SnakeCaseColumnMapper.GetMember | CardExpirationNotifier/CardExpirationNotifier.DataStorage/Infrastructure/SnakeCaseColumnMapper.cs:33-44 | null exactly when no property matches; otherwise a map of the given column to the first matching property |
| SnakeCaseColumnMapper.LowerAppend | CardExpirationNotifier/CardExpirationNotifier.DataStorage/Infrastructure/SnakeCaseColumnMapper.cs:49 | lower-casing distributes over concatenation |
| SnakeCaseColumnMapper.PascalCaseToSnakeCase | CardExpirationNotifier/CardExpirationNotifier.DataStorage/Infrastructure/SnakeCaseColumnMapper.cs:46-50 | a PascalCase name of capitalised words becomes the lower-cased words joined by `_` |
| SnakeCaseColumnMapper.UnderscoredWords | CardExpirationNotifier/CardExpirationNotifier.DataStorage/Infrastructure/SnakeCaseColumnMapper.cs:49 | underscoring a run of capitalised words puts one `_` between consecutive words |
| SnakeCaseColumnMapper.PrependWord | CardExpirationNotifier/CardExpirationNotifier.DataStorage/Infrastructure/SnakeCaseColumnMapper.cs:49 | a capitalised word before a name that starts upper-case is lower-cased and followed by one `_` |
| SnakeCaseColumnMapper.PropertyWordsAreWords | CardExpirationNotifier/CardExpirationNotifier.DataStorage/Models/PaymentCard.cs:5-14 | every `PaymentCard` property name is a run of capitalised words |
| SnakeCaseColumnMapper.JoinUserFirstName | CardExpirationNotifier/CardExpirationNotifier.DataStorage/Migrations/001_CreatePartitionedCardTable.cs:12-22 | the words `User`, `First`, `Name` lower-cased and joined by `_` are the column `user_first_name`; the sibling lemmas `JoinId`, `JoinCardToken` and so on do the same for the other columns |
| SnakeCaseColumnMapper.ColumnsAreJoins | CardExpirationNotifier/CardExpirationNotifier.DataStorage/Migrations/001_CreatePartitionedCardTable.cs:12-22 | each table column is the words of the property at the same position, lower-cased and joined by `_` |
| SnakeCaseColumnMapper.LowerKeepsLower | CardExpirationNotifier/CardExpirationNotifier.DataStorage/Infrastructure/SnakeCaseColumnMapper.cs:36 | lower-casing a string without upper-case letters changes nothing |
| SnakeCaseColumnMapper.PropertySnakeNames | CardExpirationNotifier/CardExpirationNotifier.DataStorage/Infrastructure/SnakeCaseColumnMapper.cs:46-50 | `ToSnakeCase` of each `PaymentCard` property is the table column at the same position (`UserFirstName` to `user_first_name`, and so on) |
| SnakeCaseColumnMapper.ColumnsDistinct | CardExpirationNotifier/CardExpirationNotifier.DataStorage/Migrations/001_CreatePartitionedCardTable.cs:12-22 | the table's ten column names are distinct |
| SnakeCaseColumnMapper.ColumnMapsToProperty | CardExpirationNotifier/CardExpirationNotifier.DataStorage/Infrastructure/SnakeCaseColumnMapper.cs:33-44 | every column of the table is mapped to exactly the property it was named after |
| CardStore.Selects | CardExpirationNotifier/CardExpirationNotifier.DataStorage/Repositories/ICardRepository.cs:8-10 | a card that a pending filter selects is not yet notified and expires neither before nor after the filter's (year, month) |
| CardStore.Where | CardExpirationNotifier/CardExpirationNotifier.DataStorage/Repositories/ICardRepository.cs:8-10 | a query returns exactly the stored cards its filter selects, never more rows than the table has |
| CardStore.Page | CardExpirationNotifier/CardExpirationNotifier.DataStorage/Repositories/ICardRepository.cs:8-10 | `OFFSET`/`LIMIT`: the rows from position `offset` on, at most `limit` of them, in order |
| CardStore.WhereKeepsOrder | CardExpirationNotifier/CardExpirationNotifier.DataStorage/Repositories/ICardRepository.cs:8-10 | filtering keeps the table's id order |
| CardStore.PageKeepsOrder | CardExpirationNotifier/CardExpirationNotifier.DataStorage/Repositories/ICardRepository.cs:8-10 | paging keeps the id order |
| CardStore.MarkNotified | CardExpirationNotifier/CardExpirationNotifier.DataStorage/Repositories/ICardRepository.cs:11 | the flag is set exactly on the listed ids; every other field and every other row is unchanged |
| CardStore.MarkNotifiedIdempotent | CardExpirationNotifier/CardExpirationNotifier.DataStorage/Repositories/ICardRepository.cs:11 | marking the same ids again changes nothing |
| CardStore.MarkedNotPending | CardExpirationNotifier/CardExpirationNotifier.DataStorage/Repositories/ICardRepository.cs:9-11 | a marked card is pending in no month |
| CardStore.InMemoryCardStore.constructor | CardExpirationNotifier/CardExpirationNotifier.DataStorage/Repositories/ICardRepository.cs:5-12 | the store starts empty and hands out id 1 first |
| CardStore.InMemoryCardStore.AddCard | CardExpirationNotifier/CardExpirationNotifier.DataStorage/Repositories/ICardRepository.cs:7 | stores the card once under the next id, returns that id, and keeps the ids increasing |
| CardStore.InMemoryCardStore.GetCardsByDateRange | CardExpirationNotifier/CardExpirationNotifier.DataStorage/Repositories/ICardRepository.cs:8 | a page of the cards between the inclusive (year, month) bounds |
| CardStore.InMemoryCardStore.GetPendingNotifications | CardExpirationNotifier/CardExpirationNotifier.DataStorage/Repositories/CardRepository.cs:65-73 | a page of the un-notified cards of the month of `now`, with a two-digit year |
| CardStore.InMemoryCardStore.GetCardsToNotify | CardExpirationNotifier/CardExpirationNotifier.DataStorage/Repositories/ICardRepository.cs:10 | at most `limit` un-notified cards of the given month |
| CardStore.InMemoryCardStore.MarkAsNotified | CardExpirationNotifier/CardExpirationNotifier.DataStorage/Repositories/ICardRepository.cs:11 | the table becomes `MarkNotified` of the old table; no id is handed out |
| Publisher.FirstRejection | CardExpirationNotifier/CardExpirationNotifier.BusinessLogic/Services/IKafkaProducerService.cs:7 | of `n` calls, how many succeed before the first failure: all calls before it succeed, and the call at it fails |
| Publisher.FirstRejectionAllAccepted | CardExpirationNotifier/CardExpirationNotifier.BusinessLogic/Services/IKafkaProducerService.cs:7 | a run of calls none of which fails is accepted in full |
| Publisher.ExhaustedOracleAccepts | CardExpirationNotifier/CardExpirationNotifier.BusinessLogic/Services/IKafkaProducerService.cs:7 | once the oracle is used up, every call succeeds |
| Publisher.KafkaProducer.constructor | CardExpirationNotifier/CardExpirationNotifier.BusinessLogic/Services/IKafkaProducerService.cs:5-8 | a publisher with no calls made and nothing delivered |
| Publisher.KafkaProducer.SendCardExpirationNotification | CardExpirationNotifier/CardExpirationNotifier.BusinessLogic/Services/IKafkaProducerService.cs:7 | succeeds as the oracle says, counts the call, and records the card only when it was delivered |
| CardService.NewCard | CardExpirationNotifier/CardExpirationNotifier.BusinessLogic/Services/CardService.cs:28-56 | mask first: a bad mask gives its message with parameter `cardMask`, even when the date is bad too; then a bad date gives its message with no parameter; otherwise the card has every input, flag false, the `now` stamp, and the generator's token |
| CardService.ShortMaskWinsOverDate | CardExpirationNotifier/CardExpirationNotifier.BusinessLogic/Services/CardService.cs:31-34 | "4111" is refused with the too-few-digits reason whatever the date |
| CardService.BadDateRefused | CardExpirationNotifier/CardExpirationNotifier.BusinessLogic/Services/CardService.cs:37-40 | a well-formed mask with an unsupported date is refused with the date's reason |
| CardService.GoodCardAccepted | CardExpirationNotifier/CardExpirationNotifier.BusinessLogic/Services/CardService.cs:43-56 | a well-formed mask with a supported date gives a card with every input kept, flag false and a 64-digit token |
| CardService.Ids | CardExpirationNotifier/CardExpirationNotifier.BusinessLogic/Services/CardService.cs:108 | `Select(c => c.Id)`: the ids in batch order |
| CardService.Sends | CardExpirationNotifier/CardExpirationNotifier.BusinessLogic/Services/CardService.cs:95-106 | one send event per card, in order |
| CardService.SendsPrefix | CardExpirationNotifier/CardExpirationNotifier.BusinessLogic/Services/CardService.cs:95-106 | sending one more card adds exactly its send event |
| CardService.Batch | CardExpirationNotifier/CardExpirationNotifier.BusinessLogic/Services/CardService.cs:78-85 | at most `batchSize` stored cards, all expiring in the month of `now` (two-digit year) and not yet notified |
| CardService.EmptyBatchNoCalls | CardExpirationNotifier/CardExpirationNotifier.BusinessLogic/Services/CardService.cs:87-91 | an empty batch means no send, no mark, no change to the table |
| CardService.SuccessfulCycleSendsThenMarks | CardExpirationNotifier/CardExpirationNotifier.BusinessLogic/Services/CardService.cs:95-109 | when every send succeeds: one send per card in fetch order, then exactly one mark, with exactly the fetched ids, after the last send |
| CardService.FailedCycleStopsAtFailure | CardExpirationNotifier/CardExpirationNotifier.BusinessLogic/Services/CardService.cs:95-106 | when send k fails: cards 0..k were sent in order, no later card, and no mark |
| CardService.FailedCycleMarksNothing | CardExpirationNotifier/CardExpirationNotifier.BusinessLogic/Services/CardService.cs:101-105 | a failed cycle leaves every flag as it was |
| CardService.SuccessfulCycleNotRepeated | CardExpirationNotifier/CardExpirationNotifier.BusinessLogic/Services/CardService.cs:108-109 | after a successful cycle no batch card is fetched again, and cards outside the batch are unchanged |
| CardService.BatchIdsIncreasing | CardExpirationNotifier/CardExpirationNotifier.BusinessLogic/Services/CardService.cs:84-85 | the fetched batch has distinct, increasing ids |
| CardService.CycleEvents | CardExpirationNotifier/CardExpirationNotifier.BusinessLogic/Services/CardService.cs:87-109 | no events exactly when the batch is empty; otherwise one event more than the number of sends that succeeded, and every event but the last is the send of the batch card at that position |
| CardService.CycleRows | CardExpirationNotifier/CardExpirationNotifier.BusinessLogic/Services/CardService.cs:87-109 | the table keeps its rows and every field but the notification flag, and no flag is ever cleared |
| CardService.CardService.constructor | CardExpirationNotifier/CardExpirationNotifier.BusinessLogic/Services/CardService.cs:16-26 | given a valid store, keeps the store, the publisher and the batch size, starts with an empty trace, and is valid |
| CardService.CardService.WithDefaultBatchSize | CardExpirationNotifier/CardExpirationNotifier.BusinessLogic/Services/CardService.cs:16-26 | the constructor with the default batch size of 10 |
| CardService.CardService.AddCard | CardExpirationNotifier/CardExpirationNotifier.BusinessLogic/Services/CardService.cs:28-64 | on an argument error nothing is stored; otherwise the card is stored exactly once and returned with the store's id, and the next id advances by one |
| CardService.CardService.GetCardsByDateRange | CardExpirationNotifier/CardExpirationNotifier.BusinessLogic/Services/CardService.cs:66-69 | exactly the store's date-range page; nothing changes |
| CardService.CardService.GetPendingNotifications | CardExpirationNotifier/CardExpirationNotifier.BusinessLogic/Services/CardService.cs:71-74 | exactly the store's pending page; nothing changes |
| CardService.CardService.SendEach | CardExpirationNotifier/CardExpirationNotifier.BusinessLogic/Services/CardService.cs:95-106 | sends the cards in order until the first failure; the count of successful sends is `FirstRejection` of the oracle |
| CardService.CardService.ProcessCardNotifications | CardExpirationNotifier/CardExpirationNotifier.BusinessLogic/Services/CardService.cs:76-112 | fetches `Batch` with year `now.year % 100`; the trace grows by `CycleEvents`; the table becomes `CycleRows`; the error names the first card whose send failed |

## Left out

- SHA-256 and UTF-8 encoding are library calls. `sha256` is a parameter known only to return 32 bytes, so collision resistance is not modelled.
- The production repository's SQL is not part of this model. The in-memory store's query semantics are assumed, based on the partition key and the notification index of the migration: inclusive (year, month) ranges; un-notified cards of one month; insertion order; ids handed out from 1 upward.
- Offsets, limits and the batch size are `nat`. The negative values that C# `int` allows, and that PostgreSQL refuses, are not modelled.
- The store's ids are unbounded integers; 64-bit overflow of `BIGSERIAL` is not modelled.
- `DateTime.UtcNow` is the parameter `now`. `CreatedAt` is kept as an opaque value.
- String lengths are counted in Unicode scalar values, whereas .NET counts UTF-16 code units. A mask whose characters lie outside the Basic Multilingual Plane is measured differently. For example, `"41111\U0001F600111"` has length 10 in C# and 9 here, so `IsValidCardMask` (CardValidator.cs:42) and `GenerateToken` (CardTokenGenerator.cs:17-20) accept it while the model refuses it.
- The in-memory store never fails. The database exceptions that `AddCardAsync` (CardService.cs:58) and `MarkAsNotifiedAsync` (CardService.cs:109) propagate cannot occur here. Column limits such as `card_mask VARCHAR(20)` in the migration are not modelled either, so an over-long mask is stored instead of refused.
- `null` strings are not modelled. A null mask gets the same verdict as the empty mask.
- `ToLower`, `ToLowerInvariant` and `OrdinalIgnoreCase` are modelled on ASCII letters only. Culture-sensitive lower-casing of other letters is not modelled.
- Reflection in the column mapper (`FindConstructor`, `FindExplicitConstructor`, `GetConstructorParameter`, `SimpleMemberMap`, property types) is not modelled. `GetMember` works on the list of property names.
- The migration's SQL text, its primary key, its index definitions and PostgreSQL's partition routing are not modelled. Each statement is a value naming what it creates or drops.
- Logging, async scheduling and the Kafka client and its JSON serialisation are not modelled. The publisher's contract is only "completes or throws", decided by the oracle.
- NotificationBackgroundService.cs (the periodic scheduler that catches a cycle's exception and runs the next cycle later), CardsController.cs, the request/response types and Program.cs are not part of this model.
