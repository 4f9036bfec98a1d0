/** Migration 1, `CreatePartitionedCardTable`: the `payment_cards` table is
    range-partitioned on (expiration_year, expiration_month), with one
    partition per month from 2020-01 to 2035-12. Each `Execute.Sql` call
    becomes one `Statement` appended to the migration's output; the SQL text
    itself is not modelled. */
module PartitionMigration {
  import CardValidator

  const ParentTable: string := "payment_cards"
  const FirstYear: int := 20
  const LastYear: int := 35
  /** Sixteen years of twelve months. */
  const PartitionCount: int := 192

  /** The columns of `payment_cards`, in table order. */
  const Columns: seq<string> := [
    "id", "card_token", "card_mask", "expiration_year", "expiration_month",
    "card_type", "user_first_name", "user_last_name", "notification_sent", "created_at"]

  /** A value of the partition key (expiration_year, expiration_month). */
  datatype YearMonth = YearMonth(year: int, month: int)

  /** PostgreSQL compares multi-column range bounds row-wise: year first, then month. */
  predicate Before(a: YearMonth, b: YearMonth)
  {
    a.year < b.year || (a.year == b.year && a.month < b.month)
  }

  /** A partition holds the keys from `lower` (inclusive) to `upper` (exclusive). */
  datatype Partition = Partition(name: string, lower: YearMonth, upper: YearMonth)

  predicate Contains(p: Partition, key: YearMonth)
  {
    !Before(key, p.lower) && Before(key, p.upper)
  }

  datatype Statement =
    | CreateParentTable(columns: seq<string>)
    | CreateIndex(name: string)
    | CreatePartition(partition: Partition)
    | DropTableIfExists(name: string)

  function Digit(n: int): (c: char)
    requires 0 <= n < 10
    ensures '0' <= c <= '9' && c as int - '0' as int == n
  {
    "0123456789"[n]
  }

  /** The decimal digits of `n`, most significant first. */
  function Decimal(n: nat): (r: string)
    ensures |r| >= 1
    decreases n
  {
    if n < 10 then [Digit(n)] else Decimal(n / 10) + [Digit(n % 10)]
  }

  /** The `{n:D2}` format: at least two digits, zero-padded. */
  function D2(n: nat): (r: string)
    ensures |r| >= 2
  {
    if n < 10 then "0" + Decimal(n) else Decimal(n)
  }

  /** Below 100, `D2` gives the tens digit then the units digit. */
  lemma D2TwoDigits(n: nat)
    requires n < 100
    ensures D2(n) == [Digit(n / 10), Digit(n % 10)]
  {
    if n >= 10 {
      assert Decimal(n) == Decimal(n / 10) + [Digit(n % 10)];
    }
  }

  /** `$"payment_cards_y{year:D2}_m{month:D2}"`. */
  function PartitionName(year: nat, month: nat): (r: string)
    ensures |r| >= 21 && r[..15] == "payment_cards_y"
    ensures year < 100 && month < 100 ==>
      r == "payment_cards_y" + [Digit(year / 10), Digit(year % 10)] + "_m" + [Digit(month / 10), Digit(month % 10)]
  {
    var name := "payment_cards_y" + D2(year) + "_m" + D2(month);
    if year < 100 && month < 100 then
      D2TwoDigits(year);
      D2TwoDigits(month);
      name
    else name
  }

  /** Two-digit years and months are read back from a partition name, so two
      partitions of different months never share a name. */
  lemma PartitionNameInjective(y1: nat, m1: nat, y2: nat, m2: nat)
    requires y1 < 100 && m1 < 100 && y2 < 100 && m2 < 100
    requires PartitionName(y1, m1) == PartitionName(y2, m2)
    ensures y1 == y2 && m1 == m2
  {
    var n1, n2 := PartitionName(y1, m1), PartitionName(y2, m2);
    D2TwoDigits(y1); D2TwoDigits(m1); D2TwoDigits(y2); D2TwoDigits(m2);
    assert n1[15] == Digit(y1 / 10) && n1[16] == Digit(y1 % 10);
    assert n2[15] == Digit(y2 / 10) && n2[16] == Digit(y2 % 10);
    assert n1[19] == Digit(m1 / 10) && n1[20] == Digit(m1 % 10);
    assert n2[19] == Digit(m2 / 10) && n2[20] == Digit(m2 % 10);
  }

  /** The upper bound of partition (year, month): the following month, with
      December wrapping to January of the next year. */
  function NextMonth(year: int, month: int): (r: YearMonth)
    requires 1 <= month <= 12
    ensures 1 <= r.month <= 12
    ensures month < 12 ==> r == YearMonth(year, month + 1)
    ensures month == 12 ==> r == YearMonth(year + 1, 1)
    ensures MonthIndex(r) == MonthIndex(YearMonth(year, month)) + 1
  {
    var nextMonth := month + 1;
    if nextMonth > 12 then YearMonth(year + 1, 1) else YearMonth(year, nextMonth)
  }

  /** Months counted from year 0, January: a key with a month in 1..12 is
      ordered exactly as its index. */
  function MonthIndex(key: YearMonth): int
  {
    key.year * 12 + key.month - 1
  }

  lemma BeforeIsIndexOrder(a: YearMonth, b: YearMonth)
    requires 1 <= a.month <= 12 && 1 <= b.month <= 12
    ensures Before(a, b) <==> MonthIndex(a) < MonthIndex(b)
  {
  }

  /** The partition the loop body builds for (year, month). */
  function PartitionFor(year: nat, month: int): (p: Partition)
    requires 1 <= month <= 12
    ensures p.lower == YearMonth(year, month) && Contains(p, p.lower)
    ensures MonthIndex(p.upper) == MonthIndex(p.lower) + 1
  {
    Partition(PartitionName(year, month), YearMonth(year, month), NextMonth(year, month))
  }

  /** The key of layout position `k`: year-major, months 1..12 within a year.
      Its month index is position `k` counted from (20, 1). */
  function KeyAt(k: int): (key: YearMonth)
    requires 0 <= k < PartitionCount
    ensures FirstYear <= key.year <= LastYear && 1 <= key.month <= 12
    ensures MonthIndex(key) == FirstYear * 12 + k
  {
    YearMonth(FirstYear + k / 12, 1 + k % 12)
  }

  /** Keys with months in 1..12 are equal exactly when their month indexes are. */
  lemma MonthIndexInjective(a: YearMonth, b: YearMonth)
    requires 1 <= a.month <= 12 && 1 <= b.month <= 12
    requires MonthIndex(a) == MonthIndex(b)
    ensures a == b
  {
  }

  /** The partitions in the order the loops create them. */
  function Layout(): (r: seq<Partition>)
    ensures |r| == PartitionCount
  {
    seq(PartitionCount, k requires 0 <= k < PartitionCount => PartitionFor(KeyAt(k).year, KeyAt(k).month))
  }

  /** Position (year - 20) * 12 + (month - 1) of the layout holds partition (year, month). */
  lemma LayoutAt(year: int, month: int)
    requires FirstYear <= year <= LastYear && 1 <= month <= 12
    ensures 0 <= (year - FirstYear) * 12 + month - 1 < PartitionCount
    ensures Layout()[(year - FirstYear) * 12 + month - 1] == PartitionFor(year, month)
  {
    var k := (year - FirstYear) * 12 + month - 1;
    var key := KeyAt(k);
    MonthIndexInjective(key, YearMonth(year, month));
    assert Layout()[k] == PartitionFor(key.year, key.month);
  }

  /** The statements that create the partitions of `ps`, in order. */
  function CreateAll(ps: seq<Partition>): (r: seq<Statement>)
    ensures |r| == |ps|
  {
    seq(|ps|, i requires 0 <= i < |ps| => CreatePartition(ps[i]))
  }

  /** The statements that drop the partitions of `ps`, in order. */
  function DropAll(ps: seq<Partition>): (r: seq<Statement>)
    ensures |r| == |ps|
  {
    seq(|ps|, i requires 0 <= i < |ps| => DropTableIfExists(ps[i].name))
  }

  /** Appending the next element of `all` to a prefix of `all` gives the next prefix. */
  lemma PrefixStep<T>(done: seq<T>, all: seq<T>, x: T)
    requires |done| < |all| && done == all[..|done|] && x == all[|done|]
    ensures done + [x] == all[..|done| + 1]
  {
  }

  /** One step of `Up`'s inner loop: the partition built for (year, month)
      is the next one of the layout. */
  lemma CreateStep(created: seq<Statement>, year: int, month: int, partition: Partition)
    requires FirstYear <= year <= LastYear && 1 <= month <= 12
    requires |created| == (year - FirstYear) * 12 + month - 1
    requires created == CreateAll(Layout())[..|created|]
    requires partition == Partition(PartitionName(year, month), YearMonth(year, month),
                                    if month + 1 > 12 then YearMonth(year + 1, 1) else YearMonth(year, month + 1))
    ensures created + [CreatePartition(partition)] == CreateAll(Layout())[..|created| + 1]
  {
    LayoutAt(year, month);
    PrefixStep(created, CreateAll(Layout()), CreatePartition(partition));
  }

  /** One step of `Down`'s inner loop: the name dropped for (year, month) is
      the one of the next partition of the layout. */
  lemma DropStep(dropped: seq<Statement>, year: int, month: int)
    requires FirstYear <= year <= LastYear && 1 <= month <= 12
    requires |dropped| == (year - FirstYear) * 12 + month - 1
    requires dropped == DropAll(Layout())[..|dropped|]
    ensures dropped + [DropTableIfExists(PartitionName(year, month))] == DropAll(Layout())[..|dropped| + 1]
  {
    LayoutAt(year, month);
    PrefixStep(dropped, DropAll(Layout()), DropTableIfExists(PartitionName(year, month)));
  }

  /** `Up`: the parent table, its two indexes, then one partition per month
      from (20, 1) to (35, 12), year-major. */
  method Up() returns (statements: seq<Statement>)
    ensures statements == [CreateParentTable(Columns),
                           CreateIndex("idx_payment_cards_card_token"),
                           CreateIndex("idx_payment_cards_notification")]
                          + CreateAll(Layout())
  {
    var header := [CreateParentTable(Columns),
                   CreateIndex("idx_payment_cards_card_token"),
                   CreateIndex("idx_payment_cards_notification")];
    ghost var all := CreateAll(Layout());
    var created: seq<Statement> := [];
    var year := FirstYear;
    while year <= LastYear
      invariant FirstYear <= year <= LastYear + 1
      invariant |created| == (year - FirstYear) * 12
      invariant created == all[..|created|]
    {
      var month := 1;
      while month <= 12
        invariant 1 <= month <= 13
        invariant |created| == (year - FirstYear) * 12 + month - 1
        invariant created == all[..|created|]
      {
        var partitionName := PartitionName(year, month);
        var nextMonth := month + 1;
        var nextYear := year;
        if nextMonth > 12 {
          nextMonth := 1;
          nextYear := nextYear + 1;
        }
        var partition := Partition(partitionName, YearMonth(year, month), YearMonth(nextYear, nextMonth));
        CreateStep(created, year, month, partition);
        created := created + [CreatePartition(partition)];
        month := month + 1;
      }
      year := year + 1;
    }
    assert created == all;
    statements := header + created;
  }

  /** `Down`: every partition dropped, in creation order, then the parent table. */
  method Down() returns (statements: seq<Statement>)
    ensures statements == DropAll(Layout()) + [DropTableIfExists(ParentTable)]
  {
    ghost var all := DropAll(Layout());
    var dropped: seq<Statement> := [];
    var year := FirstYear;
    while year <= LastYear
      invariant FirstYear <= year <= LastYear + 1
      invariant |dropped| == (year - FirstYear) * 12
      invariant dropped == all[..|dropped|]
    {
      var month := 1;
      while month <= 12
        invariant 1 <= month <= 13
        invariant |dropped| == (year - FirstYear) * 12 + month - 1
        invariant dropped == all[..|dropped|]
      {
        var partitionName := PartitionName(year, month);
        DropStep(dropped, year, month);
        dropped := dropped + [DropTableIfExists(partitionName)];
        month := month + 1;
      }
      year := year + 1;
    }
    assert dropped == all;
    statements := dropped + [DropTableIfExists(ParentTable)];
  }

  /** Consecutive partitions are contiguous, and together they run from
      (20, 1) up to (36, 1) exclusive. */
  lemma LayoutContiguous()
    ensures Layout()[0].lower == YearMonth(20, 1)
    ensures Layout()[PartitionCount - 1].upper == YearMonth(36, 1)
    ensures forall k :: 0 <= k < PartitionCount - 1 ==> Layout()[k].upper == Layout()[k + 1].lower
  {
    LayoutAt(FirstYear, 1);
    LayoutAt(LastYear, 12);
    forall k | 0 <= k < PartitionCount - 1
      ensures Layout()[k].upper == Layout()[k + 1].lower
    {
      LayoutStep(k);
    }
  }

  /** The partition after position `k` starts where the one at `k` ends. */
  lemma LayoutStep(k: int)
    requires 0 <= k < PartitionCount - 1
    ensures Layout()[k].upper == Layout()[k + 1].lower
  {
    var here, next := KeyAt(k), KeyAt(k + 1);
    assert Layout()[k].upper == NextMonth(here.year, here.month);
    MonthIndexInjective(NextMonth(here.year, here.month), next);
  }

  /** Every partition name has the form payment_cards_yYY_mMM, and no two partitions share one. */
  lemma LayoutNamesDistinct()
    ensures forall k :: 0 <= k < PartitionCount ==>
      Layout()[k].name == PartitionName(Layout()[k].lower.year, Layout()[k].lower.month)
    ensures forall i, j :: 0 <= i < j < PartitionCount ==> Layout()[i].name != Layout()[j].name
  {
    forall i, j | 0 <= i < j < PartitionCount
      ensures Layout()[i].name != Layout()[j].name
    {
      DistinctNamesAt(i, j);
    }
  }

  lemma DistinctNamesAt(i: int, j: int)
    requires 0 <= i < j < PartitionCount
    ensures Layout()[i].name != Layout()[j].name
  {
    var a, b := KeyAt(i), KeyAt(j);
    assert Layout()[i].name == PartitionName(a.year, a.month);
    assert Layout()[j].name == PartitionName(b.year, b.month);
    if PartitionName(a.year, a.month) == PartitionName(b.year, b.month) {
      PartitionNameInjective(a.year, a.month, b.year, b.month);
    }
  }

  /** Every expiration date the validator accepts falls in exactly one
      partition: the one at position (year - 20) * 12 + (month - 1). */
  lemma ValidDateInExactlyOnePartition(year: int, month: int)
    requires CardValidator.IsValidExpirationDate(year, month) == CardValidator.Pass
    ensures var k := (year - FirstYear) * 12 + month - 1;
      0 <= k < PartitionCount && Contains(Layout()[k], YearMonth(year, month))
    ensures forall j :: 0 <= j < PartitionCount && Contains(Layout()[j], YearMonth(year, month)) ==>
      j == (year - FirstYear) * 12 + month - 1
  {
    var key := YearMonth(year, month);
    LayoutAt(year, month);
    forall j | 0 <= j < PartitionCount && Contains(Layout()[j], key)
      ensures j == (year - FirstYear) * 12 + month - 1
    {
      var p := Layout()[j];
      BeforeIsIndexOrder(key, p.lower);
      BeforeIsIndexOrder(key, p.upper);
      assert p.lower == KeyAt(j);
    }
  }

  /** `Down` drops exactly the partitions `Up` creates, in the same order, and
      only then the parent table. */
  lemma DownUndoesUp(up: seq<Statement>, down: seq<Statement>)
    requires up == [CreateParentTable(Columns),
                    CreateIndex("idx_payment_cards_card_token"),
                    CreateIndex("idx_payment_cards_notification")] + CreateAll(Layout())
    requires down == DropAll(Layout()) + [DropTableIfExists(ParentTable)]
    ensures |down| == PartitionCount + 1 && down[PartitionCount] == DropTableIfExists(ParentTable)
    ensures forall k :: 0 <= k < PartitionCount ==>
      up[3 + k].CreatePartition? && down[k] == DropTableIfExists(up[3 + k].partition.name)
  {
  }
}
