/** The billing aggregation of `Hubctl::Enterprise#billing`: usage items
    from the enhanced billing endpoint are split by product, summed, grouped
    by runner SKU with minute shares, and flattened into a three-column
    table. Quantities and amounts are exact reals; rounding is not modelled. */
module Billing {
  import opened Common

  /** One entry of `usageItems`; every field may be missing. */
  datatype UsageItem = UsageItem(
    product: Option<string>,
    sku: Option<string>,
    unitType: Option<string>,
    quantity: Option<real>,
    netAmount: Option<real>)

  /** `item[:quantity] || 0` */
  function Quantity(item: UsageItem): real {
    item.quantity.GetOr(0.0)
  }

  /** `item[:netAmount] || 0` */
  function Amount(item: UsageItem): real {
    item.netAmount.GetOr(0.0)
  }

  /** `item[:product] == name` */
  function OfProduct(name: string): UsageItem -> bool {
    (item: UsageItem) => item.product == Some(name)
  }

  /** `item[:product]` is none of the three products the report knows. */
  predicate OtherProduct(item: UsageItem) {
    item.product != Some("actions") && item.product != Some("packages") && item.product != Some("copilot")
  }

  /** `item[:unitType] == 'Minutes'` */
  predicate IsMinutes(item: UsageItem) {
    item.unitType == Some("Minutes")
  }

  /** `word` occurs in `s` as a contiguous piece (`String#include?`). */
  predicate Contains(s: string, word: string) {
    exists i :: 0 <= i <= |s| && OccursAt(s, word, i)
  }

  predicate OccursAt(s: string, word: string, i: int) {
    0 <= i && i + |word| <= |s| && s[i..i + |word|] == word
  }

  /** `item[:sku]&.include?(word)`: false when the SKU is missing. */
  function SkuMentions(word: string): UsageItem -> bool {
    (item: UsageItem) => item.sku.Some? && Contains(item.sku.value, word)
  }

  const UnknownSku := "Unknown"

  /** `item[:sku] || 'Unknown'` */
  function SkuOf(item: UsageItem): string {
    item.sku.GetOr(UnknownSku)
  }

  function HasSku(sku: string): UsageItem -> bool {
    item => SkuOf(item) == sku
  }

  /** The SKU of every item, in order. */
  function SkuList(items: seq<UsageItem>): (r: seq<string>)
    ensures |r| == |items|
    ensures forall i :: 0 <= i < |items| ==> r[i] == SkuOf(items[i])
  {
    seq(|items|, i requires 0 <= i < |items| => SkuOf(items[i]))
  }

  // ---------------------------------------------------------------------
  // Runner breakdown
  // ---------------------------------------------------------------------

  /** One entry of `runner_breakdown` before shares are added. */
  datatype RunnerUsage = RunnerUsage(sku: string, minutes: real, cost: real)

  function UsageMinutes(u: RunnerUsage): real { u.minutes }
  function UsageCost(u: RunnerUsage): real { u.cost }

  /** The keys of the breakdown hash, in insertion order. */
  function Keys(b: seq<RunnerUsage>): (r: seq<string>)
    ensures |r| == |b|
    ensures forall i :: 0 <= i < |b| ==> r[i] == b[i].sku
  {
    seq(|b|, i requires 0 <= i < |b| => b[i].sku)
  }

  /** One pass of the `each` loop: `runner_breakdown[sku] ||= {minutes: 0, cost: 0}`
      and both totals increased by the item's quantity and amount. */
  function AddUsage(b: seq<RunnerUsage>, item: UsageItem): (r: seq<RunnerUsage>)
    ensures SkuOf(item) in Keys(b) ==> Keys(r) == Keys(b)
    ensures SkuOf(item) !in Keys(b) ==> Keys(r) == Keys(b) + [SkuOf(item)]
  {
    var k := SkuOf(item);
    if k in Keys(b) then
      var i := FirstPos(Keys(b), k);
      var r := b[i := RunnerUsage(k, b[i].minutes + Quantity(item), b[i].cost + Amount(item))];
      assert Keys(r) == Keys(b);
      r
    else
      var r := b + [RunnerUsage(k, Quantity(item), Amount(item))];
      assert Keys(r) == Keys(b) + [k];
      r
  }

  /** `runner_breakdown` after the loop over `items`: its keys are the
      items' SKUs, each once, in the order each SKU first appears. */
  function GroupBySku(items: seq<UsageItem>): (r: seq<RunnerUsage>)
    ensures Keys(r) == Uniq(SkuList(items))
    decreases |items|
  {
    if |items| == 0 then []
    else
      var init := items[..|items| - 1];
      assert SkuList(items) == SkuList(init) + [SkuOf(items[|items| - 1])];
      assert SkuList(items)[..|items| - 1] == SkuList(init);
      AddUsage(GroupBySku(init), items[|items| - 1])
  }

  /** Appending one element to a sum. */
  lemma SumOfSnoc<T>(s: seq<T>, x: T, f: T -> real)
    ensures SumOf(s + [x], f) == SumOf(s, f) + f(x)
  {
    SumOfConcat(s, [x], f);
    assert SumOf([x], f) == f(x) + SumOf([x][1..], f);
  }

  /** Selecting from a sequence with one more element. */
  lemma FilterSnoc<T(!new)>(s: seq<T>, x: T, p: T -> bool)
    ensures Filter(s + [x], p) == Filter(s, p) + (if p(x) then [x] else [])
  {
    FilterConcat(s, [x], p);
    assert Filter([x], p) == (if p(x) then [x] else []) by {
      assert [x][1..] == [];
    }
  }

  /** A selection nothing passes is empty. */
  lemma FilterNone<T(!new)>(s: seq<T>, p: T -> bool)
    requires forall x :: x in s ==> !p(x)
    ensures Filter(s, p) == []
  {
  }

  /** Every entry of `b` holds the totals of exactly the items of `items`
      that carry its SKU. */
  predicate Accounts(b: seq<RunnerUsage>, items: seq<UsageItem>) {
    forall m :: 0 <= m < |b| ==>
      b[m].minutes == SumOf(Filter(items, HasSku(b[m].sku)), Quantity)
      && b[m].cost == SumOf(Filter(items, HasSku(b[m].sku)), Amount)
  }

  /** No earlier item carries a SKU that is not yet a key. */
  lemma NoItemWithNewSku(init: seq<UsageItem>, b: seq<RunnerUsage>, k: string)
    requires Keys(b) == Uniq(SkuList(init)) && k !in Keys(b)
    ensures Filter(init, HasSku(k)) == []
  {
    forall y | y in init ensures !HasSku(k)(y) {
      var m :| 0 <= m < |init| && init[m] == y;
      assert SkuList(init)[m] == SkuOf(y);
    }
    FilterNone(init, HasSku(k));
  }

  /** The totals of one entry after a step, given the totals before it. */
  lemma EntryAfterStep(before: RunnerUsage, after: RunnerUsage, init: seq<UsageItem>, x: UsageItem)
    requires after.sku == before.sku
    requires before.minutes == SumOf(Filter(init, HasSku(before.sku)), Quantity)
    requires before.cost == SumOf(Filter(init, HasSku(before.sku)), Amount)
    requires SkuOf(x) == before.sku ==>
               after.minutes == before.minutes + Quantity(x) && after.cost == before.cost + Amount(x)
    requires SkuOf(x) != before.sku ==> after == before
    ensures after.minutes == SumOf(Filter(init + [x], HasSku(after.sku)), Quantity)
    ensures after.cost == SumOf(Filter(init + [x], HasSku(after.sku)), Amount)
  {
    var p := HasSku(after.sku);
    var f := Filter(init, p);
    assert p(x) <==> SkuOf(x) == after.sku;
    FilterSnoc(init, x, p);
    if p(x) {
      assert Filter(init + [x], p) == f + [x];
      SumOfSnoc(f, x, Quantity);
      SumOfSnoc(f, x, Amount);
    } else {
      assert Filter(init + [x], p) == f + [] == f;
    }
  }

  /** One loop step keeps every entry's totals exact. */
  lemma AddUsageAccounts(b: seq<RunnerUsage>, init: seq<UsageItem>, x: UsageItem)
    requires Keys(b) == Uniq(SkuList(init)) && Accounts(b, init)
    ensures Accounts(AddUsage(b, x), init + [x])
  {
    var r := AddUsage(b, x);
    var k := SkuOf(x);
    forall m | 0 <= m < |r|
      ensures r[m].minutes == SumOf(Filter(init + [x], HasSku(r[m].sku)), Quantity)
              && r[m].cost == SumOf(Filter(init + [x], HasSku(r[m].sku)), Amount)
    {
      if m < |b| {
        EntryAfterStep(b[m], r[m], init, x);
      } else {
        NoItemWithNewSku(init, b, k);
        EntryAfterStep(RunnerUsage(k, 0.0, 0.0), r[m], init, x);
      }
    }
  }

  /** Each breakdown entry holds the totals of exactly the items with its SKU. */
  lemma {:induction false} GroupBySkuSums(items: seq<UsageItem>)
    ensures Accounts(GroupBySku(items), items)
    decreases |items|
  {
    if |items| > 0 {
      var init := items[..|items| - 1];
      var x := items[|items| - 1];
      SplitLast(items);
      GroupBySkuSums(init);
      AddUsageAccounts(GroupBySku(init), init, x);
    }
  }

  /** Changing one term of a sum changes the sum by the difference. */
  lemma {:induction false} SumOfUpdate<T>(s: seq<T>, j: nat, y: T, f: T -> real)
    requires j < |s|
    ensures SumOf(s[j := y], f) == SumOf(s, f) - f(s[j]) + f(y)
    decreases |s|
  {
    if j > 0 {
      SumOfUpdate(s[1..], j - 1, y, f);
      assert s[j := y][1..] == s[1..][j - 1 := y];
    } else {
      assert s[j := y][1..] == s[1..];
    }
  }

  /** One loop step adds the item's quantity and amount to the totals. */
  lemma AddUsageTotals(b: seq<RunnerUsage>, x: UsageItem)
    ensures SumOf(AddUsage(b, x), UsageMinutes) == SumOf(b, UsageMinutes) + Quantity(x)
    ensures SumOf(AddUsage(b, x), UsageCost) == SumOf(b, UsageCost) + Amount(x)
  {
    var k := SkuOf(x);
    if k in Keys(b) {
      var j := FirstPos(Keys(b), k);
      var e := RunnerUsage(k, b[j].minutes + Quantity(x), b[j].cost + Amount(x));
      SumOfUpdate(b, j, e, UsageMinutes);
      SumOfUpdate(b, j, e, UsageCost);
    } else {
      var e := RunnerUsage(k, Quantity(x), Amount(x));
      SumOfSnoc(b, e, UsageMinutes);
      SumOfSnoc(b, e, UsageCost);
    }
  }

  /** Over all SKUs, the breakdown's minutes and costs add up to the totals
      over the items it was built from. */
  lemma {:induction false} GroupBySkuTotals(items: seq<UsageItem>)
    ensures SumOf(GroupBySku(items), UsageMinutes) == SumOf(items, Quantity)
    ensures SumOf(GroupBySku(items), UsageCost) == SumOf(items, Amount)
    decreases |items|
  {
    if |items| > 0 {
      var init := items[..|items| - 1];
      var x := items[|items| - 1];
      SplitLast(items);
      GroupBySkuTotals(init);
      GroupBySkuSnoc(init, x);
      SumOfSnoc(init, x, Quantity);
      SumOfSnoc(init, x, Amount);
      AddUsageTotals(GroupBySku(init), x);
    }
  }

  /** The grouping of one more item is one more step of the loop. */
  lemma GroupBySkuSnoc(init: seq<UsageItem>, x: UsageItem)
    ensures GroupBySku(init + [x]) == AddUsage(GroupBySku(init), x)
  {
    var items := init + [x];
    assert items[..|items| - 1] == init;
  }

  /** A breakdown entry with its share of all minutes, in percent. */
  datatype RunnerShare = RunnerShare(sku: string, minutes: real, cost: real, percentage: real)

  function ShareMinutes(s: RunnerShare): real { s.minutes }
  function SharePercentage(s: RunnerShare): real { s.percentage }

  /** `total_minutes > 0 ? (minutes / total_minutes) * 100 : 0` */
  function Percentage(minutes: real, total: real): (p: real)
    ensures total > 0.0 && 0.0 <= minutes <= total ==> 0.0 <= p <= 100.0
    ensures total <= 0.0 ==> p == 0.0
    ensures total > 0.0 ==> p * total == minutes * 100.0
  {
    if total > 0.0 then minutes / total * 100.0 else 0.0
  }

  /** Adding `percentage` to every entry. */
  function WithShares(b: seq<RunnerUsage>, total: real): (r: seq<RunnerShare>)
    ensures |r| == |b|
    ensures forall i :: 0 <= i < |b| ==>
              r[i].sku == b[i].sku && r[i].minutes == b[i].minutes && r[i].cost == b[i].cost
    ensures forall i :: 0 <= i < |b| ==> r[i].percentage == Percentage(b[i].minutes, total)
    decreases |b|
  {
    if |b| == 0 then []
    else [RunnerShare(b[0].sku, b[0].minutes, b[0].cost, Percentage(b[0].minutes, total))]
         + WithShares(b[1..], total)
  }

  /** With positive total minutes, the shares add up to the entries'
      minutes as a fraction of the total. */
  lemma {:induction false} SharesScale(b: seq<RunnerUsage>, total: real)
    requires total > 0.0
    ensures SumOf(WithShares(b, total), SharePercentage) == SumOf(b, UsageMinutes) / total * 100.0
    decreases |b|
  {
    if |b| > 0 {
      var r := WithShares(b, total);
      assert r[1..] == WithShares(b[1..], total);
      SharesScale(b[1..], total);
      ShareOfSum(b[0].minutes, SumOf(b[1..], UsageMinutes), total);
    }
  }

  /** Shares of two parts add up to the share of the whole. */
  lemma ShareOfSum(m: real, rest: real, total: real)
    requires total > 0.0
    ensures Percentage(m, total) + Percentage(rest, total) == Percentage(m + rest, total)
  {
    assert m / total * 100.0 + rest / total * 100.0 == (m + rest) / total * 100.0;
  }

  /** Before rounding, the shares of all runner types add up to 100 whenever
      any minutes were used. */
  lemma SharesSumToHundred(items: seq<UsageItem>)
    requires SumOf(items, Quantity) > 0.0
    ensures SumOf(WithShares(GroupBySku(items), SumOf(items, Quantity)), SharePercentage) == 100.0
  {
    GroupBySkuTotals(items);
    SharesOfWhole(GroupBySku(items), SumOf(items, Quantity));
  }

  /** `SharesSumToHundred`, stated for any list of items, used or not. */
  lemma SharesOfUsedMinutes(items: seq<UsageItem>)
    ensures SumOf(items, Quantity) > 0.0 ==>
              SumOf(WithShares(GroupBySku(items), SumOf(items, Quantity)), SharePercentage) == 100.0
  {
    if SumOf(items, Quantity) > 0.0 {
      SharesSumToHundred(items);
    }
  }

  lemma SharesOfWhole(b: seq<RunnerUsage>, total: real)
    requires total > 0.0 && SumOf(b, UsageMinutes) == total
    ensures SumOf(WithShares(b, total), SharePercentage) == 100.0
  {
    SharesScale(b, total);
    DivSelf(total);
  }

  lemma DivSelf(x: real)
    requires x > 0.0
    ensures x / x * 100.0 == 100.0
  {
  }

  /** The share as written when every quantity is a whole number: the
      minutes and the total are then both Integers, and `/` floors before
      the product with 100 (with a positive divisor floor division and
      Dafny's `/` coincide). */
  function PercentageAsWritten(minutes: int, total: int): (r: int)
    ensures total <= 0 ==> r == 0
    ensures r % 100 == 0
    ensures total > 0 && 0 <= minutes < total ==> r == 0
  {
    if total > 0 then minutes / total * 100 else 0
  }

  /** As written, a runner type's share of whole-number minutes is either
      0 or 100, and 100 only when it used every minute. */
  lemma ShareAsWrittenIsAllOrNothing(minutes: int, total: int)
    requires 0 <= minutes <= total && total > 0
    ensures PercentageAsWritten(minutes, total) == 0 || PercentageAsWritten(minutes, total) == 100
    ensures PercentageAsWritten(minutes, total) == 100 <==> minutes == total
  {
    if minutes < total {
      assert minutes / total == 0;
    } else {
      assert minutes / total == 1;
    }
  }

  /** Two runner types with 30 and 70 of 100 minutes: as written both
      shares read 0, where the intended shares are 30 and 70. */
  lemma IntegerSharesCounterexample()
    ensures PercentageAsWritten(30, 100) == 0 && PercentageAsWritten(70, 100) == 0
    ensures Percentage(30.0, 100.0) == 30.0 && Percentage(70.0, 100.0) == 70.0
  {
  }

  // ---------------------------------------------------------------------
  // Summary
  // ---------------------------------------------------------------------

  datatype ActionsSummary = ActionsSummary(totalMinutes: real, totalCost: real, breakdown: seq<RunnerShare>)
  datatype PackagesSummary = PackagesSummary(storageGbHours: real, transferGb: real, totalCost: real)
  datatype CopilotSummary = CopilotSummary(userMonths: real, totalCost: real)

  /** `billing_summary`: a section per product that has any usage. */
  datatype Summary = Summary(
    enterprise: string,
    totalCost: real,
    actions: Option<ActionsSummary>,
    packages: Option<PackagesSummary>,
    copilot: Option<CopilotSummary>)

  /** Some item belongs to `product`. */
  predicate HasProduct(items: seq<UsageItem>, product: string) {
    exists i :: 0 <= i < |items| && items[i].product == Some(product)
  }

  /** A product's items are present exactly when the product occurs. */
  lemma ProductItemsNonEmpty(items: seq<UsageItem>, product: string)
    ensures |Filter(items, OfProduct(product))| > 0 <==> HasProduct(items, product)
  {
    var f := Filter(items, OfProduct(product));
    if HasProduct(items, product) {
      var i :| 0 <= i < |items| && items[i].product == Some(product);
      assert items[i] in f;
    }
  }

  /** The Actions section: minutes and the breakdown come from the Minutes
      items only, while the cost covers every Actions item. The breakdown
      has one entry per runner SKU in order of first appearance, holding that
      SKU's summed minutes and cost and its share of all minutes. */
  function ActionsOf(actionsItems: seq<UsageItem>): (a: ActionsSummary)
    ensures a.totalMinutes == SumOf(Filter(actionsItems, IsMinutes), Quantity)
    ensures a.totalCost == SumOf(actionsItems, Amount)
    ensures a.breakdown == WithShares(GroupBySku(Filter(actionsItems, IsMinutes)), a.totalMinutes)
    ensures |a.breakdown| == |Uniq(SkuList(Filter(actionsItems, IsMinutes)))|
    ensures forall i :: 0 <= i < |a.breakdown| ==>
              && a.breakdown[i].sku == Uniq(SkuList(Filter(actionsItems, IsMinutes)))[i]
              && a.breakdown[i].minutes == SumOf(Filter(Filter(actionsItems, IsMinutes), HasSku(a.breakdown[i].sku)), Quantity)
              && a.breakdown[i].cost == SumOf(Filter(Filter(actionsItems, IsMinutes), HasSku(a.breakdown[i].sku)), Amount)
              && a.breakdown[i].percentage == Percentage(a.breakdown[i].minutes, a.totalMinutes)
    ensures a.totalMinutes > 0.0 ==> SumOf(a.breakdown, SharePercentage) == 100.0
  {
    var minutesItems := Filter(actionsItems, IsMinutes);
    var total := SumOf(minutesItems, Quantity);
    BreakdownEntries(minutesItems, total);
    SharesOfUsedMinutes(minutesItems);
    ActionsSummary(total, SumOf(actionsItems, Amount), WithShares(GroupBySku(minutesItems), total))
  }

  /** Entry `i` of the breakdown with shares: the `i`-th distinct SKU, the
      totals of that SKU's items, and its share of `total`. */
  lemma BreakdownEntries(items: seq<UsageItem>, total: real)
    ensures var r := WithShares(GroupBySku(items), total);
            && |r| == |Uniq(SkuList(items))|
            && forall i :: 0 <= i < |r| ==>
                 && r[i].sku == Uniq(SkuList(items))[i]
                 && r[i].minutes == SumOf(Filter(items, HasSku(r[i].sku)), Quantity)
                 && r[i].cost == SumOf(Filter(items, HasSku(r[i].sku)), Amount)
                 && r[i].percentage == Percentage(r[i].minutes, total)
  {
    var g := GroupBySku(items);
    GroupBySkuSums(items);
    var r := WithShares(g, total);
    forall i | 0 <= i < |r|
      ensures r[i].sku == Uniq(SkuList(items))[i]
    {
      assert r[i].sku == g[i].sku == Keys(g)[i];
    }
  }

  /** The Packages section; an item whose SKU mentions both words counts
      towards both storage and transfer. */
  function PackagesOf(packagesItems: seq<UsageItem>): (p: PackagesSummary)
    ensures p.storageGbHours == SumOf(Filter(packagesItems, SkuMentions("storage")), Quantity)
    ensures p.transferGb == SumOf(Filter(packagesItems, SkuMentions("transfer")), Quantity)
    ensures p.totalCost == SumOf(packagesItems, Amount)
  {
    PackagesSummary(
      SumOf(Filter(packagesItems, SkuMentions("storage")), Quantity),
      SumOf(Filter(packagesItems, SkuMentions("transfer")), Quantity),
      SumOf(packagesItems, Amount))
  }

  function CopilotOf(copilotItems: seq<UsageItem>): (c: CopilotSummary)
    ensures c.userMonths == SumOf(copilotItems, Quantity)
    ensures c.totalCost == SumOf(copilotItems, Amount)
  {
    CopilotSummary(SumOf(copilotItems, Quantity), SumOf(copilotItems, Amount))
  }

  /** `billing_summary` for a non-empty list of usage items. */
  function Summarize(enterprise: string, items: seq<UsageItem>): (s: Summary)
    ensures s.enterprise == enterprise
    ensures s.totalCost == SumOf(items, Amount)
    ensures s.actions.Some? <==> HasProduct(items, "actions")
    ensures s.packages.Some? <==> HasProduct(items, "packages")
    ensures s.copilot.Some? <==> HasProduct(items, "copilot")
    ensures s.actions.Some? ==> s.actions.value == ActionsOf(Filter(items, OfProduct("actions")))
    ensures s.packages.Some? ==> s.packages.value == PackagesOf(Filter(items, OfProduct("packages")))
    ensures s.copilot.Some? ==> s.copilot.value == CopilotOf(Filter(items, OfProduct("copilot")))
  {
    var actionsItems := Filter(items, OfProduct("actions"));
    var packagesItems := Filter(items, OfProduct("packages"));
    var copilotItems := Filter(items, OfProduct("copilot"));
    ProductItemsNonEmpty(items, "actions");
    ProductItemsNonEmpty(items, "packages");
    ProductItemsNonEmpty(items, "copilot");
    Summary(
      enterprise,
      SumOf(items, Amount),
      if |actionsItems| == 0 then None else Some(ActionsOf(actionsItems)),
      if |packagesItems| == 0 then None else Some(PackagesOf(packagesItems)),
      if |copilotItems| == 0 then None else Some(CopilotOf(copilotItems)))
  }

  function NotProduct(name: string): UsageItem -> bool {
    (item: UsageItem) => item.product != Some(name)
  }

  function SectionCost(s: Summary): real {
    (if s.actions.Some? then s.actions.value.totalCost else 0.0)
    + (if s.packages.Some? then s.packages.value.totalCost else 0.0)
    + (if s.copilot.Some? then s.copilot.value.totalCost else 0.0)
  }

  /** A missing section costs nothing: the sum over no items is zero. */
  lemma AbsentProductCostsNothing(items: seq<UsageItem>, product: string)
    requires !HasProduct(items, product)
    ensures SumOf(Filter(items, OfProduct(product)), Amount) == 0.0
  {
    ProductItemsNonEmpty(items, product);
  }

  /** The overall total is the sections' costs plus the cost of items of
      any other product, so nothing is counted twice or lost. */
  lemma TotalCostPartition(enterprise: string, items: seq<UsageItem>)
    ensures var s := Summarize(enterprise, items);
            s.totalCost == SectionCost(s) + SumOf(Filter(items, OtherProduct), Amount)
  {
    var s := Summarize(enterprise, items);
    var notA := Filter(items, NotProduct("actions"));
    var notAP := Filter(notA, NotProduct("packages"));
    SumOfPartition(items, OfProduct("actions"), NotProduct("actions"), Amount);
    SumOfPartition(notA, OfProduct("packages"), NotProduct("packages"), Amount);
    SumOfPartition(notAP, OfProduct("copilot"), NotProduct("copilot"), Amount);
    FilterFilter(items, NotProduct("actions"), OfProduct("packages"), OfProduct("packages"));
    FilterFilter(notA, NotProduct("packages"), OfProduct("copilot"), OnlyCopilotAmongNotAP);
    FilterFilter(items, NotProduct("actions"), NotProduct("packages"), NeitherAP);
    FilterFilter(items, NeitherAP, OfProduct("copilot"), OfProduct("copilot"));
    FilterFilter(items, NeitherAP, NotProduct("copilot"), OtherProduct);
    FilterExt(notA, OnlyCopilotAmongNotAP, OfProduct("copilot"));
    AbsentProductCostsNothingIf(items, "actions");
    AbsentProductCostsNothingIf(items, "packages");
    AbsentProductCostsNothingIf(items, "copilot");
  }

  predicate NeitherAP(item: UsageItem) {
    item.product != Some("actions") && item.product != Some("packages")
  }

  predicate OnlyCopilotAmongNotAP(item: UsageItem) {
    item.product == Some("copilot")
  }

  /** The section's cost as the sum over the product's items, present or not. */
  lemma AbsentProductCostsNothingIf(items: seq<UsageItem>, product: string)
    ensures !HasProduct(items, product) ==> SumOf(Filter(items, OfProduct(product)), Amount) == 0.0
  {
    if !HasProduct(items, product) {
      AbsentProductCostsNothing(items, product);
    }
  }

  // ---------------------------------------------------------------------
  // Flattened table
  // ---------------------------------------------------------------------

  /** `sort_by { |_, data| -data[:minutes] }`: most minutes first. */
  predicate SortedByMinutesDesc(s: seq<RunnerShare>) {
    forall i, j :: 0 <= i < j < |s| ==> s[i].minutes >= s[j].minutes
  }

  /** One step of an insertion sort on minutes, most first. */
  function InsertByMinutes(x: RunnerShare, s: seq<RunnerShare>): (r: seq<RunnerShare>)
    requires SortedByMinutesDesc(s)
    ensures SortedByMinutesDesc(r)
    ensures multiset(r) == multiset(s) + multiset{x}
    ensures forall y :: y in r ==> y == x || y in s
    decreases |s|
  {
    if |s| == 0 then [x]
    else if x.minutes >= s[0].minutes then [x] + s
    else
      var rest := InsertByMinutes(x, s[1..]);
      assert s == [s[0]] + s[1..];
      InsertedAfterHead(s[0], x, s[1..], rest);
      [s[0]] + rest
  }

  /** The head of a sorted list may stay in front of a sorted insertion. */
  lemma InsertedAfterHead(h: RunnerShare, x: RunnerShare, t: seq<RunnerShare>, rest: seq<RunnerShare>)
    requires SortedByMinutesDesc([h] + t) && SortedByMinutesDesc(rest)
    requires x.minutes < h.minutes
    requires forall y :: y in rest ==> y == x || y in t
    ensures SortedByMinutesDesc([h] + rest)
  {
    var r := [h] + rest;
    forall i, j | 0 <= i < j < |r|
      ensures r[i].minutes >= r[j].minutes
    {
      if i == 0 {
        assert r[j] in rest;
        if r[j] != x {
          var k :| 0 <= k < |t| && t[k] == r[j];
          assert ([h] + t)[0] == h && ([h] + t)[k + 1] == r[j];
        }
      } else {
        assert r[i] == rest[i - 1] && r[j] == rest[j - 1];
      }
    }
  }

  /** The runner entries ordered by minutes, most first; the entries
      themselves are unchanged. */
  function SortByMinutesDesc(s: seq<RunnerShare>): (r: seq<RunnerShare>)
    ensures SortedByMinutesDesc(r)
    ensures multiset(r) == multiset(s)
    decreases |s|
  {
    if |s| == 0 then []
    else
      assert s == [s[0]] + s[1..];
      InsertByMinutes(s[0], SortByMinutesDesc(s[1..]))
  }

  /** The `value` column: money, a plain figure, or minutes with a share. */
  datatype Cell = Name(text: string) | Dollars(amount: real) | Figure(q: real) | MinutesShare(minutes: real, percentage: real)

  datatype Row = Row(category: string, metric: string, value: Cell)

  /** The minutes row of a runner entry. */
  function MinutesRow(line: RunnerShare): Row {
    Row("Actions - " + line.sku, "Minutes (Share)", MinutesShare(line.minutes, line.percentage))
  }

  /** The cost row of a runner entry. */
  function CostRow(line: RunnerShare): Row {
    Row("Actions - " + line.sku, "Cost", Dollars(line.cost))
  }

  /** Two rows per runner type, minutes first, in the order given. */
  function RunnerRows(lines: seq<RunnerShare>): (rows: seq<Row>)
    ensures |rows| == 2 * |lines|
    ensures forall k :: 0 <= k < |lines| ==> rows[2 * k] == MinutesRow(lines[k]) && rows[2 * k + 1] == CostRow(lines[k])
  {
    var rows := seq(2 * |lines|, i requires 0 <= i < 2 * |lines| =>
                      if i % 2 == 0 then MinutesRow(lines[i / 2]) else CostRow(lines[i / 2]));
    forall k | 0 <= k < |lines|
      ensures rows[2 * k] == MinutesRow(lines[k]) && rows[2 * k + 1] == CostRow(lines[k])
    {
      assert (2 * k) / 2 == k && (2 * k) % 2 == 0;
      assert (2 * k + 1) / 2 == k && (2 * k + 1) % 2 == 1;
    }
    rows
  }

  function ActionsRows(a: ActionsSummary): (rows: seq<Row>)
    ensures |rows| == 2 + 2 * |a.breakdown|
    ensures rows[0] == Row("Actions", "Total Minutes", Figure(a.totalMinutes))
    ensures rows[1] == Row("Actions", "Total Cost", Dollars(a.totalCost))
    ensures rows[2..] == RunnerRows(SortByMinutesDesc(a.breakdown))
  {
    var sorted := SortByMinutesDesc(a.breakdown);
    assert |sorted| == |multiset(sorted)| == |multiset(a.breakdown)| == |a.breakdown|;
    var rows := [Row("Actions", "Total Minutes", Figure(a.totalMinutes)),
                 Row("Actions", "Total Cost", Dollars(a.totalCost))] + RunnerRows(sorted);
    assert rows[2..] == RunnerRows(sorted);
    rows
  }

  function PackagesRows(p: PackagesSummary): seq<Row> {
    [Row("Packages", "Storage (GB-hours)", Figure(p.storageGbHours)),
     Row("Packages", "Data Transfer (GB)", Figure(p.transferGb)),
     Row("Packages", "Total Cost", Dollars(p.totalCost))]
  }

  function CopilotRows(c: CopilotSummary): seq<Row> {
    [Row("Copilot", "User-Months", Figure(c.userMonths)),
     Row("Copilot", "Total Cost", Dollars(c.totalCost))]
  }

  /** The two rows every billing table starts with. */
  function EnterpriseRows(s: Summary): seq<Row> {
    [Row("Enterprise", "Name", Name(s.enterprise)),
     Row("Enterprise", "Total Cost", Dollars(s.totalCost))]
  }

  /** The Actions rows, or none when Actions had no usage. */
  function ActionsPart(s: Summary): (rows: seq<Row>)
    ensures |rows| == if s.actions.Some? then 2 + 2 * |s.actions.value.breakdown| else 0
  {
    if s.actions.Some? then ActionsRows(s.actions.value) else []
  }

  /** The Packages rows, or none when Packages had no usage. */
  function PackagesPart(s: Summary): (rows: seq<Row>)
    ensures |rows| == if s.packages.Some? then 3 else 0
  {
    if s.packages.Some? then PackagesRows(s.packages.value) else []
  }

  /** The Copilot rows, or none when Copilot had no usage. */
  function CopilotPart(s: Summary): (rows: seq<Row>)
    ensures |rows| == if s.copilot.Some? then 2 else 0
  {
    if s.copilot.Some? then CopilotRows(s.copilot.value) else []
  }

  /** `flatten_billing_summary`: two enterprise rows, then the rows of each
      section that is present, in the order Actions, Packages, Copilot. */
  function Flatten(s: Summary): (rows: seq<Row>)
    ensures |rows| == 2 + |ActionsPart(s)| + |PackagesPart(s)| + |CopilotPart(s)|
    ensures rows[..2] == EnterpriseRows(s)
    ensures rows[2..2 + |ActionsPart(s)|] == ActionsPart(s)
    ensures rows[|rows| - |CopilotPart(s)| - |PackagesPart(s)|..|rows| - |CopilotPart(s)|] == PackagesPart(s)
    ensures rows[|rows| - |CopilotPart(s)|..] == CopilotPart(s)
  {
    var rows := EnterpriseRows(s) + (ActionsPart(s) + (PackagesPart(s) + CopilotPart(s)));
    SectionSlices(EnterpriseRows(s), ActionsPart(s), PackagesPart(s), CopilotPart(s), rows);
    rows
  }

  /** Where each of four concatenated parts sits in the whole. */
  lemma SectionSlices<T>(h: seq<T>, a: seq<T>, p: seq<T>, c: seq<T>, r: seq<T>)
    requires r == h + (a + (p + c))
    ensures |r| == |h| + |a| + |p| + |c|
    ensures r[..|h|] == h
    ensures r[|h|..|h| + |a|] == a
    ensures r[|r| - |c| - |p|..|r| - |c|] == p
    ensures r[|r| - |c|..] == c
  {
    assert r[|h|..] == a + (p + c);
    assert r[|h| + |a|..] == p + c;
  }


  /** The k-th minutes row of the Actions rows is that of the k-th runner
      entry in sorted order. */
  lemma ActionsRowAt(a: ActionsSummary, k: nat)
    requires k < |a.breakdown|
    ensures |SortByMinutesDesc(a.breakdown)| == |a.breakdown|
    ensures ActionsRows(a)[2 + 2 * k] == MinutesRow(SortByMinutesDesc(a.breakdown)[k])
  {
    var sorted := SortByMinutesDesc(a.breakdown);
    assert |sorted| == |multiset(sorted)| == |multiset(a.breakdown)|;
    var rows := ActionsRows(a);
    assert rows[2 + 2 * k] == rows[2..][2 * k];
  }

  /** Within the Actions rows, the runner minutes rows run from most to
      fewest minutes, and every runner entry has its row. */
  lemma ActionsRowsOrder(a: ActionsSummary)
    ensures var rows := ActionsRows(a);
            var n := |a.breakdown|;
            && (forall k, l :: 0 <= k < l < n ==>
                  rows[2 + 2 * k].value.MinutesShare? && rows[2 + 2 * l].value.MinutesShare?
                  && rows[2 + 2 * k].value.minutes >= rows[2 + 2 * l].value.minutes)
            && (forall line :: line in a.breakdown ==>
                  exists k :: 0 <= k < n && rows[2 + 2 * k] == MinutesRow(line))
  {
    var rows := ActionsRows(a);
    var n := |a.breakdown|;
    forall k, l | 0 <= k < l < n
      ensures rows[2 + 2 * k].value.MinutesShare? && rows[2 + 2 * l].value.MinutesShare?
              && rows[2 + 2 * k].value.minutes >= rows[2 + 2 * l].value.minutes
    {
      ActionsRowAt(a, k);
      ActionsRowAt(a, l);
    }
    forall line | line in a.breakdown
      ensures exists k :: 0 <= k < n && rows[2 + 2 * k] == MinutesRow(line)
    {
      var k := SortedPosition(a.breakdown, line);
      ActionsRowAt(a, k);
    }
  }

  /** Sorting loses no entry: each has a position in the sorted order. */
  lemma SortedPosition(s: seq<RunnerShare>, line: RunnerShare) returns (k: nat)
    requires line in s
    ensures |SortByMinutesDesc(s)| == |s|
    ensures k < |s| && SortByMinutesDesc(s)[k] == line
  {
    var sorted := SortByMinutesDesc(s);
    assert |sorted| == |multiset(sorted)| == |multiset(s)|;
    assert line in multiset(s);
    assert line in multiset(sorted);
    k :| 0 <= k < |sorted| && sorted[k] == line;
  }

  /** The flattened table holds the Actions rows right after the two
      enterprise rows. */
  lemma FlattenActionsOffset(s: Summary)
    requires s.actions.Some?
    ensures |ActionsRows(s.actions.value)| == 2 + 2 * |s.actions.value.breakdown|
    ensures |Flatten(s)| >= 2 + |ActionsRows(s.actions.value)|
    ensures forall j :: 0 <= j < |ActionsRows(s.actions.value)| ==>
              Flatten(s)[2 + j] == ActionsRows(s.actions.value)[j]
  {
    var ar := ActionsRows(s.actions.value);
    var rows := Flatten(s);
    assert ActionsPart(s) == ar;
    assert rows[2..2 + |ar|] == ar;
    forall j | 0 <= j < |ar|
      ensures rows[2 + j] == ar[j]
    {
      assert rows[2 + j] == rows[2..2 + |ar|][j];
    }
  }

  /** In the flattened table the runner rows run from most to fewest
      minutes, and every runner type of the summary has its row. */
  lemma FlattenRunnerOrder(s: Summary)
    requires s.actions.Some?
    ensures var rows := Flatten(s);
            var n := |s.actions.value.breakdown|;
            && |rows| >= 4 + 2 * n
            && (forall k, l :: 0 <= k < l < n ==>
                  rows[4 + 2 * k].value.MinutesShare? && rows[4 + 2 * l].value.MinutesShare?
                  && rows[4 + 2 * k].value.minutes >= rows[4 + 2 * l].value.minutes)
            && (forall line :: line in s.actions.value.breakdown ==>
                  exists k :: 0 <= k < n && rows[4 + 2 * k] == MinutesRow(line))
  {
    FlattenActionsOffset(s);
    FlattenRunnersSorted(s);
    FlattenRunnersComplete(s);
  }

  /** The sorted half of `FlattenRunnerOrder`. */
  lemma FlattenRunnersSorted(s: Summary)
    requires s.actions.Some?
    ensures var rows := Flatten(s);
            var n := |s.actions.value.breakdown|;
            |rows| >= 4 + 2 * n
            && forall k, l :: 0 <= k < l < n ==>
                 rows[4 + 2 * k].value.MinutesShare? && rows[4 + 2 * l].value.MinutesShare?
                 && rows[4 + 2 * k].value.minutes >= rows[4 + 2 * l].value.minutes
  {
    var rows := Flatten(s);
    var a := s.actions.value;
    var ar := ActionsRows(a);
    var n := |a.breakdown|;
    FlattenActionsOffset(s);
    forall k, l | 0 <= k < l < n
      ensures rows[4 + 2 * k].value.MinutesShare? && rows[4 + 2 * l].value.MinutesShare?
              && rows[4 + 2 * k].value.minutes >= rows[4 + 2 * l].value.minutes
    {
      ActionsRowAt(a, k);
      ActionsRowAt(a, l);
      assert rows[2 + (2 + 2 * k)] == ar[2 + 2 * k];
      assert rows[2 + (2 + 2 * l)] == ar[2 + 2 * l];
    }
  }

  /** The complete half of `FlattenRunnerOrder`. */
  lemma FlattenRunnersComplete(s: Summary)
    requires s.actions.Some?
    ensures var rows := Flatten(s);
            var n := |s.actions.value.breakdown|;
            |rows| >= 4 + 2 * n
            && forall line :: line in s.actions.value.breakdown ==>
                 exists k :: 0 <= k < n && rows[4 + 2 * k] == MinutesRow(line)
  {
    var rows := Flatten(s);
    var a := s.actions.value;
    var ar := ActionsRows(a);
    var n := |a.breakdown|;
    FlattenActionsOffset(s);
    forall line | line in a.breakdown
      ensures exists k :: 0 <= k < n && rows[4 + 2 * k] == MinutesRow(line)
    {
      var k := SortedPosition(a.breakdown, line);
      ActionsRowAt(a, k);
      assert rows[2 + (2 + 2 * k)] == ar[2 + 2 * k];
    }
  }
}
