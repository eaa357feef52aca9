/**
 * `AccountService.getHarvestAttributionHistory`: each harvest's net yield is split over
 * the owners of vault shares, with BigInt division.
 */
module HarvestAttribution {
  import opened Prelude

  /** `harvested` and `deposited` contract events; a missing field takes its default. */
  datatype Harvest = Harvest(ledger: Option<int>, totalShares: Option<int>, delta: Option<int>, fee: Option<int>)
  datatype Deposit = Deposit(owner: string, ledger: int, sharesMinted: Option<int>)

  datatype Entry = Entry(ledger: int, totalShares: int, delta: int, fee: int, userShares: int, attributed: int)

  function Or<T>(x: Option<T>, default: T): T {
    if x.Some? then x.value else default
  }

  function NetYield(h: Harvest): int {
    Or(h.delta, 0) - Or(h.fee, 0)
  }

  function TotalShares(h: Harvest): int {
    Or(h.totalShares, 1)
  }

  /** BigInt division truncates toward zero. */
  function TruncDiv(a: int, b: int): int
    requires b > 0
  {
    if a >= 0 then a / b else -(-a / b)
  }

  /** The shares minted to `owner` up to and including a ledger. */
  function UserShares(deposits: seq<Deposit>, owner: string, ledger: int): int {
    if deposits == [] then 0
    else
      var d := deposits[|deposits| - 1];
      UserShares(deposits[..|deposits| - 1], owner, ledger)
      + (if d.owner == owner && d.ledger <= ledger then Or(d.sharesMinted, 0) else 0)
  }

  function Attributed(net: int, shares: int, total: int): int {
    if total > 0 && shares > 0 then TruncDiv(net * shares, total) else 0
  }

  /** The entries for the given harvests, in order; none for a harvest at which the owner held nothing. */
  function HistoryOf(harvests: seq<Harvest>, deposits: seq<Deposit>, owner: string): seq<Entry> {
    if harvests == [] then []
    else HistoryOf(harvests[..|harvests| - 1], deposits, owner) + EntryOf(harvests[|harvests| - 1], deposits, owner)
  }

  function EntryOf(h: Harvest, deposits: seq<Deposit>, owner: string): seq<Entry> {
    var ledger := Or(h.ledger, 0);
    var shares := UserShares(deposits, owner, ledger);
    if shares > 0
    then [Entry(ledger, TotalShares(h), Or(h.delta, 0), Or(h.fee, 0), shares, Attributed(NetYield(h), shares, TotalShares(h)))]
    else []
  }

  function OwnedBy(deposits: seq<Deposit>, owner: string): seq<Deposit> {
    if deposits == [] then []
    else OwnedBy(deposits[..|deposits| - 1], owner)
         + (if deposits[|deposits| - 1].owner == owner then [deposits[|deposits| - 1]] else [])
  }

  lemma {:induction false} FilterKeepsShares(deposits: seq<Deposit>, owner: string, ledger: int)
    ensures UserShares(OwnedBy(deposits, owner), owner, ledger) == UserShares(deposits, owner, ledger)
    ensures forall d | d in OwnedBy(deposits, owner) :: d.owner == owner
  {
    if deposits != [] {
      var n := |deposits| - 1;
      FilterKeepsShares(deposits[..n], owner, ledger);
      var kept := OwnedBy(deposits[..n], owner);
      if deposits[n].owner == owner {
        assert (kept + [deposits[n]])[..|kept|] == kept;
      } else {
        assert kept + [] == kept;
      }
    }
  }

  /** The inner loop over the owner's deposits. */
  method SharesAtHarvest(ownerDeposits: seq<Deposit>, owner: string, harvestLedger: int) returns (shares: int)
    requires forall d | d in ownerDeposits :: d.owner == owner
    ensures shares == UserShares(ownerDeposits, owner, harvestLedger)
  {
    shares := 0;
    for i := 0 to |ownerDeposits|
      invariant shares == UserShares(ownerDeposits[..i], owner, harvestLedger)
    {
      var deposit := ownerDeposits[i];
      assert deposit in ownerDeposits;
      assert ownerDeposits[..i + 1][..i] == ownerDeposits[..i];
      if deposit.ledger <= harvestLedger {
        shares := shares + Or(deposit.sharesMinted, 0);
      }
    }
    assert ownerDeposits[..|ownerDeposits|] == ownerDeposits;
  }

  method GetHarvestAttributionHistory(hasPosition: bool, owner: string, harvests: seq<Harvest>, deposits: seq<Deposit>)
    returns (history: seq<Entry>)
    ensures history == if hasPosition then HistoryOf(harvests, deposits, owner) else []
  {
    hide UserShares, OwnedBy, Attributed;
    history := [];
    if !hasPosition {
      return;
    }
    var ownerDeposits := OwnedBy(deposits, owner);
    for i := 0 to |harvests|
      invariant history == HistoryOf(harvests[..i], deposits, owner)
    {
      var harvest := harvests[i];
      var harvestLedger := Or(harvest.ledger, 0);
      FilterKeepsShares(deposits, owner, harvestLedger);
      var shares := SharesAtHarvest(ownerDeposits, owner, harvestLedger);
      var attributed := Attributed(NetYield(harvest), shares, TotalShares(harvest));
      assert harvests[..i + 1][..i] == harvests[..i];
      if shares > 0 {
        history := history + [Entry(harvestLedger, TotalShares(harvest), Or(harvest.delta, 0), Or(harvest.fee, 0), shares, attributed)];
      }
    }
    assert harvests[..|harvests|] == harvests;
  }

  // ---- splitting a harvest -------------------------------------------------

  function Sum(xs: seq<int>): int {
    if xs == [] then 0 else Sum(xs[..|xs| - 1]) + xs[|xs| - 1]
  }

  /** What each holder in the list is attributed, summed. */
  function SumAttributed(net: int, shares: seq<int>, total: int): int {
    if shares == [] then 0
    else SumAttributed(net, shares[..|shares| - 1], total) + Attributed(net, shares[|shares| - 1], total)
  }

  ghost predicate NonNegative(xs: seq<int>) {
    forall i | 0 <= i < |xs| :: xs[i] >= 0
  }

  /** A loss is split as the mirror image of a gain. */
  lemma {:induction false} LossMirrorsGain(net: int, shares: seq<int>, total: int)
    requires total > 0
    ensures SumAttributed(-net, shares, total) == -SumAttributed(net, shares, total)
  {
    hide Attributed;
    if shares != [] {
      LossMirrorsGain(net, shares[..|shares| - 1], total);
      AttributedMirrors(net, shares[|shares| - 1], total);
    }
  }

  lemma {:induction false} AttributedMirrors(net: int, share: int, total: int)
    requires total > 0
    ensures Attributed(-net, share, total) == -Attributed(net, share, total)
  {
    TruncMirrors(net * share, total);
    hide TruncDiv;
    assert (-net) * share == -(net * share);
  }

  lemma {:induction false} TruncMirrors(a: int, b: int)
    requires b > 0
    ensures TruncDiv(-a, b) == -TruncDiv(a, b)
  {
    if a == 0 {
      QuotientUnique(0, b, 0, 0);
    }
  }

  lemma {:induction false} FloorBounds(net: nat, share: nat, total: nat)
    requires total > 0
    ensures 0 <= Attributed(net, share, total)
    ensures total * Attributed(net, share, total) <= net * share <= total * Attributed(net, share, total) + total - 1
  {
    var p := net * share;
    assert p >= 0;
    if share > 0 {
      var q := p / total;
      assert p == total * q + p % total;
    }
  }

  /** total * sum <= net * shares <= total * sum + n * (total - 1) */
  lemma {:induction false} SumBounds(net: nat, shares: seq<int>, total: nat)
    requires total > 0 && NonNegative(shares)
    ensures
      var sum := SumAttributed(net, shares, total);
      0 <= sum && total * sum <= net * Sum(shares) <= total * sum + |shares| * (total - 1)
  {
    hide Attributed;
    if shares != [] {
      var n := |shares| - 1;
      SumBounds(net, shares[..n], total);
      FloorBounds(net, shares[n], total);
      var a, b := SumAttributed(net, shares[..n], total), Attributed(net, shares[n], total);
      Distribute(total, a, b);
      Distribute(net, Sum(shares[..n]), shares[n]);
      Distribute(total - 1, n, 1);
    }
  }

  lemma {:induction false} Distribute(x: int, a: int, b: int)
    ensures x * (a + b) == x * a + x * b
  {
  }

  lemma {:induction false} ScaleLess(x: nat, a: int, b: int)
    requires x > 0
    ensures x * a <= x * b <==> a <= b
    ensures x * a < x * b <==> a < b
  {
    Distribute(x, a, b - a);
    if a < b {
      Positive(x, b - a);
    } else if b < a {
      Positive(x, a - b);
      Distribute(x, b, a - b);
    }
  }

  lemma {:induction false} Positive(x: int, y: int)
    requires x > 0 && y > 0
    ensures x * y > 0
  {
  }

  /** A gain is never over-attributed, and with all shares held what is left over is under one unit a holder. */
  lemma {:induction false} GainSplit(net: nat, shares: seq<int>, total: nat)
    requires total > 0 && NonNegative(shares) && Sum(shares) <= total
    ensures 0 <= SumAttributed(net, shares, total) <= net
    ensures Sum(shares) == total ==> net - SumAttributed(net, shares, total) < |shares|
  {
    hide SumAttributed, Sum;
    var sum := SumAttributed(net, shares, total);
    SumBounds(net, shares, total);
    assert net * Sum(shares) <= net * total by {
      if net > 0 {
        ScaleLess(net, Sum(shares), total);
      }
    }
    assert net * total == total * net;
    ScaleLess(total, sum, net);
    if Sum(shares) == total {
      SomeHolder(shares);
      Distribute(total, sum, net - sum);
      assert total * (net - sum) <= |shares| * (total - 1);
      assert |shares| * (total - 1) == total * |shares| - |shares|;
      ScaleLess(total, net - sum, |shares|);
    }
  }

  lemma {:induction false} SomeHolder(shares: seq<int>)
    requires Sum(shares) > 0
    ensures |shares| > 0
  {
  }

  function Abs(x: int): nat {
    if x >= 0 then x else -x
  }

  /**
   * When the holders' shares sum to at most the recorded total, what they are
   * attributed has the sign of the net yield and does not exceed it; when the shares
   * sum to the total, less than one unit per holder is left over. Gains and losses.
   */
  lemma {:induction false} SplitIsFair(net: int, shares: seq<int>, total: nat)
    requires total > 0 && NonNegative(shares) && Sum(shares) <= total
    ensures
      var sum := SumAttributed(net, shares, total);
      && (net >= 0 ==> sum >= 0) && (net <= 0 ==> sum <= 0)
      && Abs(sum) <= Abs(net)
      && (Sum(shares) == total ==> Abs(net) - Abs(sum) < |shares|)
  {
    hide SumAttributed, Sum;
    GainSplit(Abs(net), shares, total);
    LossMirrorsGain(net, shares, total);
  }

  // ---- the shares the code counts ------------------------------------------

  function SharesOf(deposits: seq<Deposit>, owners: seq<string>, ledger: int): (r: seq<int>)
    ensures |r| == |owners|
  {
    seq(|owners|, i requires 0 <= i < |owners| => UserShares(deposits, owners[i], ledger))
  }

  /** Everything minted up to a ledger. */
  function Minted(deposits: seq<Deposit>, ledger: int): int {
    if deposits == [] then 0
    else
      var d := deposits[|deposits| - 1];
      Minted(deposits[..|deposits| - 1], ledger) + (if d.ledger <= ledger then Or(d.sharesMinted, 0) else 0)
  }

  ghost predicate Distinct(owners: seq<string>) {
    forall i, j | 0 <= i < j < |owners| :: owners[i] != owners[j]
  }

  ghost predicate ListsAll(deposits: seq<Deposit>, owners: seq<string>) {
    forall i | 0 <= i < |deposits| :: deposits[i].owner in owners
  }

  /** One more deposit adds its shares to one owner's count. */
  lemma {:induction false} DepositCountsOnce(deposits: seq<Deposit>, d: Deposit, owners: seq<string>, ledger: int)
    requires Distinct(owners)
    ensures Sum(SharesOf(deposits + [d], owners, ledger)) ==
            Sum(SharesOf(deposits, owners, ledger)) + (if d.owner in owners && d.ledger <= ledger then Or(d.sharesMinted, 0) else 0)
  {
    if owners != [] {
      var n := |owners| - 1;
      var rest := owners[..n];
      DepositCountsOnce(deposits, d, rest, ledger);
      assert owners == rest + [owners[n]];
      assert owners[n] !in rest;
      assert (deposits + [d])[..|deposits|] == deposits;
      assert SharesOf(deposits + [d], owners, ledger)[..n] == SharesOf(deposits + [d], rest, ledger);
      assert SharesOf(deposits, owners, ledger)[..n] == SharesOf(deposits, rest, ledger);
    }
  }

  lemma {:induction false} NoDepositsNoShares(owners: seq<string>, ledger: int)
    ensures Sum(SharesOf([], owners, ledger)) == 0
  {
    if owners != [] {
      var n := |owners| - 1;
      NoDepositsNoShares(owners[..n], ledger);
      assert SharesOf([], owners, ledger)[..n] == SharesOf([], owners[..n], ledger);
    }
  }

  /** Over all depositors, the shares counted are exactly those minted. */
  lemma {:induction false} SharesPartition(deposits: seq<Deposit>, owners: seq<string>, ledger: int)
    requires Distinct(owners) && ListsAll(deposits, owners)
    ensures Sum(SharesOf(deposits, owners, ledger)) == Minted(deposits, ledger)
  {
    hide Sum, SharesOf, Distinct;
    if deposits == [] {
      NoDepositsNoShares(owners, ledger);
    } else {
      var n := |deposits| - 1;
      SharesPartition(deposits[..n], owners, ledger);
      assert deposits == deposits[..n] + [deposits[n]];
      DepositCountsOnce(deposits[..n], deposits[n], owners, ledger);
    }
  }

  lemma {:induction false} SharesNonNegative(deposits: seq<Deposit>, owner: string, ledger: int)
    requires forall i | 0 <= i < |deposits| :: Or(deposits[i].sharesMinted, 0) >= 0
    ensures UserShares(deposits, owner, ledger) >= 0
  {
    if deposits != [] {
      SharesNonNegative(deposits[..|deposits| - 1], owner, ledger);
    }
  }

  /**
   * If a harvest records exactly the shares minted so far, splitting it over all
   * depositors gives out the net yield up to less than one unit a depositor.
   */
  lemma {:induction false} HarvestIsSplitOverDepositors(h: Harvest, deposits: seq<Deposit>, owners: seq<string>)
    requires Distinct(owners) && ListsAll(deposits, owners)
    requires forall i | 0 <= i < |deposits| :: Or(deposits[i].sharesMinted, 0) >= 0
    requires TotalShares(h) > 0 && Minted(deposits, Or(h.ledger, 0)) == TotalShares(h)
    ensures
      var sum := SumAttributed(NetYield(h), SharesOf(deposits, owners, Or(h.ledger, 0)), TotalShares(h));
      Abs(sum) <= Abs(NetYield(h)) && Abs(NetYield(h)) - Abs(sum) < |owners|
  {
    hide Sum, SumAttributed, Minted, UserShares, Distinct, ListsAll;
    var ledger := Or(h.ledger, 0);
    var shares := SharesOf(deposits, owners, ledger);
    SharesPartition(deposits, owners, ledger);
    forall i | 0 <= i < |shares| ensures shares[i] >= 0 {
      SharesNonNegative(deposits, owners[i], ledger);
    }
    SplitIsFair(NetYield(h), shares, TotalShares(h));
  }

  /** One owner alone is attributed more than a gain exactly when the counted shares exceed the total by enough. */
  lemma {:induction false} OwnerExceedsGainIff(net: nat, shares: nat, total: nat)
    requires total > 0 && shares > 0
    ensures Attributed(net, shares, total) > net <==> net * (shares - total) >= total
  {
    var a := Attributed(net, shares, total);
    FloorBounds(net, shares, total);
    hide Attributed;
    Distribute(net, total, shares - total);
    Distribute(total, net, 1);
    ScaleLess(total, a, net);
    ScaleLess(total, net + 1, a);
    ScaleLess(total, net + 1, a + 1);
    Distribute(total, a, 1);
  }

  // ---- the returned entries ------------------------------------------------

  /** An event without its fields counts as ledger 0, one share, nothing earned and no fee. */
  lemma {:induction false} MissingFields(h: Harvest)
    ensures Or(h.ledger, 0) == match h.ledger case Some(l) => l case None => 0
    ensures TotalShares(h) == match h.totalShares case Some(n) => n case None => 1
    ensures NetYield(h) == (match h.delta case Some(d) => d case None => 0) - (match h.fee case Some(f) => f case None => 0)
  {
  }

  /** There is one entry for each harvest at which the owner held something, in order, and it carries that harvest's own figures. */
  lemma {:induction false} EntriesCarryHarvests(harvests: seq<Harvest>, deposits: seq<Deposit>, owner: string, j: nat)
    requires j < |harvests|
    ensures
      var h, k := harvests[j], |HistoryOf(harvests[..j], deposits, owner)|;
      var shares := UserShares(deposits, owner, Or(h.ledger, 0));
      && |HistoryOf(harvests[..j + 1], deposits, owner)| == k + (if shares > 0 then 1 else 0)
      && k <= |HistoryOf(harvests, deposits, owner)|
      && (shares > 0 ==>
            && k < |HistoryOf(harvests, deposits, owner)|
            && var e := HistoryOf(harvests, deposits, owner)[k];
               e.ledger == Or(h.ledger, 0) && e.delta == Or(h.delta, 0) && e.fee == Or(h.fee, 0)
               && e.totalShares == Or(h.totalShares, 1) && e.userShares == shares)
  {
    hide UserShares, Attributed;
    HistoryGrows(harvests, deposits, owner, j);
    HistoryGrows(harvests, deposits, owner, j + 1);
    assert harvests[..j + 1][..j] == harvests[..j];
    assert HistoryOf(harvests[..j + 1], deposits, owner)
        == HistoryOf(harvests[..j], deposits, owner) + EntryOf(harvests[j], deposits, owner);
  }

  lemma {:induction false} HistoryGrows(harvests: seq<Harvest>, deposits: seq<Deposit>, owner: string, j: nat)
    requires j <= |harvests|
    ensures HistoryOf(harvests[..j], deposits, owner) <= HistoryOf(harvests, deposits, owner)
    decreases |harvests| - j
  {
    hide EntryOf;
    if j == |harvests| {
      assert harvests[..j] == harvests;
    } else {
      HistoryGrows(harvests, deposits, owner, j + 1);
      assert harvests[..j + 1][..j] == harvests[..j];
    }
  }

  /** Whoever holds all the recorded shares is attributed the whole yield less the fee. */
  lemma {:induction false} SoleOwnerGetsAll(h: Harvest, deposits: seq<Deposit>, owner: string, delta: int, fee: int)
    requires h.delta == Some(delta) && h.fee == Some(fee) && h.totalShares.Some? && h.totalShares.value > 0
    requires UserShares(deposits, owner, Or(h.ledger, 0)) == h.totalShares.value
    ensures |EntryOf(h, deposits, owner)| == 1 && EntryOf(h, deposits, owner)[0].attributed == delta - fee
  {
    var total := h.totalShares.value;
    var net := delta - fee;
    if net >= 0 {
      QuotientUnique(net * total, total, net, 0);
    } else {
      QuotientUnique((-net) * total, total, -net, 0);
      assert (-net) * total == -(net * total);
      assert net * total < 0 by {
        Positive(-net, total);
      }
    }
  }

  /** What the entries of one harvest attribute, over a list of owners. */
  function SumOfEntries(h: Harvest, deposits: seq<Deposit>, owners: seq<string>): int {
    if owners == [] then 0
    else
      var n := |owners| - 1;
      var entry := EntryOf(h, deposits, owners[n]);
      SumOfEntries(h, deposits, owners[..n]) + (if entry == [] then 0 else entry[0].attributed)
  }

  lemma {:induction false} SumOfEntriesIsSum(h: Harvest, deposits: seq<Deposit>, owners: seq<string>)
    ensures SumOfEntries(h, deposits, owners) ==
            SumAttributed(NetYield(h), SharesOf(deposits, owners, Or(h.ledger, 0)), TotalShares(h))
  {
    hide UserShares, TruncDiv;
    if owners != [] {
      var n := |owners| - 1;
      var shares := SharesOf(deposits, owners, Or(h.ledger, 0));
      SumOfEntriesIsSum(h, deposits, owners[..n]);
      assert shares[..n] == SharesOf(deposits, owners[..n], Or(h.ledger, 0));
    }
  }

  /**
   * A gain whose record holds the shares minted so far, split over all depositors: what the
   * entries attribute and the fee together never exceed what was earned, and fall short of it
   * by less than one unit per owner.
   */
  lemma {:induction false} GainGoesToDepositors(h: Harvest, deposits: seq<Deposit>, owners: seq<string>, delta: int, fee: int)
    requires h.delta == Some(delta) && h.fee == Some(fee) && delta >= fee
    requires Distinct(owners) && ListsAll(deposits, owners)
    requires forall i | 0 <= i < |deposits| :: Or(deposits[i].sharesMinted, 0) >= 0
    requires TotalShares(h) > 0 && Minted(deposits, Or(h.ledger, 0)) == TotalShares(h)
    ensures 0 <= delta - (SumOfEntries(h, deposits, owners) + fee) < |owners|
  {
    hide Sum, SumAttributed, Minted, UserShares, Distinct, ListsAll, SumOfEntries;
    var shares := SharesOf(deposits, owners, Or(h.ledger, 0));
    SumOfEntriesIsSum(h, deposits, owners);
    SharesPartition(deposits, owners, Or(h.ledger, 0));
    forall i | 0 <= i < |shares| ensures shares[i] >= 0 {
      SharesNonNegative(deposits, owners[i], Or(h.ledger, 0));
    }
    SplitIsFair(NetYield(h), shares, TotalShares(h));
  }

  /** A loss is shared out likewise: never more of it than there was, and all but less than one unit per owner. */
  lemma {:induction false} LossGoesToDepositors(h: Harvest, deposits: seq<Deposit>, owners: seq<string>, delta: int, fee: int)
    requires h.delta == Some(delta) && h.fee == Some(fee) && delta < fee
    requires Distinct(owners) && ListsAll(deposits, owners)
    requires forall i | 0 <= i < |deposits| :: Or(deposits[i].sharesMinted, 0) >= 0
    requires TotalShares(h) > 0 && Minted(deposits, Or(h.ledger, 0)) == TotalShares(h)
    ensures 0 <= SumOfEntries(h, deposits, owners) + fee - delta < |owners| && SumOfEntries(h, deposits, owners) <= 0
  {
    hide Sum, SumAttributed, Minted, UserShares, Distinct, ListsAll, SumOfEntries;
    var shares := SharesOf(deposits, owners, Or(h.ledger, 0));
    SumOfEntriesIsSum(h, deposits, owners);
    SharesPartition(deposits, owners, Or(h.ledger, 0));
    forall i | 0 <= i < |shares| ensures shares[i] >= 0 {
      SharesNonNegative(deposits, owners[i], Or(h.ledger, 0));
    }
    SplitIsFair(NetYield(h), shares, TotalShares(h));
  }
}
