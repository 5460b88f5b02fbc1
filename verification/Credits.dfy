/**
 * The credit floor of provision-enterprise-org.ts and the grant it goes
 * through: `createCreditLot` and `settleOwedCredits` of
 * packages/billing/src/credits.ts, which collects what an organisation owes
 * out of the credits that just arrived.
 */
module Credits {
  import opened Common
  import Decimal

  const MICRO_PER_CREDIT: nat := 1_000_000

  /** Credits left on a grant; without an expiry it never lapses. */
  datatype Lot = Lot(remaining: nat, expiresAt: Option<int>)

  /** Micro-credits carried for one billing reason: a fraction, and any whole credits owed. */
  datatype Bucket = Bucket(reason: string, micro: nat)

  predicate Live(l: Lot, now: int) {
    l.expiresAt.None? || l.expiresAt.value > now
  }

  /** The spendable balance: unexpired lots only. */
  function Balance(lots: seq<Lot>, now: int): nat {
    if lots == [] then 0 else (if Live(lots[0], now) then lots[0].remaining else 0) + Balance(lots[1..], now)
  }

  function Owed(buckets: seq<Bucket>): nat {
    if buckets == [] then 0 else buckets[0].micro / MICRO_PER_CREDIT + Owed(buckets[1..])
  }

  function Min(a: nat, b: nat): nat { if a <= b then a else b }

  function Max(a: nat, b: nat): nat { if a <= b then b else a }

  /** How much to grant so the balance reaches the floor. */
  function TopUpCents(current: nat, floor: nat): (t: nat)
    ensures current + t == Max(current, floor)
  {
    if current >= floor then 0 else floor - current
  }

  lemma {:induction false} BalanceConcat(a: seq<Lot>, b: seq<Lot>, now: int)
    ensures Balance(a + b, now) == Balance(a, now) + Balance(b, now)
  {
    if a == [] {
      assert a + b == b;
    } else {
      assert (a + b)[1..] == a[1..] + b;
      BalanceConcat(a[1..], b, now);
    }
  }

  lemma BalanceUpdate(lots: seq<Lot>, i: nat, l: Lot, now: int)
    requires i < |lots| && l.expiresAt == lots[i].expiresAt
    ensures Balance(lots[i := l], now) ==
      Balance(lots, now) + if Live(l, now) then l.remaining - lots[i].remaining else 0
  {
    var a, b := lots[..i], lots[i + 1..];
    assert lots == a + ([lots[i]] + b) && lots[i := l] == a + ([l] + b);
    BalanceConcat(a, [lots[i]] + b, now);
    BalanceConcat(a, [l] + b, now);
    assert ([lots[i]] + b)[1..] == b && ([l] + b)[1..] == b;
  }

  lemma {:induction false} OwedConcat(a: seq<Bucket>, b: seq<Bucket>)
    ensures Owed(a + b) == Owed(a) + Owed(b)
  {
    if a == [] {
      assert a + b == b;
    } else {
      assert (a + b)[1..] == a[1..] + b;
      OwedConcat(a[1..], b);
    }
  }

  lemma OwedUpdate(buckets: seq<Bucket>, i: nat, paid: nat)
    requires i < |buckets| && paid <= buckets[i].micro / MICRO_PER_CREDIT
    ensures paid * MICRO_PER_CREDIT <= buckets[i].micro
    ensures var next := Bucket(buckets[i].reason, buckets[i].micro - paid * MICRO_PER_CREDIT);
      && Owed(buckets[i := next]) == Owed(buckets) - paid
      && next.micro % MICRO_PER_CREDIT == buckets[i].micro % MICRO_PER_CREDIT
      && next.micro / MICRO_PER_CREDIT == buckets[i].micro / MICRO_PER_CREDIT - paid
  {
    var next := Bucket(buckets[i].reason, buckets[i].micro - paid * MICRO_PER_CREDIT);
    var a, b := buckets[..i], buckets[i + 1..];
    assert buckets == a + ([buckets[i]] + b) && buckets[i := next] == a + ([next] + b);
    OwedConcat(a, [buckets[i]] + b);
    OwedConcat(a, [next] + b);
    assert ([buckets[i]] + b)[1..] == b && ([next] + b)[1..] == b;
  }

  /** `after` has the lots of `before`, in order, none of them larger. */
  ghost predicate OnlyDrained(before: seq<Lot>, after: seq<Lot>, now: int) {
    && |after| == |before|
    && (forall i | 0 <= i < |before| ::
         after[i].expiresAt == before[i].expiresAt && after[i].remaining <= before[i].remaining)
    && (forall i | 0 <= i < |before| && !Live(before[i], now) :: after[i] == before[i])
    && forall i, j | 0 <= i < j < |before| && Live(before[i], now) && after[j] != before[j] :: after[i].remaining == 0
  }

  /** The fractions of the buckets are kept: settling only collects whole credits. */
  ghost predicate OnlySettled(before: seq<Bucket>, after: seq<Bucket>) {
    && |after| == |before|
    && forall i | 0 <= i < |before| ::
         && after[i].reason == before[i].reason && after[i].micro <= before[i].micro
         && after[i].micro % MICRO_PER_CREDIT == before[i].micro % MICRO_PER_CREDIT
  }

  /** A later bucket is only paid once the earlier ones owe nothing. */
  ghost predicate PaidInOrder(before: seq<Bucket>, after: seq<Bucket>)
    requires |after| == |before|
  {
    forall i, j | 0 <= i < j < |before| && after[j] != before[j] :: after[i].micro / MICRO_PER_CREDIT == 0
  }

  lemma DrainedTwice(a: seq<Lot>, b: seq<Lot>, c: seq<Lot>, now: int)
    requires OnlyDrained(a, b, now) && OnlyDrained(b, c, now)
    ensures OnlyDrained(a, c, now)
  {
  }

  lemma SettledTwice(a: seq<Bucket>, b: seq<Bucket>, c: seq<Bucket>)
    requires OnlySettled(a, b) && OnlySettled(b, c)
    ensures OnlySettled(a, c)
  {
  }

  lemma OwedFrom(buckets: seq<Bucket>, i: nat)
    requires i < |buckets|
    ensures Owed(buckets[i..]) == buckets[i].micro / MICRO_PER_CREDIT + Owed(buckets[i + 1..])
  {
    assert buckets[i..][1..] == buckets[i + 1..];
  }

  /** One organisation's lots, in the order they are spent, and its carry buckets, in the order they are settled. */
  class Wallet {
    var lots: seq<Lot>
    var buckets: seq<Bucket>

    constructor (lots: seq<Lot>, buckets: seq<Bucket>)
      ensures this.lots == lots && this.buckets == buckets
    {
      this.lots, this.buckets := lots, buckets;
    }

    /** Takes `amount` out of the live lots in order, never driving one below zero. */
    method DrainLots(amount: nat, now: int)
      requires amount <= Balance(lots, now)
      modifies this`lots
      ensures OnlyDrained(old(lots), lots, now)
      ensures Balance(lots, now) == Balance(old(lots), now) - amount
    {
      ghost var before := lots;
      var left := amount;
      assert lots[0..] == lots;
      for i := 0 to |lots|
        invariant |lots| == |before| && OnlyDrained(before, lots, now)
        invariant lots[i..] == before[i..]
        invariant Balance(lots, now) == Balance(before, now) - (amount - left)
        invariant 0 <= left <= amount && left <= Balance(lots[i..], now)
        invariant left > 0 ==> forall k | 0 <= k < i && Live(before[k], now) :: lots[k].remaining == 0
      {
        assert lots[i..][1..] == lots[i + 1..];
        if left > 0 && Live(lots[i], now) && lots[i].remaining > 0 {
          var debit := if left <= lots[i].remaining then left else lots[i].remaining;
          var spent := lots[i].(remaining := lots[i].remaining - debit);
          BalanceUpdate(lots, i, spent, now);
          ghost var rest := lots[i + 1..];
          left := left - debit;
          lots := lots[i := spent];
          assert lots[i + 1..] == rest;
        }
      }
      assert lots[|before|..] == [];
    }

    /** Collects what one reason owes, as far as the lots go. */
    method PayBucket(i: nat, now: int) returns (pay: nat)
      requires i < |buckets|
      modifies this
      ensures pay == Min(old(buckets)[i].micro / MICRO_PER_CREDIT, Balance(old(lots), now))
      ensures Balance(lots, now) == Balance(old(lots), now) - pay && Owed(buckets) == Owed(old(buckets)) - pay
      ensures OnlyDrained(old(lots), lots, now) && OnlySettled(old(buckets), buckets)
      ensures buckets[i + 1..] == old(buckets)[i + 1..] && buckets[..i] == old(buckets)[..i]
      ensures pay == 0 ==> buckets == old(buckets)
      ensures buckets[i].micro / MICRO_PER_CREDIT == old(buckets)[i].micro / MICRO_PER_CREDIT - pay
    {
      pay := Min(buckets[i].micro / MICRO_PER_CREDIT, Balance(lots, now));
      if pay > 0 {
        OwedUpdate(buckets, i, pay);
        DrainLots(pay, now);
        buckets := buckets[i := Bucket(buckets[i].reason, buckets[i].micro - pay * MICRO_PER_CREDIT)];
      }
    }

    /** Collects what is owed out of the lots, reason by reason, as far as they go. */
    method SettleOwedCredits(now: int) returns (collected: nat)
      modifies this
      ensures collected == Min(Owed(old(buckets)), Balance(old(lots), now))
      ensures Balance(lots, now) == Balance(old(lots), now) - collected
      ensures Owed(buckets) == Owed(old(buckets)) - collected
      ensures OnlyDrained(old(lots), lots, now) && OnlySettled(old(buckets), buckets)
      ensures PaidInOrder(old(buckets), buckets)
    {
      ghost var lots0, buckets0 := lots, buckets;
      collected := 0;
      assert buckets[0..] == buckets;
      for i := 0 to |buckets|
        invariant |buckets| == |buckets0| && OnlySettled(buckets0, buckets) && OnlyDrained(lots0, lots, now)
        invariant collected <= Balance(lots0, now) && Balance(lots, now) == Balance(lots0, now) - collected
        invariant Owed(buckets) == Owed(buckets0) - collected
        invariant Balance(lots, now) > 0 ==> Owed(buckets) == Owed(buckets[i..])
        invariant PaidInOrder(buckets0, buckets) && buckets[i..] == buckets0[i..]
        invariant Balance(lots, now) > 0 ==> forall k | 0 <= k < i :: buckets[k].micro / MICRO_PER_CREDIT == 0
      {
        ghost var lots1, buckets1 := lots, buckets;
        var pay := PayBucket(i, now);
        DrainedTwice(lots0, lots1, lots, now);
        SettledTwice(buckets0, buckets1, buckets);
        OwedFrom(buckets, i);
        OwedFrom(buckets1, i);
        collected := collected + pay;
      }
      assert buckets[|buckets|..] == [];
    }

    /** Grants a lot that never expires, then settles what is owed out of everything spendable. */
    method CreateCreditLot(amount: nat, now: int) returns (effective: nat)
      requires amount > 0
      modifies this
      ensures effective == Balance(lots, now)
      ensures var collected := Min(Owed(old(buckets)), Balance(old(lots), now) + amount);
        && Balance(lots, now) == Balance(old(lots), now) + amount - collected
        && Owed(buckets) == Owed(old(buckets)) - collected
      ensures OnlyDrained(old(lots) + [Lot(amount, None)], lots, now)
      ensures OnlySettled(old(buckets), buckets) && PaidInOrder(old(buckets), buckets)
    {
      BalanceConcat(lots, [Lot(amount, None)], now);
      lots := lots + [Lot(amount, None)];
      var settled := SettleOwedCredits(now);
      effective := Balance(lots, now);
    }

    /** One apply step of the credit floor. */
    method HoldFloor(floor: nat, now: int) returns (granted: nat)
      modifies this
      ensures granted == TopUpCents(Balance(old(lots), now), floor)
      ensures (Balance(lots, now), Owed(buckets)) == AfterTopUp(Balance(old(lots), now), Owed(old(buckets)), floor)
      ensures Balance(old(lots), now) >= floor ==> lots == old(lots) && buckets == old(buckets)
    {
      granted := TopUpCents(Balance(lots, now), floor);
      if granted > 0 {
        var effective := CreateCreditLot(granted, now);
      }
    }
  }

  // ---- What repeated top-ups come to ----

  /** Balance and debt after one top-up: a shortfall is granted, and debt takes its share first. */
  function AfterTopUp(balance: nat, owed: nat, floor: nat): (nat, nat) {
    if balance >= floor then (balance, owed) else (floor - Min(owed, floor), owed - Min(owed, floor))
  }

  /** One run leaves the balance at the floor or above exactly when it was there already or nothing is owed. */
  lemma ReachesFloorIff(balance: nat, owed: nat, floor: nat)
    requires floor > 0
    ensures AfterTopUp(balance, owed, floor).0 == Max(balance, floor) <==> balance >= floor || owed == 0
  {
  }

  /** The same step again changes nothing exactly when the first one reached the floor. */
  lemma SecondRunIdleIff(balance: nat, owed: nat, floor: nat)
    requires floor > 0
    ensures var (b, d) := AfterTopUp(balance, owed, floor);
      AfterTopUp(b, d, floor) == (b, d) <==> balance >= floor || owed == 0
  {
  }

  /** A debt keeps one run below the floor, and a second run then grants again. */
  lemma DebtDefeatsOneRun()
    ensures AfterTopUp(0, 30, 100) == (70, 0) && AfterTopUp(70, 0, 100) == (100, 0)
  {
  }

  function AfterRuns(balance: nat, owed: nat, floor: nat, runs: nat): (nat, nat)
    decreases runs
  {
    if runs == 0 then (balance, owed)
    else
      var (b, d) := AfterTopUp(balance, owed, floor);
      AfterRuns(b, d, floor, runs - 1)
  }

  lemma EnoughRuns(runs: nat, floor: nat, owed: nat)
    requires floor > 0 && runs * floor >= owed + floor
    ensures runs >= 1 && (owed > 0 ==> runs >= 2)
  {
  }

  /** Runs enough to cover the debt and once more reach the floor, whatever was owed, and then stay. */
  lemma {:induction false} RunsConverge(balance: nat, owed: nat, floor: nat, runs: nat)
    requires floor > 0 && runs * floor >= owed + floor
    ensures AfterRuns(balance, owed, floor, runs).0 == Max(balance, floor)
    ensures balance < floor ==> AfterRuns(balance, owed, floor, runs).1 == 0
    decreases runs
  {
    EnoughRuns(runs, floor, owed);
    var (b, d) := AfterTopUp(balance, owed, floor);
    if balance >= floor || owed == 0 {
      StaysAtFloor(b, d, floor, runs - 1);
    } else if owed < floor {
      assert (b, d) == (floor - owed, 0);
      StaysAtFloor(floor, 0, floor, runs - 2);
    } else {
      assert (runs - 1) * floor == runs * floor - floor;
      RunsConverge(0, owed - floor, floor, runs - 1);
    }
  }

  lemma {:induction false} StaysAtFloor(balance: nat, owed: nat, floor: nat, runs: nat)
    requires balance >= floor
    ensures AfterRuns(balance, owed, floor, runs) == (balance, owed)
    decreases runs
  {
    if runs > 0 { StaysAtFloor(balance, owed, floor, runs - 1); }
  }

  // ---- The console figure ----

  /** A comma before every third digit from the right. */
  function Grouped(s: string): string {
    if |s| <= 3 then s else Grouped(s[..|s| - 3]) + ("," + s[|s| - 3..])
  }

  /** The commas stand exactly before every third digit from the right. */
  lemma {:induction false} CommasEveryThree(s: string)
    requires s != [] && Decimal.AllDigits(s)
    ensures Grouped(s) != []
    ensures forall i | 0 <= i < |Grouped(s)| :: Grouped(s)[i] == ',' <==> (|Grouped(s)| - i) % 4 == 0
    decreases |s|
  {
    if |s| > 3 {
      var a, b := s[..|s| - 3], s[|s| - 3..];
      CommasEveryThree(a);
      var g := Grouped(a);
      assert Grouped(s) == g + ("," + b);
      forall i | 0 <= i < |Grouped(s)| ensures Grouped(s)[i] == ',' <==> (|Grouped(s)| - i) % 4 == 0 {
        if i < |g| {
          assert |Grouped(s)| - i == (|g| - i) + 4;
        } else if i > |g| {
          assert Grouped(s)[i] == b[i - |g| - 1];
        }
      }
    }
  }

  function WithoutCommas(s: string): string {
    if s == [] then [] else (if s[0] == ',' then [] else [s[0]]) + WithoutCommas(s[1..])
  }

  lemma {:induction false} WithoutCommasConcat(a: string, b: string)
    ensures WithoutCommas(a + b) == WithoutCommas(a) + WithoutCommas(b)
  {
    if a == [] {
      assert a + b == b;
    } else {
      assert (a + b)[1..] == a[1..] + b;
      WithoutCommasConcat(a[1..], b);
    }
  }

  lemma {:induction false} WithoutCommasOfDigits(s: string)
    requires forall i | 0 <= i < |s| :: s[i] != ','
    ensures WithoutCommas(s) == s
  {
    if s != [] { WithoutCommasOfDigits(s[1..]); }
  }

  /** Grouping only adds commas. */
  lemma {:induction false} GroupedReads(s: string)
    requires forall i | 0 <= i < |s| :: s[i] != ','
    ensures WithoutCommas(Grouped(s)) == s
    decreases |s|
  {
    if |s| <= 3 {
      WithoutCommasOfDigits(s);
    } else {
      var a, b := s[..|s| - 3], s[|s| - 3..];
      GroupedReads(a);
      WithoutCommasConcat(Grouped(a), "," + b);
      CommaReads(b);
      assert s == a + b;
    }
  }

  lemma CommaReads(b: string)
    requires forall i | 0 <= i < |b| :: b[i] != ','
    ensures WithoutCommas("," + b) == b
  {
    WithoutCommasOfDigits(b);
    assert ("," + b)[1..] == b;
  }

  function TwoDigits(n: nat): string
    requires n < 100
  {
    ['0' + (n / 10) as char, '0' + (n % 10) as char]
  }

  function FormatAmount(amount: nat): string {
    Grouped(Decimal.Text(amount / 100)) + ("." + TwoDigits(amount % 100))
  }

  /** Credit cents as dollars. */
  function FormatCents(cents: int): string {
    if cents < 0 then "-$" + FormatAmount(-cents) else "$" + FormatAmount(cents)
  }

  /** Dollars without their commas, and cents. */
  function ReadAmount(s: string): int
    requires |s| >= 3
  {
    Decimal.Number(WithoutCommas(s[..|s| - 3])) * 100 + Decimal.Number(s[|s| - 2..])
  }

  function ReadCents(s: string): int
    requires |s| >= 5
  {
    if s[0] == '-' then -ReadAmount(s[2..]) else ReadAmount(s[1..])
  }

  lemma TwoDigitsRead(n: nat)
    requires n < 100
    ensures Decimal.Number(TwoDigits(n)) == n
  {
    var tens := ['0' + (n / 10) as char];
    Decimal.NumberAppend([], tens[0]);
    assert [] + [tens[0]] == tens;
    Decimal.NumberAppend(tens, '0' + (n % 10) as char);
    assert TwoDigits(n) == tens + ['0' + (n % 10) as char];
  }

  lemma AmountReadsBack(amount: nat)
    ensures |FormatAmount(amount)| >= 4 && ReadAmount(FormatAmount(amount)) == amount
  {
    var digits := Decimal.Text(amount / 100);
    var whole, frac := Grouped(digits), TwoDigits(amount % 100);
    GroupedReads(digits);
    Decimal.TextReads(amount / 100);
    TwoDigitsRead(amount % 100);
    NoDigitsFromNothing(whole, digits);
    var s := FormatAmount(amount);
    assert s[..|s| - 3] == whole && s[|s| - 2..] == frac;
  }

  lemma NoDigitsFromNothing(whole: string, digits: string)
    requires WithoutCommas(whole) == digits && digits != []
    ensures |whole| > 0
  {
  }

  /** The printed figure reads back as the cents it was made from. */
  lemma FormatReadsBack(cents: int)
    ensures |FormatCents(cents)| >= 5 && ReadCents(FormatCents(cents)) == cents
    ensures (if cents < 0 then "-$" else "$") <= FormatCents(cents)
    ensures FormatCents(cents)[|FormatCents(cents)| - 3] == '.'
  {
    var amount: nat := if cents < 0 then -cents else cents;
    AmountReadsBack(amount);
    var s := FormatCents(cents);
    assert (if cents < 0 then s[2..] else s[1..]) == FormatAmount(amount);
  }
}
