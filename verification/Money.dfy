/** Paying and giving change in coins (src/game.cpp, Game::removeMoney and Game::addMoney). */
module Money {
  import Arithmetic

  datatype Kind = Gold | Platinum | Crystal

  function WorthOf(kind: Kind, count: nat): nat {
    match kind
    case Gold => count
    case Platinum => 100 * count
    case Crystal => 10000 * count
  }

  /** A stack of coins as a value. */
  datatype Stack = Stack(kind: Kind, count: nat)

  function Count(stacks: seq<Stack>, kind: Kind): nat {
    if stacks == [] then 0
    else (if stacks[0].kind == kind then stacks[0].count else 0) + Count(stacks[1..], kind)
  }

  function Worth(stacks: seq<Stack>): nat {
    WorthOf(Gold, Count(stacks, Gold)) + WorthOf(Platinum, Count(stacks, Platinum))
        + WorthOf(Crystal, Count(stacks, Crystal))
  }

  lemma {:induction false} CountJoin(a: seq<Stack>, b: seq<Stack>, kind: Kind)
    ensures Count(a + b, kind) == Count(a, kind) + Count(b, kind)
  {
    if a == [] {
      assert a + b == b;
    } else {
      assert (a + b)[1..] == a[1..] + b;
      CountJoin(a[1..], b, kind);
    }
  }

  function In(stack: Stack, kind: Kind): nat {
    if stack.kind == kind then stack.count else 0
  }

  lemma CountSplit(a: seq<Stack>, x: Stack, b: seq<Stack>, kind: Kind)
    ensures Count(a + [x] + b, kind) == Count(a, kind) + In(x, kind) + Count(b, kind)
  {
    CountJoin(a + [x], b, kind);
    CountJoin(a, [x], kind);
  }

  lemma CountUpdate(stacks: seq<Stack>, j: nat, x: Stack, kind: Kind)
    requires j < |stacks|
    ensures Count(stacks[j := x], kind) == Count(stacks, kind) - In(stacks[j], kind) + In(x, kind)
  {
    assert stacks == stacks[..j] + [stacks[j]] + stacks[j + 1..];
    assert stacks[j := x] == stacks[..j] + [x] + stacks[j + 1..];
    CountSplit(stacks[..j], stacks[j], stacks[j + 1..], kind);
    CountSplit(stacks[..j], x, stacks[j + 1..], kind);
  }

  // Widths of the original: a 32-bit number of crystal coins and product, 16-bit platinum coins, and a
  // created stack whose count passes through 16 and then 8 bits.

  const BITS8 := 0x100
  const BITS16 := 0x1_0000
  const BITS32 := 0x1_0000_0000

  /** The count of a stack created for this many coins. */
  function Created(count: nat): nat {
    if count % BITS16 == 0 then 1 else count % BITS8
  }

  function Made(coins: nat): nat {
    if coins == 0 then 0 else Created(coins)
  }

  function Crystals(money: nat): nat {
    money / 10000 % BITS32
  }

  function AfterCrystals(money: nat): nat {
    money - Crystals(money) * 10000 % BITS32
  }

  function Platinums(left: nat): nat {
    left / 100 % BITS16
  }

  function Golds(left: nat): nat {
    left - Platinums(left) * 100
  }

  /** The platinum and gold coins made of what is left. */
  function Small(left: nat, kind: Kind): nat {
    match kind
    case Crystal => 0
    case Platinum => Made(Platinums(left))
    case Gold => Made(Golds(left))
  }

  /** The coins addMoney makes of one kind. */
  function Minted(money: nat, kind: Kind): nat {
    (if kind == Crystal then Crystals(money) else 0) + Small(AfterCrystals(money), kind)
  }

  /** The least amount for which the 32-bit product wraps. */
  const WRAPS := 4294970000

  function MintedWorth(money: nat): nat {
    WorthOf(Gold, Minted(money, Gold)) + WorthOf(Platinum, Minted(money, Platinum))
        + WorthOf(Crystal, Minted(money, Crystal))
  }

  /** Below the wrapping amount, the coins are worth the money, in the least number of coins. */
  lemma MintedExactly(money: nat)
    requires money < WRAPS
    ensures MintedWorth(money) == money
    ensures Minted(money, Gold) < 100 && Minted(money, Platinum) < 100
    ensures forall kind :: WorthOf(kind, 1) > money ==> Minted(money, kind) == 0
  {
    assert money / 10000 < 429497;
    assert Crystals(money) == money / 10000;
    assert AfterCrystals(money) == money % 10000;
    assert Platinums(money % 10000) == money % 10000 / 100;
  }

  lemma MintedParts(money: nat)
    ensures Minted(money, Crystal) == Crystals(money)
    ensures Minted(money, Platinum) == Small(AfterCrystals(money), Platinum)
    ensures Minted(money, Gold) == Small(AfterCrystals(money), Gold)
    ensures money < WRAPS ==> Small(AfterCrystals(money), Platinum) <= 100 && Small(AfterCrystals(money), Gold) <= 100
    ensures money == 0 ==> forall k :: Minted(money, k) == 0
  {
    if money < WRAPS {
      MintedExactly(money);
    }
  }

  /** How often the 32-bit product of the crystal coins wraps. */
  function Wraps(money: nat): nat {
    money / 10000 * 10000 / BITS32
  }

  /** What is left after the crystal coins, when their number fits: the rest and a multiple of 2^32. */
  lemma LeftOver(money: nat)
    requires money / 10000 < BITS32
    ensures Crystals(money) == money / 10000
    ensures AfterCrystals(money) == BITS32 * Wraps(money) + money % 10000
  {
    var product := money / 10000 * 10000;
    assert Crystals(money) * 10000 == product;
    assert product == BITS32 * (product / BITS32) + product % BITS32;
  }

  /** The gold coins of what is left: its last two digits, or one for a wrapped multiple of a hundred. */
  lemma GoldOf(left: nat)
    ensures left % 100 != 0 ==> Small(left, Gold) == left % 100
    ensures left % 100 == 0 ==> Small(left, Gold) == if Golds(left) == 0 then 0 else 1
  {
    var t := left / 100 / BITS16;
    assert left / 100 == BITS16 * t + Platinums(left);
    assert Golds(left) == left % 100 + BITS16 * (100 * t);
    GoldRemainder(left % 100, 100 * t, Golds(left));
  }

  lemma GoldRemainder(d: nat, t: nat, golds: nat)
    requires d < 100 && golds == d + BITS16 * t
    ensures golds % BITS16 == d && golds % BITS8 == d
    ensures Made(golds) == if golds == 0 then 0 else if d == 0 then 1 else d
  {
    Arithmetic.QuotientIs(golds, BITS16, t);
    assert golds == d + BITS8 * (BITS8 * t);
    Arithmetic.QuotientIs(golds, BITS8, BITS8 * t);
  }

  lemma LastDigits(q: nat, r: nat, left: nat)
    requires left == BITS32 * q + r
    ensures left % 100 == (96 * q + r) % 100
  {
    assert left == 100 * (42949672 * q) + (96 * q + r);
  }

  /** With every twenty-fifth wrap the wrapped part is a multiple of a hundred that leaves the platinum alone. */
  lemma WrapsOfTwentyFive(u: nat, r: nat, left: nat)
    requires left == BITS32 * (25 * u) + r && r < 10000
    ensures Platinums(left) == r / 100 && Golds(left) == r % 100 + 100 * (0x4000_0000 * u)
  {
    assert left == 100 * (0x4000_0000 * u) + r;
    assert left / 100 == 0x4000_0000 * u + r / 100;
    assert left / 100 == BITS16 * (0x4000 * u) + r / 100;
  }

  /** A number of crystal coins that does not fit is cut down, and nothing makes up for that. */
  lemma TooManyCrystals(money: nat)
    requires money / 10000 >= BITS32
    ensures MintedWorth(money) < money
  {
    var n := money / 10000;
    assert n % BITS32 <= n - BITS32;
  }

  lemma RightWraps(money: nat)
    requires money / 10000 < BITS32 && Wraps(money) % 25 == 0
    ensures MintedWorth(money) == money <==> Wraps(money) == 0 || money % 100 != 0
  {
    var r, u, left := money % 10000, Wraps(money) / 25, AfterCrystals(money);
    LeftOver(money);
    WrapsOfTwentyFive(u, r, left);
    GoldRemainder(r % 100, 0x19_0000 * u, Golds(left));
    GoldRemainder(r / 100, 0, Platinums(left));
    RightParts(money, money / 10000, r, Small(left, Platinum), Small(left, Gold));
  }

  lemma RightParts(money: nat, n: nat, r: nat, platinum: nat, gold: nat)
    requires money == 10000 * n + r && r < 10000 && platinum == r / 100
    ensures 10000 * n + 100 * platinum + gold == money <==> gold == r % 100
    ensures money % 100 == r % 100
  {
  }

  lemma WrongWraps(money: nat)
    requires money / 10000 < BITS32 && Wraps(money) % 25 != 0
    ensures MintedWorth(money) != money
  {
    var q, r, left := Wraps(money), money % 10000, AfterCrystals(money);
    LeftOver(money);
    LastDigits(q, r, left);
    GoldOf(left);
    var gold := Small(left, Gold);
    NoSuchRest(q, r, gold, left % 100);
    assert MintedWorth(money) == money ==> r - gold == 100 * Small(left, Platinum);
  }

  lemma NoSuchRest(q: nat, r: nat, gold: nat, d: nat)
    requires q % 25 != 0 && d == (96 * q + r) % 100
    requires if d != 0 then gold == d else gold <= 1
    ensures (r - gold) % 100 != 0
  {
    var v, e := q % 25, r - gold;
    assert 96 * q == 100 * (24 * (q / 25)) + 96 * v;
    assert d == (96 * v + r) % 100;
    assert 96 * v % 100 != 0;
    assert (96 * v + e + gold) % 100 == d;
  }

  /** Exactly when the coins are worth the money: the number of crystal coins fits, the product wraps a multiple
      of twenty-five times, and then, if it wraps at all, the last two digits are not both zero. */
  lemma MintedRightly(money: nat)
    ensures MintedWorth(money) == money <==>
            money / 10000 < BITS32 && Wraps(money) % 25 == 0 && (Wraps(money) == 0 || money % 100 != 0)
  {
    if money / 10000 >= BITS32 {
      TooManyCrystals(money);
    } else if Wraps(money) % 25 == 0 {
      RightWraps(money);
    } else {
      WrongWraps(money);
    }
  }

  /** The least amount that goes wrong. */
  lemma MintedWrongly()
    ensures MintedWorth(WRAPS) != WRAPS
  {
    assert Crystals(WRAPS) == 429497;
    assert Crystals(WRAPS) * 10000 % BITS32 == 2704;
    assert AfterCrystals(WRAPS) == 4294967296;
    assert Platinums(4294967296) == 42949672 % BITS16 == 23592;
    assert Golds(4294967296) == 4292608096;
  }

  /** An amount beyond it that comes out right after twenty-five wraps. */
  lemma MintedRightlyAgain()
    ensures MintedWorth(107374190001) == 107374190001
  {
    MintedRightly(107374190001);
    assert 10737419 * 10000 / BITS32 == 25;
  }

  // What paying takes

  /** Where a worth belongs among worths in order: after those that are not dearer. */
  function Place(worths: seq<nat>, w: nat): (p: nat)
    ensures p <= |worths|
  {
    if worths == [] || w < worths[0] then 0 else 1 + Place(worths[1..], w)
  }

  function Inserted(worths: seq<nat>, w: nat): seq<nat> {
    worths[..Place(worths, w)] + [w] + worths[Place(worths, w)..]
  }

  /** The worths of the stacks, from the cheapest to the dearest. */
  function SortedWorths(stacks: seq<Stack>): seq<nat> {
    if stacks == [] then []
    else
      var front, last := SortedWorths(stacks[..|stacks| - 1]), stacks[|stacks| - 1];
      if WorthOf(last.kind, last.count) == 0 then front else Inserted(front, WorthOf(last.kind, last.count))
  }

  predicate Sorted(worths: seq<nat>) {
    forall i, j :: 0 <= i < j < |worths| ==> worths[i] <= worths[j]
  }

  lemma {:induction false} PlaceIsSorted(worths: seq<nat>, w: nat)
    requires Sorted(worths)
    ensures forall i :: 0 <= i < Place(worths, w) ==> worths[i] <= w
    ensures forall i :: Place(worths, w) <= i < |worths| ==> w < worths[i]
  {
    if worths != [] && worths[0] <= w {
      PlaceIsSorted(worths[1..], w);
      assert forall i :: 0 < i < |worths| ==> worths[i] == worths[1..][i - 1];
    }
  }

  lemma {:induction false} SumJoin(a: seq<nat>, b: seq<nat>)
    ensures Sum(a + b) == Sum(a) + Sum(b)
  {
    if a == [] {
      assert a + b == b;
    } else {
      assert (a + b)[1..] == a[1..] + b;
      SumJoin(a[1..], b);
    }
  }

  lemma SumInserted(worths: seq<nat>, w: nat)
    ensures Sum(Inserted(worths, w)) == Sum(worths) + w
  {
    var p := Place(worths, w);
    assert worths == worths[..p] + worths[p..];
    SumJoin(worths[..p], worths[p..]);
    SumJoin(worths[..p] + [w], worths[p..]);
    SumJoin(worths[..p], [w]);
  }

  /** The worths are in order and add up to the worth of the stacks. */
  lemma {:induction false} WorthsAddUp(stacks: seq<Stack>)
    ensures Sorted(SortedWorths(stacks)) && Sum(SortedWorths(stacks)) == Worth(stacks)
  {
    if stacks != [] {
      var front, last := stacks[..|stacks| - 1], stacks[|stacks| - 1];
      WorthsAddUp(front);
      var worth := WorthOf(last.kind, last.count);
      LastWorth(stacks, front, last);
      SumInserted(SortedWorths(front), worth);
      InsertedIsSorted(SortedWorths(front), worth);
    }
  }

  lemma LastWorth(stacks: seq<Stack>, front: seq<Stack>, last: Stack)
    requires stacks == front + [last]
    ensures Worth(stacks) == Worth(front) + WorthOf(last.kind, last.count)
  {
    CountJoin(front, [last], Gold);
    CountJoin(front, [last], Platinum);
    CountJoin(front, [last], Crystal);
  }

  lemma InsertedIsSorted(worths: seq<nat>, w: nat)
    requires Sorted(worths)
    ensures Sorted(Inserted(worths, w))
  {
    PlaceIsSorted(worths, w);
    var p, next := Place(worths, w), Inserted(worths, w);
    assert forall i :: 0 <= i < |next| && i != p ==> next[i] == worths[if i < p then i else i - 1];
    assert next[p] == w;
  }

  function Sum(worths: seq<nat>): nat {
    if worths == [] then 0 else worths[0] + Sum(worths[1..])
  }

  /** What is still to be paid when the first stack is met that covers it, or after all of them. */
  function Residual(worths: seq<nat>, money: nat): nat {
    if worths == [] then money
    else if worths[0] < money then Residual(worths[1..], money - worths[0])
    else money
  }

  /** The first k stacks are handed over, and `left` is still to be paid. */
  ghost predicate Paying(worths: seq<nat>, money: nat, k: nat, left: nat) {
    && k <= |worths| && Residual(worths[k..], left) == Residual(worths, money)
    && left - Sum(worths[k..]) == money - Sum(worths)
  }

  lemma PayingNext(worths: seq<nat>, money: nat, k: nat, left: nat)
    requires Paying(worths, money, k, left) && k < |worths|
    ensures worths[k] < left ==> Paying(worths, money, k + 1, left - worths[k])
    ensures worths[k] >= left ==> Residual(worths, money) == left && Sum(worths) >= money
  {
    var rest := worths[k..];
    assert rest[1..] == worths[k + 1..];
    assert rest != [] && rest[0] == worths[k];
    SumFront(worths, k);
  }

  lemma {:induction false} SumFront(worths: seq<nat>, k: nat)
    requires k <= |worths|
    ensures Sum(worths) >= Sum(worths[k..])
  {
    if k > 0 {
      SumFront(worths[1..], k - 1);
      assert worths[1..][k - 1..] == worths[k..];
    } else {
      assert worths[0..] == worths;
    }
  }

  lemma {:induction false} ResidualOfAll(worths: seq<nat>, money: nat)
    requires Sum(worths) < money
    ensures Residual(worths, money) == money - Sum(worths)
  {
    if worths != [] {
      ResidualOfAll(worths[1..], money - worths[0]);
    }
  }

  lemma {:induction false} ResidualIsPositive(worths: seq<nat>, money: nat)
    requires money > 0
    ensures 0 < Residual(worths, money) <= money
  {
    if worths != [] && worths[0] < money {
      ResidualIsPositive(worths[1..], money - worths[0]);
    }
  }

  /** How many coins of a stack cover the money, and the change. */
  function Broken(kind: Kind, money: nat): nat {
    match kind
    case Gold => money
    case Platinum => (money + 99) / 100
    case Crystal => (money + 9999) / 10000
  }

  function Change(kind: Kind, money: nat): nat {
    if WorthOf(kind, Broken(kind, money)) < money then 0 else WorthOf(kind, Broken(kind, money)) - money
  }

  /** The change is less than one coin of the broken stack, so it is given in smaller coins. */
  lemma BrokenExactly(kind: Kind, count: nat, money: nat)
    requires 0 < money < WorthOf(kind, count)
    ensures WorthOf(kind, Broken(kind, money)) == money + Change(kind, money)
    ensures 0 <= Change(kind, money) < WorthOf(kind, 1) && 0 < Broken(kind, money) <= count
    ensures forall k :: WorthOf(k, 1) >= WorthOf(kind, 1) ==> Minted(Change(kind, money), k) == 0
  {
    MintedExactly(Change(kind, money));
  }

  /** What the coins of each kind become when change is given. */
  lemma Gained(kind: Kind, change: nat, gold: nat, platinum: nat, crystal: nat, gold': nat, platinum': nat,
               crystal': nat)
    requires change < WorthOf(kind, 1)
    requires gold' == gold + Minted(change, Gold) && platinum' == platinum + Minted(change, Platinum)
             && crystal' == crystal + Minted(change, Crystal)
    ensures WorthOf(Gold, gold') + WorthOf(Platinum, platinum') + WorthOf(Crystal, crystal')
         == WorthOf(Gold, gold) + WorthOf(Platinum, platinum) + WorthOf(Crystal, crystal) + change
    ensures forall k :: WorthOf(k, 1) >= WorthOf(kind, 1) ==> Minted(change, k) == 0
    ensures Crystals(change) == 0 && AfterCrystals(change) == change
  {
    MintedExactly(change);
    assert change / 10000 == 0;
  }

  /** What paying costs in all, coins and bank together, when it can be paid. */
  function Charged(worths: seq<nat>, balance: nat, useBalance: bool, money: nat): nat {
    (if Sum(worths) < money then Sum(worths) else money)
    + if useBalance && Residual(worths, money) <= balance then Residual(worths, money) else 0
  }

  /** It costs the price unless the carried coins suffice and the bank still holds what the stack that was
      broken, or handed over last, had to cover: that part is then paid twice. */
  lemma ChargedExactly(worths: seq<nat>, balance: nat, useBalance: bool, money: nat)
    requires 0 < money <= Sum(worths) + if useBalance then balance else 0
    ensures Charged(worths, balance, useBalance, money) == money
       <==> !useBalance || Sum(worths) < money || balance < Residual(worths, money)
    ensures money <= Charged(worths, balance, useBalance, money) <= 2 * money
  {
    ResidualIsPositive(worths, money);
    if Sum(worths) < money {
      ResidualOfAll(worths, money);
    }
  }

  /** A hundred gold coins in hand and a hundred in the bank: a price of 50 costs 100. */
  lemma ChargedTwice()
    ensures SortedWorths([Stack(Gold, 100)]) == [100] && Charged([100], 100, true, 50) == 100
  {
    var stacks := [Stack(Gold, 100)];
    assert stacks[..0] == [];
    assert Place([], 100) == 0;
    assert Inserted([], 100) == [100];
    assert SortedWorths(stacks) == Inserted(SortedWorths(stacks[..0]), 100);
    assert Sum([100]) == 100 + Sum([]);
  }

  // The coins

  class Coin {
    const kind: Kind
    var count: nat

    constructor (kind: Kind, count: nat)
      ensures this.kind == kind && this.count == count
    {
      this.kind, this.count := kind, count;
    }
  }

  /** A stack and what it was found to be worth. */
  datatype Entry = Entry(worth: nat, item: Coin)

  function Worths(entries: seq<Entry>): (w: seq<nat>)
    ensures |w| == |entries| && forall i :: 0 <= i < |w| ==> w[i] == entries[i].worth
  {
    if entries == [] then [] else [entries[0].worth] + Worths(entries[1..])
  }

  /** Different stacks of these coins, each with its worth. */
  ghost predicate Recorded(entries: seq<Entry>, coins: seq<Coin>)
    reads set e <- entries :: e.item
  {
    && (forall i :: 0 <= i < |entries| ==> entries[i].item in coins
                                           && entries[i].worth == WorthOf(entries[i].item.kind, entries[i].item.count))
    && (forall i, j :: 0 <= i < j < |entries| ==> entries[i].item != entries[j].item)
  }

  function Items(entries: seq<Entry>): (s: set<Coin>) {
    set e <- entries :: e.item
  }

  /** Every stack that is worth anything is entered. */
  ghost predicate Entered(entries: seq<Entry>, coins: seq<Coin>)
    reads coins
  {
    forall c <- coins :: WorthOf(c.kind, c.count) != 0 ==> c in Items(entries)
  }

  /** The items of the first k entries. */
  function First(entries: seq<Entry>, k: nat): set<Coin>
    requires k <= |entries|
  {
    if k == 0 then {} else First(entries, k - 1) + {entries[k - 1].item}
  }

  lemma FirstMore(entries: seq<Entry>, k: nat, all: set<Coin>, now: set<Coin>)
    requires k < |entries| && now == all - First(entries, k)
    ensures now - {entries[k].item} == all - First(entries, k + 1)
  {
  }

  lemma {:induction false} FirstIs(entries: seq<Entry>, k: nat, c: Coin)
    requires k <= |entries|
    ensures c in First(entries, k) <==> exists i :: 0 <= i < k && entries[i].item == c
  {
    if k > 0 {
      FirstIs(entries, k - 1, c);
      if c == entries[k - 1].item {
        assert entries[k - 1].item == c;
      }
    }
  }

  /** The worths entered are those the stacks had, in order, and every stack of worth is entered. */
  predicate Priced(entries: seq<Entry>, was: map<Coin, nat>) {
    && (forall i :: 0 <= i < |entries| ==> entries[i].item in was && was[entries[i].item] == entries[i].worth)
    && (forall i, j :: 0 <= i < j < |entries| ==> entries[i].worth <= entries[j].worth)
    && (forall c :: c in was && was[c] > 0 ==> c in Items(entries))
  }

  /** Of what was carried, nothing is gone that was worth more than something of worth still there. */
  predicate CheaperGone(was: map<Coin, nat>, after: set<Coin>) {
    forall c, d :: c in was && d in was && c !in after && d in after && was[d] > 0 ==> was[c] <= was[d]
  }

  /** That is so when only the first k stacks entered are gone, or those and perhaps the next. */
  lemma CheapestFirst(entries: seq<Entry>, was: map<Coin, nat>, k: nat, after: set<Coin>)
    requires Priced(entries, was) && k <= |entries|
    requires forall c :: c in was && c in First(entries, k) ==> c !in after
    requires forall c :: c in was && c !in after ==> c in First(entries, k) || (k < |entries| && c == entries[k].item)
    ensures CheaperGone(was, after)
  {
    forall c, d | c in was && d in was && c !in after && d in after && was[d] > 0
      ensures was[c] <= was[d]
    {
      FirstIs(entries, k, c);
      FirstIs(entries, k, d);
      NoDearer(entries, was, k, c, d);
    }
  }

  lemma NoDearer(entries: seq<Entry>, was: map<Coin, nat>, k: nat, c: Coin, d: Coin)
    requires Priced(entries, was) && k <= |entries| && c in was && d in was && was[d] > 0
    requires (exists i :: 0 <= i < k && entries[i].item == c) || (k < |entries| && c == entries[k].item)
    requires !exists i :: 0 <= i < k && entries[i].item == d
    ensures was[c] <= was[d]
  {
    var f :| f in entries && f.item == d;
    var j :| 0 <= j < |entries| && entries[j] == f;
    assert entries[j].item == d;
    if i :| 0 <= i < k && entries[i].item == c {
      assert entries[i].worth <= entries[j].worth;
    }
  }

  /** An entry goes behind all that are not dearer. */
  function Emplaced(entries: seq<Entry>, e: Entry): seq<Entry> {
    var p := Place(Worths(entries), e.worth);
    entries[..p] + [e] + entries[p..]
  }

  lemma WorthsEmplaced(entries: seq<Entry>, e: Entry)
    ensures Worths(Emplaced(entries, e)) == Inserted(Worths(entries), e.worth)
  {
  }

  lemma EmplacedRecorded(entries: seq<Entry>, coins: seq<Coin>, item: Coin)
    requires Recorded(entries, coins) && item !in coins
    ensures Recorded(Emplaced(entries, Entry(WorthOf(item.kind, item.count), item)), coins + [item])
  {
    var e := Entry(WorthOf(item.kind, item.count), item);
    var p := Place(Worths(entries), e.worth);
    var next := Emplaced(entries, e);
    assert forall j :: 0 <= j < |next| && j != p ==> next[j] == entries[if j < p then j else j - 1];
    assert next[p] == e;
  }

  lemma EmplacedEntered(entries: seq<Entry>, coins: seq<Coin>, e: Entry, i: nat)
    requires i < |coins| && coins[i] == e.item && Entered(entries, coins[..i])
    ensures Entered(Emplaced(entries, e), coins[..i + 1])
    ensures WorthOf(e.item.kind, e.item.count) == 0 ==> Entered(entries, coins[..i + 1])
  {
    var p, next := Place(Worths(entries), e.worth), Emplaced(entries, e);
    assert next[p] == e && e in next;
    forall f <- entries
      ensures f in next
    {
      assert f in entries[..p] || f in entries[p..] by {
        assert entries == entries[..p] + entries[p..];
      }
    }
    assert coins[..i + 1] == coins[..i] + [coins[i]];
  }

  lemma SortedWorthsNext(stacks: seq<Stack>, i: nat)
    requires i < |stacks|
    ensures var worth := WorthOf(stacks[i].kind, stacks[i].count);
            SortedWorths(stacks[..i + 1])
            == if worth == 0 then SortedWorths(stacks[..i]) else Inserted(SortedWorths(stacks[..i]), worth)
  {
    var v := stacks[..i + 1];
    assert v[..|v| - 1] == stacks[..i] && v[|v| - 1] == stacks[i];
  }

  lemma NotYet(carried: seq<Coin>, ground: seq<Coin>, i: nat)
    requires Distinct(carried + ground) && i < |carried|
    ensures carried[i] !in carried[..i] && carried[..i + 1] == carried[..i] + [carried[i]]
  {
    assert forall j :: 0 <= j < |carried| ==> (carried + ground)[j] == carried[j];
  }

  /** The first i stacks are entered. */
  ghost predicate Gathered(entries: seq<Entry>, carried: seq<Coin>, i: nat)
    reads (set e <- entries :: e.item), carried
  {
    i <= |carried| && Worths(entries) == SortedWorths(Values(carried)[..i]) && Recorded(entries, carried[..i])
    && Entered(entries, carried[..i])
  }

  lemma GatheredNext(carried: seq<Coin>, ground: seq<Coin>, i: nat, entries: seq<Entry>)
    requires Distinct(carried + ground) && i < |carried| && Gathered(entries, carried, i)
    ensures var worth := WorthOf(carried[i].kind, carried[i].count);
            var next := if worth != 0 then Emplaced(entries, Entry(worth, carried[i])) else entries;
            Gathered(next, carried, i + 1) && Sum(Worths(next)) == Sum(Worths(entries)) + worth
  {
    var item, worth := carried[i], WorthOf(carried[i].kind, carried[i].count);
    NotYet(carried, ground, i);
    SortedWorthsNext(Values(carried), i);
    SumInserted(Worths(entries), worth);
    WorthsEmplaced(entries, Entry(worth, item));
    EmplacedRecorded(entries, carried[..i], item);
    EmplacedEntered(entries, carried, Entry(worth, item), i);
  }

  lemma GatheredAll(entries: seq<Entry>, carried: seq<Coin>)
    requires Gathered(entries, carried, |carried|)
    ensures Worths(entries) == SortedWorths(Values(carried)) && Recorded(entries, carried) && Entered(entries, carried)
  {
    assert carried[..|carried|] == carried && Values(carried)[..|carried|] == Values(carried);
  }

  lemma RecordedRest(entries: seq<Entry>, k: nat, before: seq<Coin>, carried: seq<Coin>, item: Coin)
    requires k < |entries| && entries[k].item == item && Recorded(entries[k..], before)
    requires forall c <- before :: c != item ==> c in carried
    ensures Recorded(entries[k + 1..], carried)
  {
    assert entries[k..][0] == entries[k];
    var rest, next := entries[k..], entries[k + 1..];
    assert forall j :: 0 <= j < |next| ==> next[j] == rest[j + 1];
  }

  function Value(c: Coin): Stack
    reads c
  {
    Stack(c.kind, c.count)
  }

  function Values(coins: seq<Coin>): (v: seq<Stack>)
    reads coins
    ensures |v| == |coins| && forall i :: 0 <= i < |coins| ==> v[i] == Value(coins[i])
  {
    if coins == [] then [] else [Value(coins[0])] + Values(coins[1..])
  }

  predicate Distinct(coins: seq<Coin>) {
    forall i, j :: 0 <= i < j < |coins| ==> coins[i] != coins[j]
  }

  /** What the queries answer when an item is to be added: a stack it may join, and how many units may come in at all;
      or a place for a new stack; or none. */
  datatype Answer = Onto(pick: int, maxQueryCount: nat) | InHand | OnGround | Nowhere

  /** The answers for the i-th created item of a kind: the j-th is for what the ones before it left over. */
  type Queries = Kind -> nat -> nat -> Answer

  predicate IsStack(stacks: seq<Stack>, pick: int, kind: Kind) {
    0 <= pick < |stacks| && stacks[pick].kind == kind && stacks[pick].count < 100
  }

  /** A stack with n more coins. */
  function Grown(stacks: seq<Stack>, pick: nat, n: nat): seq<Stack>
    requires pick < |stacks|
  {
    stacks[pick := Stack(stacks[pick].kind, stacks[pick].count + n)]
  }

  predicate IsPick(coins: seq<Coin>, pick: int, kind: Kind)
    reads coins
  {
    0 <= pick < |coins| && coins[pick].kind == kind && coins[pick].count < 100
  }

  /** The coins destroyed while `left` are put down: an item that joins a stack goes with all that the queries do not
      let in. */
  function Lost(stacks: seq<Stack>, kind: Kind, left: nat, answers: nat -> Answer, j: nat): (l: nat)
    ensures l <= left
    decreases left
  {
    var answer := answers(j);
    if left == 0 then 0
    else if answer.Onto? && IsStack(stacks, answer.pick, kind) then
      var c, m := stacks[answer.pick].count, if left < answer.maxQueryCount then left else answer.maxQueryCount;
      var n := if m < 100 - c then m else 100 - c;
      left - m + Lost(Grown(stacks, answer.pick, n), kind, m - n, answers, j + 1)
    else if answer.Nowhere? then left
    else 0
  }

  lemma LostStep(u: seq<Stack>, w: seq<Stack>, kind: Kind, left: nat, answers: nat -> Answer, j: nat, m: nat, rest: nat)
    requires left > 0 && answers(j).Onto? && IsStack(u, answers(j).pick, kind)
    requires m == if left < answers(j).maxQueryCount then left else answers(j).maxQueryCount
    requires var c := u[answers(j).pick].count;
             rest == (if m < 100 - c then 0 else m - (100 - c)) && w == Grown(u, answers(j).pick, m - rest)
    ensures Lost(u, kind, left, answers, j) == left - m + Lost(w, kind, rest, answers, j + 1)
  {
  }

  /** Some stacks of the kind have grown, by so many coins together, and none beyond a hundred. */
  ghost predicate Joined(v: seq<Stack>, u: seq<Stack>, kind: Kind, joined: nat) {
    && |u| == |v|
    && (forall i :: 0 <= i < |v| ==>
          u[i].kind == v[i].kind && v[i].count <= u[i].count
          && (u[i] == v[i] || (u[i].kind == kind && u[i].count <= 100)))
    && (forall k :: Count(u, k) == Count(v, k) + if k == kind then joined else 0)
  }

  lemma JoinedMore(v: seq<Stack>, u: seq<Stack>, kind: Kind, joined: nat, pick: nat, n: nat, w: seq<Stack>)
    requires Joined(v, u, kind, joined) && pick < |u| && u[pick].kind == kind && u[pick].count + n <= 100
    requires w == Grown(u, pick, n)
    ensures Joined(v, w, kind, joined + n)
  {
    forall k
      ensures Count(w, k) == Count(v, k) + if k == kind then joined + n else 0
    {
      CountUpdate(u, pick, Stack(kind, u[pick].count + n), k);
    }
  }

  /** Where the joining stands: the stacks have taken what is neither left nor destroyed. */
  ghost predicate Joining(v: seq<Stack>, u: seq<Stack>, kind: Kind, count: nat, left: nat, destroyed: nat,
                          answers: nat -> Answer, j: nat) {
    && left + destroyed <= count && Joined(v, u, kind, count - left - destroyed)
    && destroyed + Lost(u, kind, left, answers, j) == Lost(v, kind, count, answers, 0)
  }

  lemma JoinStep(v: seq<Stack>, u: seq<Stack>, w: seq<Stack>, kind: Kind, count: nat, left: nat, destroyed: nat,
                 answers: nat -> Answer, j: nat,
                 m: nat, rest: nat)
    requires Joining(v, u, kind, count, left, destroyed, answers, j)
    requires left > 0 && answers(j).Onto? && IsStack(u, answers(j).pick, kind)
    requires m == if left < answers(j).maxQueryCount then left else answers(j).maxQueryCount
    requires rest == if m < 100 - u[answers(j).pick].count then 0 else m - (100 - u[answers(j).pick].count)
    requires w == Grown(u, answers(j).pick, m - rest)
    ensures Joining(v, w, kind, count, rest, destroyed + (left - m), answers, j + 1)
  {
    JoinedMore(v, u, kind, count - left - destroyed, answers(j).pick, m - rest, w);
    LostStep(u, w, kind, left, answers, j, m, rest);
  }

  lemma LostRest(u: seq<Stack>, kind: Kind, left: nat, answers: nat -> Answer, j: nat)
    requires !(left > 0 && answers(j).Onto? && IsStack(u, answers(j).pick, kind))
    ensures Lost(u, kind, left, answers, j) == if answers(j).Nowhere? then left else 0
  {
  }

  /** The coins that end up behind the first n stacks: on those stacks named there, or as a new one on the ground. */
  function ToGround(stacks: seq<Stack>, kind: Kind, left: nat, answers: nat -> Answer, j: nat, n: nat): nat
    decreases left
  {
    var answer := answers(j);
    if left == 0 then 0
    else if answer.Onto? && IsStack(stacks, answer.pick, kind) then
      var c, m := stacks[answer.pick].count, if left < answer.maxQueryCount then left else answer.maxQueryCount;
      var joined := if m < 100 - c then m else 100 - c;
      (if answer.pick >= n then joined else 0)
      + ToGround(Grown(stacks, answer.pick, joined), kind, m - joined, answers, j + 1, n)
    else if answer.OnGround? then left
    else 0
  }

  /** Where that stands: g of the coins are behind the first n stacks. */
  ghost predicate Settling(v: seq<Stack>, u: seq<Stack>, n: nat, kind: Kind, count: nat, left: nat, g: nat,
                           answers: nat -> Answer, j: nat) {
    && n <= |v| && |u| == |v|
    && (forall k :: Count(u[n..], k) == Count(v[n..], k) + if k == kind then g else 0)
    && g + ToGround(u, kind, left, answers, j, n) == ToGround(v, kind, count, answers, 0, n)
  }

  lemma SettleStep(v: seq<Stack>, u: seq<Stack>, w: seq<Stack>, n: nat, kind: Kind, count: nat, left: nat, g: nat,
                   answers: nat -> Answer, j: nat, m: nat, rest: nat)
    requires Settling(v, u, n, kind, count, left, g, answers, j)
    requires left > 0 && answers(j).Onto? && IsStack(u, answers(j).pick, kind)
    requires m == if left < answers(j).maxQueryCount then left else answers(j).maxQueryCount
    requires rest == if m < 100 - u[answers(j).pick].count then 0 else m - (100 - u[answers(j).pick].count)
    requires w == Grown(u, answers(j).pick, m - rest)
    ensures Settling(v, w, n, kind, count, rest, g + if answers(j).pick >= n then m - rest else 0, answers, j + 1)
  {
    var pick := answers(j).pick;
    forall k
      ensures Count(w[n..], k) == Count(u[n..], k) + if k == kind && pick >= n then m - rest else 0
    {
      GrownBehind(u, pick, m - rest, n, k);
    }
    assert ToGround(u, kind, left, answers, j, n)
        == (if pick >= n then m - rest else 0) + ToGround(w, kind, rest, answers, j + 1, n);
  }

  lemma GrownAt(v: seq<Stack>, w: seq<Stack>, pick: nat, n: nat)
    requires |w| == |v| && pick < |v| && w[pick] == Stack(v[pick].kind, v[pick].count + n)
    requires forall i :: 0 <= i < |v| && i != pick ==> w[i] == v[i]
    ensures w == Grown(v, pick, n)
  {
  }

  lemma GrownBehind(u: seq<Stack>, pick: nat, grown: nat, n: nat, kind: Kind)
    requires pick < |u| && n <= |u|
    ensures Count(Grown(u, pick, grown)[n..], kind)
         == Count(u[n..], kind) + if u[pick].kind == kind && pick >= n then grown else 0
  {
    if pick >= n {
      assert Grown(u, pick, grown)[n..] == u[n..][pick - n := Stack(u[pick].kind, u[pick].count + grown)];
      CountUpdate(u[n..], pick - n, Stack(u[pick].kind, u[pick].count + grown), kind);
    } else {
      assert Grown(u, pick, grown)[n..] == u[n..];
    }
  }

  lemma GroundRest(u: seq<Stack>, kind: Kind, left: nat, answers: nat -> Answer, j: nat, n: nat)
    requires !(left > 0 && answers(j).Onto? && IsStack(u, answers(j).pick, kind))
    ensures ToGround(u, kind, left, answers, j, n) == if answers(j).OnGround? then left else 0
  {
  }

  /** One new stack came last. */
  ghost predicate OneMore(before: seq<Coin>, after: seq<Coin>, kind: Kind, count: nat)
    reads after
  {
    |after| == |before| + 1 && after[..|before|] == before && Value(after[|before|]) == Stack(kind, count)
  }

  lemma ValuesBehind(carried: seq<Coin>, ground: seq<Coin>)
    ensures Values(carried + ground)[|carried|..] == Values(ground)
  {
  }

  /** Queries that always find room in the player's possessions, and such as always send to the ground. */
  ghost predicate AllInHand(answers: Queries) {
    forall kind, i: nat, j: nat {:trigger answers(kind)(i)(j)} :: answers(kind)(i)(j).InHand?
  }

  ghost predicate AllOnGround(answers: Queries) {
    forall kind, i: nat, j: nat {:trigger answers(kind)(i)(j)} :: answers(kind)(i)(j).OnGround?
  }

  lemma PlacedAs(v: seq<Stack>, kind: Kind, count: nat, answers: Queries, i: nat, n: nat)
    requires count < BITS8
    ensures Generous(answers) ==> Lost(v, kind, count, answers(kind)(i), 0) == 0
    ensures AllInHand(answers) ==> ToGround(v, kind, count, answers(kind)(i), 0, n) == 0
    ensures AllOnGround(answers) ==>
              Lost(v, kind, count, answers(kind)(i), 0) == 0
                  && ToGround(v, kind, count, answers(kind)(i), 0, n) == count
  {
    if Generous(answers) {
      GenerousLosesNothing(v, kind, count, answers(kind)(i), 0);
    }
  }

  lemma LostMore(l: seq<Stack>, lost: seq<Stack>)
    requires |lost| == |l| + 1 && lost[..|l|] == l
    ensures forall k :: Count(lost, k) == Count(l, k) + In(lost[|l|], k)
  {
    forall k
      ensures Count(lost, k) == Count(l, k) + In(lost[|l|], k)
    {
      CountSplit(l, lost[|l|], [], k);
      assert l + [lost[|l|]] + [] == lost;
    }
  }

  /** Every stack asked for may take in all that is left, and for what it has no room there is a place. */
  predicate Covered(stacks: seq<Stack>, kind: Kind, left: nat, answers: nat -> Answer, j: nat)
    decreases left
  {
    var answer := answers(j);
    if left == 0 then true
    else if answer.Onto? && IsStack(stacks, answer.pick, kind) then
      var c := stacks[answer.pick].count;
      var n := if left < 100 - c then left else 100 - c;
      left <= answer.maxQueryCount && Covered(Grown(stacks, answer.pick, n), kind, left - n, answers, j + 1)
    else !answer.Nowhere?
  }

  /** Nothing is lost exactly when the answers cover the coins. */
  lemma {:induction false} LostNothing(stacks: seq<Stack>, kind: Kind, left: nat, answers: nat -> Answer, j: nat)
    ensures Lost(stacks, kind, left, answers, j) == 0 <==> Covered(stacks, kind, left, answers, j)
    decreases left
  {
    var answer := answers(j);
    if left > 0 && answer.Onto? && IsStack(stacks, answer.pick, kind) && left <= answer.maxQueryCount {
      var c := stacks[answer.pick].count;
      var n := if left < 100 - c then left else 100 - c;
      LostNothing(Grown(stacks, answer.pick, n), kind, left - n, answers, j + 1);
    }
  }

  /** A place a player has for coins, in the order of the search: a stack, or room for a new one; worn in a slot that
      takes coins, or in a container. */
  datatype Spot = OnStack(pick: nat, worn: bool) | Empty(worn: bool)

  function RoomAt(stacks: seq<Stack>, place: Spot, kind: Kind): nat {
    match place
    case OnStack(pick, _) => if IsStack(stacks, pick, kind) then 100 - stacks[pick].count else 0
    case Empty(_) => 100
  }

  /** The room over all places. */
  function RoomIn(stacks: seq<Stack>, places: seq<Spot>, kind: Kind): nat {
    if places == [] then 0 else RoomAt(stacks, places[0], kind) + RoomIn(stacks, places[1..], kind)
  }

  /** The first place with room, or the number of places. */
  function FirstPlace(stacks: seq<Stack>, places: seq<Spot>, kind: Kind): (n: nat)
    ensures n <= |places| && (n < |places| ==> RoomAt(stacks, places[n], kind) > 0)
  {
    if places == [] || RoomAt(stacks, places[0], kind) > 0 then 0 else 1 + FirstPlace(stacks, places[1..], kind)
  }

  /** What the queries answer for these places: a container must have, with all others, room for everything, a slot
      need not.  What is refused at first goes to the ground; what is refused of a rest is destroyed. */
  function AnswerFor(stacks: seq<Stack>, places: seq<Spot>, kind: Kind, left: nat, rest: bool): Answer {
    var n, room := FirstPlace(stacks, places, kind), RoomIn(stacks, places, kind);
    if n == |places| || (room < left && !places[n].worn) then (if rest then Nowhere else OnGround)
    else match places[n]
      case OnStack(pick, _) => Onto(pick, room)
      case Empty(_) => InHand
  }

  /** The answers are those for the places, as the stacks grow. */
  predicate AnsweredBy(stacks: seq<Stack>, places: seq<Spot>, kind: Kind, left: nat, answers: nat -> Answer, j: nat,
                       rest: bool)
    decreases left
  {
    left > 0 ==>
      var answer := answers(j);
      && answer == AnswerFor(stacks, places, kind, left, rest)
      && (answer.Onto? && IsStack(stacks, answer.pick, kind) ==>
            var c, m := stacks[answer.pick].count, if left < answer.maxQueryCount then left else answer.maxQueryCount;
            var n := if m < 100 - c then m else 100 - c;
            AnsweredBy(Grown(stacks, answer.pick, n), places, kind, m - n, answers, j + 1, true))
  }

  /** No stack is at two places. */
  ghost predicate Apart(places: seq<Spot>) {
    forall i, j :: 0 <= i < j < |places| && places[i].OnStack? && places[j].OnStack? ==>
        places[i].pick != places[j].pick
  }

  /** Coins that join one stack leave so much less room. */
  lemma {:induction false} RoomLeft(stacks: seq<Stack>, places: seq<Spot>, kind: Kind, k: nat, n: nat)
    requires Apart(places) && k < |places| && places[k].OnStack? && n <= RoomAt(stacks, places[k], kind)
    requires IsStack(stacks, places[k].pick, kind)
    ensures RoomIn(Grown(stacks, places[k].pick, n), places, kind) == RoomIn(stacks, places, kind) - n
  {
    assert Apart(places[1..]) by {
      assert forall i :: 0 <= i < |places| - 1 ==> places[1..][i] == places[i + 1];
    }
    if k == 0 {
      SameRoom(stacks, Grown(stacks, places[0].pick, n), places[1..], kind, places[0].pick);
    } else {
      RoomLeft(stacks, places[1..], kind, k - 1, n);
    }
  }

  lemma {:induction false} SameRoom(stacks: seq<Stack>, grown: seq<Stack>, places: seq<Spot>, kind: Kind, pick: nat)
    requires |grown| == |stacks| && forall i :: 0 <= i < |stacks| && i != pick ==> grown[i] == stacks[i]
    requires forall i :: 0 <= i < |places| && places[i].OnStack? ==> places[i].pick != pick
    ensures RoomIn(grown, places, kind) == RoomIn(stacks, places, kind)
  {
    if places != [] {
      SameRoom(stacks, grown, places[1..], kind, pick);
    }
  }

  /** Where there is room for all, nothing is lost. */
  lemma {:induction false} RoomForAll(stacks: seq<Stack>, places: seq<Spot>, kind: Kind, left: nat,
                                      answers: nat -> Answer, j: nat, rest: bool)
    requires Apart(places) && AnsweredBy(stacks, places, kind, left, answers, j, rest)
             && left <= RoomIn(stacks, places, kind)
    ensures Lost(stacks, kind, left, answers, j) == 0
    decreases left
  {
    if left > 0 {
      var k := FirstPlace(stacks, places, kind);
      SomePlace(stacks, places, kind);
      if places[k].OnStack? {
        var pick := places[k].pick;
        var n := if left < 100 - stacks[pick].count then left else 100 - stacks[pick].count;
        RoomLeft(stacks, places, kind, k, n);
        RoomForAll(Grown(stacks, pick, n), places, kind, left - n, answers, j + 1, true);
      }
    }
  }

  lemma {:induction false} SomePlace(stacks: seq<Stack>, places: seq<Spot>, kind: Kind)
    requires RoomIn(stacks, places, kind) > 0
    ensures FirstPlace(stacks, places, kind) < |places|
  {
    if places != [] && RoomAt(stacks, places[0], kind) == 0 {
      SomePlace(stacks, places[1..], kind);
    }
  }

  /** From the places of a player: coins are lost exactly if the first place found is a worn stack and all places
      together have too little room; then so many as there is no room for. */
  lemma LostFromPlaces(stacks: seq<Stack>, places: seq<Spot>, kind: Kind, left: nat, answers: nat -> Answer, j: nat)
    requires Apart(places) && left <= 100 && AnsweredBy(stacks, places, kind, left, answers, j, false)
    ensures var k, room := FirstPlace(stacks, places, kind), RoomIn(stacks, places, kind);
            Lost(stacks, kind, left, answers, j)
            == if k < |places| && places[k].OnStack? && places[k].worn && room < left then left - room else 0
  {
    var k, room := FirstPlace(stacks, places, kind), RoomIn(stacks, places, kind);
    if left <= room {
      RoomForAll(stacks, places, kind, left, answers, j, false);
    } else if k < |places| && places[k].OnStack? && places[k].worn {
      TooLittleRoom(stacks, places, kind, left, answers, j);
    }
  }

  lemma TooLittleRoom(stacks: seq<Stack>, places: seq<Spot>, kind: Kind, left: nat, answers: nat -> Answer, j: nat)
    requires Apart(places) && AnsweredBy(stacks, places, kind, left, answers, j, false)
             && RoomIn(stacks, places, kind) < left
    requires var k := FirstPlace(stacks, places, kind); k < |places| && places[k].OnStack? && places[k].worn
    ensures Lost(stacks, kind, left, answers, j) == left - RoomIn(stacks, places, kind)
  {
    var k, room := FirstPlace(stacks, places, kind), RoomIn(stacks, places, kind);
    var pick := places[k].pick;
    assert answers(j) == Onto(pick, room);
    var n := if room < 100 - stacks[pick].count then room else 100 - stacks[pick].count;
    RoomLeft(stacks, places, kind, k, n);
    RoomForAll(Grown(stacks, pick, n), places, kind, room - n, answers, j + 1, true);
  }

  /** Fifty coins for a player whose only room is that on a stack of sixty in the hand: ten are destroyed. */
  lemma HandStackLoses()
    ensures var stacks, places, answers := [Stack(Gold, 60)], [OnStack(0, true)], (j: nat) => Onto(0, 40);
            AnsweredBy(stacks, places, Gold, 50, answers, 0, false) && Lost(stacks, Gold, 50, answers, 0) == 10
  {
    var stacks, places, answers := [Stack(Gold, 60)], [OnStack(0, true)], (j: nat) => Onto(0, 40);
    assert RoomIn(stacks, places[1..], Gold) == 0;
    assert AnsweredBy(Grown(stacks, 0, 40), places, Gold, 0, answers, 1, true);
    LostFromPlaces(stacks, places, Gold, 50, answers, 0);
  }

  /** Queries that always let everything in. */
  ghost predicate Generous(answers: Queries) {
    forall kind, i: nat, j: nat {:trigger answers(kind)(i)(j)} ::
      !answers(kind)(i)(j).Nowhere? && (answers(kind)(i)(j).Onto? ==> answers(kind)(i)(j).maxQueryCount >= BITS8)
  }

  lemma {:induction false} GenerousLosesNothing(stacks: seq<Stack>, kind: Kind, left: nat, answers: nat -> Answer,
                                                j: nat)
    requires left < BITS8
    requires forall i: nat {:trigger answers(i)} ::
             !answers(i).Nowhere? && (answers(i).Onto? ==> answers(i).maxQueryCount >= BITS8)
    ensures Lost(stacks, kind, left, answers, j) == 0
    decreases left
  {
    var answer := answers(j);
    if left > 0 && answer.Onto? && IsStack(stacks, answer.pick, kind) {
      var c := stacks[answer.pick].count;
      var n := if left < 100 - c then left else 100 - c;
      GenerousLosesNothing(Grown(stacks, answer.pick, n), kind, left - n, answers, j + 1);
    }
  }

  lemma CountBetween(a: seq<Coin>, c: Coin, b: seq<Coin>)
    ensures forall k :: Count(Values(a + [c] + b), k) == Count(Values(a + b), k) + In(Value(c), k)
  {
    ValuesBetween(a, c, b);
    forall k ensures Count(Values(a + [c] + b), k) == Count(Values(a + b), k) + In(Value(c), k) {
      CountMiddle(Values(a), Value(c), Values(b), Values(a + b), Values(a + [c] + b), k);
    }
  }

  lemma ValuesBetween(a: seq<Coin>, c: Coin, b: seq<Coin>)
    ensures Values(a + b) == Values(a) + Values(b)
    ensures Values(a + [c] + b) == Values(a) + [Value(c)] + Values(b)
  {
  }

  /** Without one stack there are so many coins less. */
  lemma WithoutCoin(all: seq<Coin>, i: nat, rest: seq<Coin>, item: Coin)
    requires i < |all| && all[i] == item && rest == all[..i] + all[i + 1..]
    ensures Distinct(all) ==> Distinct(rest)
    ensures forall k :: Count(Values(rest), k) == Count(Values(all), k) - In(Value(item), k)
  {
    DistinctWithout(all, i, rest);
    assert all == all[..i] + [item] + all[i + 1..];
    CountBetween(all[..i], item, all[i + 1..]);
  }

  lemma DistinctWithout(all: seq<Coin>, i: nat, rest: seq<Coin>)
    requires i < |all| && rest == all[..i] + all[i + 1..]
    ensures Distinct(all) ==> Distinct(rest)
    ensures forall c <- rest :: c in all
    ensures forall c <- all :: c != all[i] ==> c in rest
  {
    assert forall j :: 0 <= j < |rest| ==> rest[j] == all[if j < i then j else j + 1];
    assert forall j :: 0 <= j < |all| && j != i ==> all[j] == rest[if j < i then j else j - 1];
  }

  lemma SetWithout(carried: seq<Coin>, ground: seq<Coin>, i: nat, rest: seq<Coin>)
    requires Distinct(carried + ground) && i < |carried| && rest == carried[..i] + carried[i + 1..]
    ensures (set c <- rest) == (set c <- carried) - {carried[i]} && carried[i] !in ground
  {
    var all := carried + ground;
    assert forall j :: 0 <= j < |rest| ==> rest[j] == all[if j < i then j else j + 1];
    assert forall j :: 0 <= j < |ground| ==> ground[j] == all[|carried| + j];
    assert forall j :: 0 <= j < |carried| && j != i ==> carried[j] == rest[if j < i then j else j - 1];
    assert carried[i] == all[i];
  }

  lemma DistinctMiddle(a: seq<Coin>, x: Coin, b: seq<Coin>, all: seq<Coin>, more: seq<Coin>)
    requires all == a + b && more == a + [x] + b && Distinct(all) && x !in all
    ensures Distinct(more)
    ensures forall c <- more :: c in all || c == x
    ensures forall c <- all :: c in more
  {
    assert forall i :: 0 <= i < |more| && i != |a| ==> more[i] == all[if i < |a| then i else i - 1];
    assert forall i :: 0 <= i < |all| ==> all[i] == more[if i < |a| then i else i + 1];
  }

  lemma CountMiddle(a: seq<Stack>, x: Stack, b: seq<Stack>, v: seq<Stack>, w: seq<Stack>, kind: Kind)
    requires v == a + b && w == a + [x] + b
    ensures Count(w, kind) == Count(v, kind) + In(x, kind)
  {
    CountSplit(a, x, b, kind);
    CountJoin(a, b, kind);
  }

  lemma PricedAsCarried(entries: seq<Entry>, carried: seq<Coin>, was: map<Coin, nat>)
    requires Recorded(entries, carried) && Entered(entries, carried) && Worths(entries) == SortedWorths(Values(carried))
    requires was == map c | c in carried :: WorthOf(c.kind, c.count)
    ensures Priced(entries, was)
  {
    WorthsAddUp(Values(carried));
    assert forall i :: 0 <= i < |entries| ==> Worths(entries)[i] == entries[i].worth;
  }

  class Player {
    var carried: seq<Coin>   // in the order in which a search through the possessions meets them
    var ground: seq<Coin>    // what did not fit and lies on the tile
    var balance: nat
    ghost var lost: seq<Stack>   // coins that were created and destroyed again

    constructor (balance: nat)
      ensures Valid() && carried == [] && ground == [] && this.balance == balance && lost == []
    {
      carried, ground, this.balance, lost := [], [], balance, [];
    }

    ghost predicate Valid()
      reads this`carried, this`ground
    {
      Distinct(carried + ground)
    }

    ghost function Coins(kind: Kind): nat
      reads this`carried, this`ground, carried, ground
    {
      Count(Values(carried + ground), kind)
    }

    /** The coins of a kind that are carried, and those that lie on the ground. */
    ghost function Held(kind: Kind): nat
      reads this`carried, carried
    {
      Count(Values(carried), kind)
    }

    ghost function Lying(kind: Kind): nat
      reads this`ground, ground
    {
      Count(Values(ground), kind)
    }

    lemma HeldOrLying()
      ensures forall k :: Coins(k) == Held(k) + Lying(k)
    {
      assert Values(carried + ground) == Values(carried) + Values(ground);
      forall k
        ensures Coins(k) == Held(k) + Lying(k)
      {
        CountJoin(Values(carried), Values(ground), k);
      }
    }

    /** The worth of all coins, and of those lost. */
    ghost function Fortune(): nat
      reads this`carried, this`ground, this`lost, carried, ground
    {
      WorthOf(Gold, Account(Gold)) + WorthOf(Platinum, Account(Platinum)) + WorthOf(Crystal, Account(Crystal))
    }

    /** The coins of a kind together with those lost. */
    ghost function Account(kind: Kind): nat
      reads this`carried, this`ground, this`lost, carried, ground
    {
      Coins(kind) + Count(lost, kind)
    }

    /** The worths of the carried stacks, from the cheapest to the dearest. */
    ghost function CarriedWorths(): seq<nat>
      reads this`carried, carried
    {
      SortedWorths(Values(carried))
    }

    /** What each carried stack is worth. */
    ghost function StackWorths(): map<Coin, nat>
      reads this`carried, carried
    {
      map c | c in carried :: WorthOf(c.kind, c.count)
    }

    ghost function Carried(): set<Coin>
      reads this`carried
    {
      set c <- carried
    }

    ghost function Repr(): set<Coin>
      reads this`carried, this`ground
    {
      (set c <- carried) + (set c <- ground)
    }

    /** No stack is empty or higher than a hundred. */
    ghost predicate Stacked()
      reads this`carried, this`ground, carried, ground
    {
      forall c <- Repr() :: 1 <= c.count <= 100
    }

    /** Without stacks to join, the coins are one new stack, carried or on the ground as answered, and the other side
        stays as it is; nothing new is on the ground when no answer says so. */
    twostate predicate LaidWhere(kind: Kind, count: nat, answers: nat -> Answer)
      reads this`carried, this`ground, carried, ground
    {
      && ((forall i: nat {:trigger answers(i)} :: !answers(i).OnGround?) ==> ground == old(ground))
      && (answers(0).InHand? ==> ground == old(ground) && Values(ground) == old(Values(ground)))
      && (answers(0).OnGround? ==> carried == old(carried) && Values(carried) == old(Values(carried)))
      && (count > 0 && answers(0).InHand? ==> OneMore(old(carried), carried, kind, count))
      && (count > 0 && answers(0).OnGround? ==> OneMore(old(ground), ground, kind, count))
    }

    /** Coins are put down as the queries answer: added to a stack, as a new one, carried or on the ground.  A stack
        with room takes no more than the queries allow, and coins they do not allow are destroyed with the item. */
    method InternalAddItem(kind: Kind, count: nat, answers: nat -> Answer)
      requires Valid()
      modifies this`carried, this`ground, this`lost, Repr()
      ensures Valid()
      ensures forall c <- old(carried) :: c in carried && (c.kind != kind ==> c.count == old(c.count))
      ensures fresh(Repr() - old(Repr()))
      ensures var l := Lost(old(Values(carried + ground)), kind, count, answers, 0);
              && l <= count && lost == old(lost) + [Stack(kind, l)]
              && forall k :: Coins(k) == old(Coins(k)) + if k == kind then count - l else 0
      ensures var g := ToGround(old(Values(carried + ground)), kind, count, answers, 0, old(|carried|));
              forall k :: Lying(k) == old(Lying(k)) + if k == kind then g else 0
      ensures old(Stacked()) && count <= 100 ==> Stacked()
      ensures LaidWhere(kind, count, answers)
    {
      ghost var l := Lay(kind, count, answers);
      lost := lost + [Stack(kind, l)];
    }

    /** l coins are destroyed, the others are there. */
    method Lay(kind: Kind, count: nat, answers: nat -> Answer) returns (ghost l: nat)
      requires Valid()
      modifies this`carried, this`ground, Repr()
      ensures Valid()
      ensures forall c <- old(carried) :: c in carried && (c.kind != kind ==> c.count == old(c.count))
      ensures fresh(Repr() - old(Repr()))
      ensures l == Lost(old(Values(carried + ground)), kind, count, answers, 0) && l <= count
      ensures forall k :: Coins(k) == old(Coins(k)) + if k == kind then count - l else 0
      ensures var g := ToGround(old(Values(carried + ground)), kind, count, answers, 0, old(|carried|));
              forall k :: Lying(k) == old(Lying(k)) + if k == kind then g else 0
      ensures old(Stacked()) && count <= 100 ==> Stacked()
      ensures LaidWhere(kind, count, answers)
    {
      ghost var g;
      var left, destroyed, j;
      left, destroyed, j, g := JoinStacks(kind, count, answers);
      var rest := PutRest(kind, left, answers(j));
      l := destroyed + rest;
    }

    /** As long as the queries name stacks, the coins join them. */
    method JoinStacks(kind: Kind, count: nat, answers: nat -> Answer)
      returns (left: nat, destroyed: nat, j: nat, ghost g: nat)
      requires Valid()
      modifies Repr()
      ensures left + destroyed <= count
      ensures forall k :: Coins(k) == old(Coins(k)) + if k == kind then count - left - destroyed else 0
      ensures forall c <- Repr() :: c.kind != kind ==> c.count == old(c.count)
      ensures old(Stacked()) ==> Stacked()
      ensures destroyed + (if answers(j).Nowhere? then left else 0)
              == Lost(old(Values(carried + ground)), kind, count, answers, 0)
      ensures forall k :: Lying(k) == old(Lying(k)) + if k == kind then g else 0
      ensures g + (if answers(j).OnGround? then left else 0)
              == ToGround(old(Values(carried + ground)), kind, count, answers, 0, |carried|)
      ensures !answers(0).Onto? ==> j == 0 && left == count && destroyed == 0
      ensures !answers(0).Onto? ==> Values(carried) == old(Values(carried)) && Values(ground) == old(Values(ground))
    {
      ghost var v := Values(carried + ground);
      left, destroyed, j, g := JoinNamed(kind, count, answers);
      forall c | c in Repr()
        ensures (c.kind != kind ==> c.count == old(c.count)) && (1 <= old(c.count) <= 100 ==> 1 <= c.count <= 100)
      {
        assert c in carried + ground;
        var i :| 0 <= i < |carried + ground| && (carried + ground)[i] == c;
        assert Values(carried + ground)[i] == Value(c) && v[i] == old(Value((carried + ground)[i]));
      }
    }

    method JoinNamed(kind: Kind, count: nat, answers: nat -> Answer)
      returns (left: nat, destroyed: nat, j: nat, ghost g: nat)
      requires Valid()
      modifies Repr()
      ensures left + destroyed <= count
      ensures var v := old(Values(carried + ground));
              && Joined(v, Values(carried + ground), kind, count - left - destroyed)
              && destroyed + (if answers(j).Nowhere? then left else 0) == Lost(v, kind, count, answers, 0)
      ensures forall k :: Lying(k) == old(Lying(k)) + if k == kind then g else 0
      ensures g + (if answers(j).OnGround? then left else 0)
              == ToGround(old(Values(carried + ground)), kind, count, answers, 0, |carried|)
      ensures !answers(0).Onto? ==> j == 0 && left == count && destroyed == 0
      ensures !answers(0).Onto? ==> Values(carried) == old(Values(carried)) && Values(ground) == old(Values(ground))
    {
      ghost var v := Values(carried + ground);
      ValuesBehind(carried, ground);
      left, destroyed, j, g := JoinAll(kind, count, answers);
      LostRest(Values(carried + ground), kind, left, answers, j);
      GroundRest(Values(carried + ground), kind, left, answers, j, |carried|);
      ValuesBehind(carried, ground);
    }

    method JoinAll(kind: Kind, count: nat, answers: nat -> Answer)
      returns (left: nat, destroyed: nat, j: nat, ghost g: nat)
      requires Valid()
      modifies Repr()
      ensures !(left > 0 && answers(j).Onto? && IsPick(carried + ground, answers(j).pick, kind))
      ensures var v, u := old(Values(carried + ground)), Values(carried + ground);
              && Joining(v, u, kind, count, left, destroyed, answers, j)
              && Settling(v, u, |carried|, kind, count, left, g, answers, j)
      ensures !answers(0).Onto? ==> j == 0 && left == count && destroyed == 0
      ensures !answers(0).Onto? ==> Values(carried) == old(Values(carried)) && Values(ground) == old(Values(ground))
    {
      ghost var v := Values(carried + ground);
      left, destroyed, j, g := count, 0, 0, 0;
      while left > 0 && answers(j).Onto? && IsPick(carried + ground, answers(j).pick, kind)
        invariant Joining(v, Values(carried + ground), kind, count, left, destroyed, answers, j)
        invariant Settling(v, Values(carried + ground), |carried|, kind, count, left, g, answers, j)
        invariant !answers(0).Onto? ==> j == 0 && left == count && destroyed == 0
        invariant !answers(0).Onto? ==> Values(carried) == old(Values(carried)) && Values(ground) == old(Values(ground))
        decreases left
      {
        left, destroyed, g := JoinOne(kind, count, left, destroyed, answers, j, v, g);
        j := j + 1;
      }
    }

    method JoinOne(kind: Kind, ghost count: nat, left: nat, destroyed: nat, answers: nat -> Answer, j: nat,
                   ghost v: seq<Stack>, ghost g: nat)
      returns (left': nat, destroyed': nat, ghost g': nat)
      requires Valid() && left > 0 && answers(j).Onto? && IsPick(carried + ground, answers(j).pick, kind)
      requires Joining(v, Values(carried + ground), kind, count, left, destroyed, answers, j)
      requires Settling(v, Values(carried + ground), |carried|, kind, count, left, g, answers, j)
      modifies Repr()
      ensures Settling(v, Values(carried + ground), |carried|, kind, count, left', g', answers, j + 1)
      ensures left' < left && Joining(v, Values(carried + ground), kind, count, left', destroyed', answers, j + 1)
    {
      ghost var u := Values(carried + ground);
      var m := if left < answers(j).maxQueryCount then left else answers(j).maxQueryCount;
      left' := Merge(answers(j).pick, m);
      destroyed' := destroyed + (left - m);
      JoinStep(v, u, Values(carried + ground), kind, count, left, destroyed, answers, j, m, left');
      SettleStep(v, u, Values(carried + ground), |carried|, kind, count, left, g, answers, j, m, left');
      g' := g + if answers(j).pick >= |carried| then m - left' else 0;
    }

    /** What no stack was found for. */
    method PutRest(kind: Kind, left: nat, answer: Answer) returns (destroyed: nat)
      requires Valid()
      modifies this`carried, this`ground
      ensures Valid()
      ensures forall c <- old(carried) :: c in carried
      ensures fresh(Repr() - old(Repr()))
      ensures destroyed == if answer.Nowhere? then left else 0
      ensures forall k :: Coins(k) == old(Coins(k)) + if k == kind then left - destroyed else 0
      ensures forall k :: Lying(k) == old(Lying(k)) + if k == kind && answer.OnGround? then left else 0
      ensures !answer.OnGround? ==> ground == old(ground) && Values(ground) == old(Values(ground))
      ensures answer.OnGround? || answer.Nowhere? ==> carried == old(carried) && Values(carried) == old(Values(carried))
      ensures left > 0 && answer.OnGround? ==> OneMore(old(ground), ground, kind, left)
      ensures left > 0 && (answer.InHand? || answer.Onto?) ==> OneMore(old(carried), carried, kind, left)
      ensures old(Stacked()) && left <= 100 ==> Stacked()
    {
      destroyed := 0;
      if answer.Nowhere? {
        destroyed := left;
      } else if left > 0 {
        PutNew(kind, left, answer.OnGround?);
      }
    }

    /** Money is created: its coins of each kind, but for those the queries have destroyed. */
    method AddMoney(money: nat, answers: Queries)
      requires Valid()
      modifies this`carried, this`ground, this`lost, Repr()
      ensures Valid() && old(lost) <= lost
      ensures forall c <- old(carried) :: c in carried && (Minted(money, c.kind) == 0 ==> c.count == old(c.count))
      ensures fresh(Repr() - old(Repr()))
      ensures forall k :: Account(k) == old(Account(k)) + Minted(money, k)
      ensures Generous(answers) ==> forall k :: Count(lost, k) == old(Count(lost, k))
      ensures old(Stacked()) && money < WRAPS ==> Stacked()
      ensures AllInHand(answers) ==> ground == old(ground) && Values(ground) == old(Values(ground))
      ensures AllOnGround(answers) ==> carried == old(carried) && Values(carried) == old(Values(carried))
      ensures AllInHand(answers) ==> forall k :: Held(k) == old(Held(k)) + Minted(money, k)
      ensures AllOnGround(answers) ==> forall k :: Lying(k) == old(Lying(k)) + Minted(money, k)
    {
      HeldOrLying();
      MintedParts(money);
      if money != 0 {
        AddCoins(Crystals(money), AfterCrystals(money), answers);
      }
      HeldOrLying();
    }

    method AddCoins(crystalCoins: nat, left: nat, answers: Queries)
      requires Valid()
      modifies this`carried, this`ground, this`lost, Repr()
      ensures Valid() && old(lost) <= lost
      ensures forall c <- old(carried) :: c in carried
      ensures forall c <- old(carried) :: (if c.kind == Crystal then crystalCoins else Small(left, c.kind)) == 0 ==>
              c.count == old(c.count)
      ensures fresh(Repr() - old(Repr()))
      ensures forall k :: Account(k) == old(Account(k)) + if k == Crystal then crystalCoins else Small(left, k)
      ensures Generous(answers) ==> forall k :: Count(lost, k) == old(Count(lost, k))
      ensures old(Stacked()) && Small(left, Platinum) <= 100 && Small(left, Gold) <= 100 ==> Stacked()
      ensures AllInHand(answers) ==> ground == old(ground) && Values(ground) == old(Values(ground))
      ensures AllOnGround(answers) ==> carried == old(carried) && Values(carried) == old(Values(carried))
    {
      AddCrystals(crystalCoins, answers);
      AddSmall(left, answers);
    }

    method AddSmall(money: nat, answers: Queries)
      requires Valid()
      modifies this`carried, this`ground, this`lost, Repr()
      ensures Valid() && old(lost) <= lost
      ensures forall c <- old(carried) :: c in carried && (Small(money, c.kind) == 0 ==> c.count == old(c.count))
      ensures fresh(Repr() - old(Repr()))
      ensures forall k :: Account(k) == old(Account(k)) + Small(money, k)
      ensures Generous(answers) ==> forall k :: Count(lost, k) == old(Count(lost, k))
      ensures old(Stacked()) && Small(money, Platinum) <= 100 && Small(money, Gold) <= 100 ==> Stacked()
      ensures AllInHand(answers) ==> ground == old(ground) && Values(ground) == old(Values(ground))
      ensures AllOnGround(answers) ==> carried == old(carried) && Values(carried) == old(Values(carried))
    {
      var left := money;
      var platinumCoins := Platinums(money);
      Create(Platinum, platinumCoins, answers);
      left := left - platinumCoins * 100;
      Create(Gold, left, answers);
    }

    method Create(kind: Kind, coins: nat, answers: Queries)
      requires Valid()
      modifies this`carried, this`ground, this`lost, Repr()
      ensures Valid() && old(lost) <= lost
      ensures forall c <- old(carried) ::
              c in carried && (c.kind != kind || Made(coins) == 0 ==> c.count == old(c.count))
      ensures fresh(Repr() - old(Repr()))
      ensures forall k :: Account(k) == old(Account(k)) + if k == kind then Made(coins) else 0
      ensures Generous(answers) ==> forall k :: Count(lost, k) == old(Count(lost, k))
      ensures old(Stacked()) && Made(coins) <= 100 ==> Stacked()
      ensures AllInHand(answers) ==> ground == old(ground) && Values(ground) == old(Values(ground))
      ensures AllOnGround(answers) ==> carried == old(carried) && Values(carried) == old(Values(carried))
    {
      if Made(coins) != 0 {
        AddItem(kind, Made(coins), answers, 0);
      }
    }

    /** One created item, the i-th of its kind. */
    method AddItem(kind: Kind, count: nat, answers: Queries, i: nat)
      requires Valid() && count < BITS8
      modifies this`carried, this`ground, this`lost, Repr()
      ensures Valid() && old(lost) <= lost
      ensures forall c <- old(carried) :: c in carried && (c.kind != kind ==> c.count == old(c.count))
      ensures fresh(Repr() - old(Repr()))
      ensures forall k :: Account(k) == old(Account(k)) + if k == kind then count else 0
      ensures Generous(answers) ==> forall k :: Count(lost, k) == old(Count(lost, k))
      ensures old(Stacked()) && count <= 100 ==> Stacked()
      ensures AllInHand(answers) ==> ground == old(ground) && Values(ground) == old(Values(ground))
      ensures AllOnGround(answers) ==> carried == old(carried) && Values(carried) == old(Values(carried))
    {
      HeldOrLying();
      PlacedAs(Values(carried + ground), kind, count, answers, i, |carried|);
      ghost var l := lost;
      InternalAddItem(kind, count, answers(kind)(i));
      LostMore(l, lost);
      HeldOrLying();
    }

    method AddCrystals(crystalCoins: nat, answers: Queries)
      requires Valid()
      modifies this`carried, this`ground, this`lost, Repr()
      ensures Valid() && old(lost) <= lost
      ensures forall c <- old(carried) ::
              c in carried && (c.kind != Crystal || crystalCoins == 0 ==> c.count == old(c.count))
      ensures fresh(Repr() - old(Repr()))
      ensures forall k :: Account(k) == old(Account(k)) + if k == Crystal then crystalCoins else 0
      ensures Generous(answers) ==> forall k :: Count(lost, k) == old(Count(lost, k))
      ensures old(Stacked()) ==> Stacked()
      ensures AllInHand(answers) ==> ground == old(ground) && Values(ground) == old(Values(ground))
      ensures AllOnGround(answers) ==> carried == old(carried) && Values(carried) == old(Values(carried))
    {
      var left: nat := crystalCoins;
      var i: nat := 0;
      while left > 0
        invariant Valid() && left <= crystalCoins && old(lost) <= lost
        invariant forall c <- old(carried) ::
                  c in carried && (c.kind != Crystal || left == crystalCoins ==> c.count == old(c.count))
        invariant fresh(Repr() - old(Repr()))
        invariant forall k :: Account(k) == old(Account(k)) + if k == Crystal then crystalCoins - left else 0
        invariant Generous(answers) ==> forall k :: Count(lost, k) == old(Count(lost, k))
        invariant old(Stacked()) ==> Stacked()
        invariant AllInHand(answers) ==> ground == old(ground) && Values(ground) == old(Values(ground))
        invariant AllOnGround(answers) ==> carried == old(carried) && Values(carried) == old(Values(carried))
      {
        var count := if left < 100 then left else 100;
        AddItem(Crystal, count, answers, i);
        left := left - count;
        i := i + 1;
      }
    }

    /** Nothing is lost if the queries let everything in, no stack gets out of its bounds, and what lies on the ground
        stays as it is if all change goes to the hand. */
    twostate predicate Undisturbed(answers: Queries)
      reads this`carried, this`ground, this`lost, carried, ground
    {
      && (Generous(answers) ==> forall k :: Count(lost, k) == old(Count(lost, k)))
      && (old(Stacked()) ==> Stacked())
      && (AllInHand(answers) ==> ground == old(ground) && Values(ground) == old(Values(ground)))
    }

    /** Pays from what is carried and, if asked, from the bank. */
    method RemoveMoney(money: nat, useBalance: bool, answers: Queries) returns (paid: bool)
      requires Valid()
      modifies this, Repr()
      ensures Valid()
      ensures paid == (money <= old(Sum(CarriedWorths())) + if useBalance then old(balance) else 0)
      ensures !paid || money == 0 ==> unchanged(this) && forall c <- Repr() :: c.count == old(c.count)
      ensures paid && money > 0 ==>
              old(Fortune()) - Fortune() == old(if Sum(CarriedWorths()) < money then Sum(CarriedWorths()) else money)
      ensures paid && money > 0 ==>
                old(Fortune()) + old(balance) - (Fortune() + balance)
                == Charged(old(CarriedWorths()), old(balance), useBalance, money)
      ensures Undisturbed(answers)
      ensures paid && money > 0 ==> CheaperGone(old(StackWorths()), Carried())
    {
      if money == 0 {
        return true;
      }
      var entries, moneyCount := Gather();
      var bank := if useBalance then balance else 0;
      if moneyCount + bank < money {
        return false;
      }
      PayAndCharge(entries, money, useBalance, answers);
      paid := true;
    }

    method PayAndCharge(entries: seq<Entry>, money: nat, useBalance: bool, answers: Queries)
      requires Valid() && Recorded(entries, carried) && money > 0
      requires Priced(entries, StackWorths())
      modifies this, Repr()
      ensures Valid()
      ensures old(Fortune()) - Fortune() == if Sum(Worths(entries)) < money then Sum(Worths(entries)) else money
      ensures old(Fortune()) + old(balance) - (Fortune() + balance)
              == Charged(Worths(entries), old(balance), useBalance, money)
      ensures Undisturbed(answers)
      ensures CheaperGone(old(StackWorths()), Carried())
    {
      var left := Pay(entries, money, answers, StackWorths());
      if useBalance && left <= balance {
        balance := balance - left;
      }
    }

    /** The stacks of coins that are carried, in the order of their worth. */
    method Gather() returns (entries: seq<Entry>, moneyCount: nat)
      requires Valid()
      ensures Worths(entries) == CarriedWorths()
      ensures moneyCount == Sum(Worths(entries))
      ensures Recorded(entries, carried) && Priced(entries, StackWorths())
    {
      entries, moneyCount := [], 0;
      var i := 0;
      assert Values(carried)[..0] == [] && carried[..0] == [];
      while i < |carried|
        invariant 0 <= i <= |carried|
        invariant Gathered(entries, carried, i) && moneyCount == Sum(Worths(entries))
      {
        var worth;
        entries, worth := GatherOne(entries, i);
        moneyCount := moneyCount + worth;
        i := i + 1;
      }
      GatheredAll(entries, carried);
      PricedAsCarried(entries, carried, StackWorths());
    }

    method GatherOne(entries: seq<Entry>, i: nat) returns (next: seq<Entry>, worth: nat)
      requires Valid() && i < |carried| && Gathered(entries, carried, i)
      ensures Gathered(next, carried, i + 1) && Sum(Worths(next)) == Sum(Worths(entries)) + worth
    {
      var item := carried[i];
      worth := WorthOf(item.kind, item.count);
      next := if worth != 0 then Emplaced(entries, Entry(worth, item)) else entries;
      GatheredNext(carried, ground, i, entries);
    }

    /** The stacks are handed over one by one; the first that covers the rest is broken, with change. */
    method Pay(entries: seq<Entry>, money: nat, answers: Queries, ghost was: map<Coin, nat>)
      returns (left: nat)
      requires Valid() && Recorded(entries, carried) && money > 0
      requires Priced(entries, was) && was.Keys == Carried()
      modifies this`carried, this`ground, this`lost, Repr()
      ensures Valid()
      ensures left == Residual(Worths(entries), money)
      ensures Fortune() == old(Fortune()) - if Sum(Worths(entries)) < money then Sum(Worths(entries)) else money
      ensures Undisturbed(answers)
      ensures CheaperGone(was, Carried())
    {
      var k;
      left, k := PayWhole(entries, money);
      if k < |entries| {
        assert entries[k..][0] == entries[k];
        PayLast(entries, k, left, answers, was);
      } else {
        CheapestFirst(entries, was, k, Carried());
      }
    }

    /** The stack that covers the rest, when those before it are gone. */
    method PayLast(entries: seq<Entry>, k: nat, money: nat, answers: Queries, ghost was: map<Coin, nat>)
      requires Valid() && k < |entries| && entries[k].item in carried
      requires 0 < money <= WorthOf(entries[k].item.kind, entries[k].item.count)
      requires Priced(entries, was)
      requires Carried() == was.Keys - First(entries, k) && Repr() !! (was.Keys * First(entries, k))
      modifies this`carried, this`ground, this`lost, Repr()
      ensures Valid()
      ensures Fortune() == old(Fortune()) - money
      ensures Undisturbed(answers)
      ensures CheaperGone(was, Carried())
    {
      ghost var mid, gone := Repr(), was.Keys * First(entries, k);
      PayRest(entries[k].item, money, answers);
      assert forall c :: c in gone ==> c in was && c !in Repr();
      CheapestFirst(entries, was, k, Carried());
    }

    /** As long as stacks do not cover what is due they are handed over. */
    method PayWhole(entries: seq<Entry>, money: nat) returns (left: nat, k: nat)
      requires Valid() && Recorded(entries, carried) && money > 0
      modifies this`carried
      ensures Valid()
      ensures k <= |entries| && left > 0 && Recorded(entries[k..], carried)
      ensures left == Residual(Worths(entries), money)
      ensures if k < |entries| then left <= entries[k].worth && Sum(Worths(entries)) >= money
              else money - left == Sum(Worths(entries)) < money
      ensures Fortune() == old(Fortune()) - (money - left)
      ensures old(Stacked()) ==> Stacked()
      ensures Carried() == old(Carried()) - First(entries, k) && Repr() == old(Repr()) - First(entries, k)
    {
      left, k := money, 0;
      ghost var worths, hand, all := Worths(entries), Carried(), Repr();
      assert worths[0..] == worths;
      while k < |entries|
        invariant k <= |entries| && left > 0
        invariant Valid() && Recorded(entries[k..], carried)
        invariant Carried() == hand - First(entries, k) && Repr() == all - First(entries, k)
        invariant Paying(worths, money, k, left)
        invariant Fortune() == old(Fortune()) - (money - left)
        invariant old(Stacked()) ==> Stacked()
      {
        PayingNext(worths, money, k, left);
        assert entries[k..][0] == entries[k];
        if entries[k].worth >= left {
          return;
        }
        left := left - entries[k].worth;
        FirstMore(entries, k, hand, Carried());
        FirstMore(entries, k, all, Repr());
        HandOver(entries, k);
        k := k + 1;
      }
    }

    /** A stack that does not cover what is due is handed over whole. */
    method HandOver(entries: seq<Entry>, k: nat)
      requires Valid() && k < |entries| && Recorded(entries[k..], carried) && entries[k..][0] == entries[k]
      modifies this`carried
      ensures Valid() && Recorded(entries[k + 1..], carried)
      ensures Fortune() == old(Fortune()) - entries[k].worth
      ensures old(Stacked()) ==> Stacked()
      ensures Carried() == old(Carried()) - {entries[k].item} && Repr() == old(Repr()) - {entries[k].item}
    {
      ghost var before := carried;
      RemoveItem(entries[k].item);
      RecordedRest(entries, k, before, carried, entries[k].item);
    }

    /** The first stack that covers what is due is broken, or handed over if it is worth just that. */
    method PayRest(item: Coin, money: nat, answers: Queries)
      requires Valid() && item in carried && 0 < money <= WorthOf(item.kind, item.count)
      modifies this`carried, this`ground, this`lost, Repr()
      ensures Valid()
      ensures Fortune() == old(Fortune()) - money
      ensures Undisturbed(answers)
      ensures old(Carried()) - {item} <= Carried() && fresh(Repr() - old(Repr()))
    {
      if WorthOf(item.kind, item.count) > money {
        BreakStack(item, money, answers);
      } else {
        RemoveItem(item);
      }
    }

    /** Part of a stack, worth more than what is due, is taken and the difference given back. */
    method BreakStack(item: Coin, money: nat, answers: Queries)
      requires Valid() && item in carried && 0 < money < WorthOf(item.kind, item.count)
      modifies this`carried, this`ground, this`lost, Repr()
      ensures Valid()
      ensures Fortune() == old(Fortune()) - money
      ensures forall k :: WorthOf(k, 1) >= WorthOf(item.kind, 1) ==> Account(k) <= old(Account(k))
      ensures Undisturbed(answers)
      ensures old(Carried()) - {item} <= Carried() && fresh(Repr() - old(Repr()))
    {
      var removeCount, change := Cover(item.kind, item.count, money);
      ChangeAndTake(item, removeCount, change, answers);
    }

    /** The change is put down, and then part of the stack is taken. */
    method ChangeAndTake(item: Coin, removeCount: nat, change: nat, answers: Queries)
      requires Valid() && item in carried && removeCount <= item.count && change < WorthOf(item.kind, 1)
      modifies this`carried, this`ground, this`lost, Repr()
      ensures Valid()
      ensures Fortune() == old(Fortune()) + change - WorthOf(item.kind, removeCount)
      ensures forall k :: WorthOf(k, 1) >= WorthOf(item.kind, 1) ==>
                Account(k) == old(Account(k)) - if k == item.kind then removeCount else 0
      ensures Undisturbed(answers)
      ensures old(Carried()) - {item} <= Carried() && fresh(Repr() - old(Repr()))
    {
      AddChange(item.kind, change, answers);
      RemoveCount(item, removeCount);
    }

    /** How many coins are taken, and the change they call for. */
    method Cover(kind: Kind, ghost count: nat, money: nat) returns (removeCount: nat, change: nat)
      requires 0 < money < WorthOf(kind, count)
      ensures WorthOf(kind, removeCount) == money + change && 0 < removeCount <= count
      ensures change < WorthOf(kind, 1)
    {
      BrokenExactly(kind, count, money);
      removeCount, change := Broken(kind, money), Change(kind, money);
    }

    /** Change is given in coins smaller than those of the kind. */
    method AddChange(kind: Kind, change: nat, answers: Queries)
      requires Valid() && change < WorthOf(kind, 1)
      modifies this`carried, this`ground, this`lost, Repr()
      ensures Valid()
      ensures Fortune() == old(Fortune()) + change
      ensures forall c <- old(carried) :: c in carried && (c.kind == kind ==> c.count == old(c.count))
      ensures fresh(Repr() - old(Repr()))
      ensures forall k :: WorthOf(k, 1) >= WorthOf(kind, 1) ==> Account(k) == old(Account(k))
      ensures Undisturbed(answers)
    {
      AddMoney(change, answers);
      Gained(kind, change, old(Account(Gold)), old(Account(Platinum)), old(Account(Crystal)), Account(Gold),
          Account(Platinum), Account(Crystal));
    }

    method RemoveCount(item: Coin, count: nat)
      requires Valid() && item in carried && count <= item.count
      modifies this`carried, item
      ensures Valid()
      ensures forall k :: Account(k) == old(Account(k)) - if k == item.kind then count else 0
      ensures Fortune() == old(Fortune()) - WorthOf(item.kind, count)
      ensures old(Stacked()) ==> Stacked()
      ensures Values(ground) == old(Values(ground))
      ensures old(Carried()) - {item} <= Carried() && Repr() <= old(Repr())
    {
      if count == item.count {
        RemoveItem(item);
      } else {
        LowerCount(item, count);
      }
    }

    method LowerCount(item: Coin, count: nat)
      requires Valid() && item in carried && count < item.count
      modifies item
      ensures item.count == old(item.count) - count
      ensures forall k :: Coins(k) == old(Coins(k)) - if k == item.kind then count else 0
      ensures Values(ground) == old(Values(ground))
    {
      ghost var v := Values(carried + ground);
      ghost var j :| 0 <= j < |carried| && carried[j] == item;
      assert (carried + ground)[j] == item;
      assert item !in ground by {
        assert forall i :: 0 <= i < |ground| ==> (carried + ground)[|carried| + i] == ground[i];
      }
      item.count := item.count - count;
      assert Values(carried + ground) == v[j := Value(item)];
      forall k ensures Coins(k) == Count(v, k) - if k == item.kind then count else 0 {
        CountUpdate(v, j, Value(item), k);
      }
    }

    method RemoveItem(item: Coin)
      requires Valid() && item in carried
      modifies this`carried
      ensures Valid()
      ensures forall k :: Account(k) == old(Account(k)) - In(Value(item), k)
      ensures Fortune() == old(Fortune()) - WorthOf(item.kind, item.count)
      ensures forall c <- old(carried) :: c != item ==> c in carried
      ensures forall c <- carried :: c in old(carried)
      ensures old(Stacked()) ==> Stacked()
      ensures Values(ground) == old(Values(ground))
      ensures Carried() == old(Carried()) - {item} && Repr() == old(Repr()) - {item}
    {
      ghost var all := carried + ground;
      ghost var i := Unlist(item);
      DistinctWithout(old(carried), i, carried);
      WithoutCoin(all, i, carried + ground, item);
    }

    method Unlist(item: Coin) returns (ghost i: nat)
      requires Valid() && item in carried
      modifies this`carried
      ensures i < |old(carried)| && old(carried)[i] == item
      ensures carried == old(carried)[..i] + old(carried)[i + 1..]
      ensures carried + ground == old(carried + ground)[..i] + old(carried + ground)[i + 1..]
      ensures Carried() == old(Carried()) - {item} && Repr() == old(Repr()) - {item}
    {
      var place: nat := 0;
      while carried[place] != item
        invariant place <= |carried| && item in carried[place..]
        decreases |carried| - place
      {
        place := place + 1;
      }
      i := place;
      SetWithout(carried, ground, place, carried[..place] + carried[place + 1..]);
      carried := carried[..place] + carried[place + 1..];
    }

    /** As many coins as a stack has room for. */
    method Merge(pick: nat, count: nat) returns (left: nat)
      requires Valid() && pick < |carried + ground| && (carried + ground)[pick].count < 100
      modifies (carried + ground)[pick]
      ensures left <= count && (count > 0 ==> left < count)
      ensures Values(carried + ground) == Grown(old(Values(carried + ground)), pick, count - left)
      ensures left == if count < 100 - old((carried + ground)[pick].count) then 0
              else count - (100 - old((carried + ground)[pick].count))
    {
      ghost var all := carried + ground;
      var coin := (carried + ground)[pick];
      var n := if count < 100 - coin.count then count else 100 - coin.count;
      left := count - n;
      Grow(coin, n, all, pick);
    }

    method Grow(coin: Coin, n: nat, ghost all: seq<Coin>, ghost pick: nat)
      requires Distinct(all) && pick < |all| && all[pick] == coin
      modifies coin`count
      ensures Values(all) == Grown(old(Values(all)), pick, n)
    {
      ghost var v := Values(all);
      assert v[pick] == Value(coin);
      coin.count := coin.count + n;
      GrownAt(v, Values(all), pick, n);
    }

    method PutNew(kind: Kind, count: nat, onGround: bool)
      requires Valid()
      modifies this`carried, this`ground
      ensures Valid()
      ensures forall c <- old(carried) :: c in carried
      ensures fresh(Repr() - old(Repr()))
      ensures old(Stacked()) && 1 <= count <= 100 ==> Stacked()
      ensures forall k :: Coins(k) == old(Coins(k)) + if k == kind then count else 0
      ensures forall k :: Lying(k) == old(Lying(k)) + if k == kind && onGround then count else 0
      ensures if onGround then carried == old(carried) && OneMore(old(ground), ground, kind, count)
              else ground == old(ground) && OneMore(old(carried), carried, kind, count)
    {
      var coin := new Coin(kind, count);
      if onGround {
        PutOnGround(coin);
      } else {
        PutInHand(coin);
      }
    }

    method PutOnGround(coin: Coin)
      requires Valid() && coin !in carried + ground
      modifies this`ground
      ensures Valid() && Repr() == old(Repr()) + {coin} && ground == old(ground) + [coin]
      ensures forall k :: Coins(k) == old(Coins(k)) + In(Value(coin), k)
      ensures forall k :: Lying(k) == old(Lying(k)) + In(Value(coin), k)
    {
      ghost var all := carried + ground;
      ground := ground + [coin];
      assert carried + ground == all + [coin] + [] && all + [] == all;
      DistinctMiddle(all, coin, [], all, carried + ground);
      CountBetween(all, coin, []);
      CountBetween(old(ground), coin, []);
      assert old(ground) + [coin] + [] == ground && old(ground) + [] == old(ground);
    }

    method PutInHand(coin: Coin)
      requires Valid() && coin !in carried + ground
      modifies this`carried
      ensures Valid() && Repr() == old(Repr()) + {coin} && carried == old(carried) + [coin]
      ensures forall k :: Coins(k) == old(Coins(k)) + In(Value(coin), k)
    {
      ghost var hand := carried;
      carried := carried + [coin];
      DistinctMiddle(hand, coin, ground, hand + ground, carried + ground);
      CountBetween(hand, coin, ground);
    }
  }
}
