/** Trading between two players (src/game.cpp, Game::playerRequestTrade, Game::internalStartTrade,
    Game::playerAcceptTrade and Game::internalCloseTrade). */
module Trade {

  datatype TradeState = None | Initiated | Accept | Acknowledge | Transfer

  const MAX_ITEMS := 100

  class Item {
    const kind: nat
    const stackable: bool
    const count: nat
    const inside: set<Item>      // everything it holds, at every depth
    var references: int
    var owner: Player?
    ghost var others: int        // the references that are not the trade's

    constructor (kind: nat, stackable: bool, count: nat, inside: set<Item>, owner: Player?)
      ensures this.kind == kind && this.stackable == stackable && this.count == count
      ensures this.inside == inside && this.owner == owner && references == 1 && others == 1
    {
      this.kind, this.stackable, this.count := kind, stackable, count;
      this.inside, this.owner, references, others := inside, owner, 1, 1;
    }
  }

  class Player {
    var tradeState: TradeState
    var tradePartner: Player?
    var tradeItem: Item?

    constructor ()
      ensures tradeState == None && tradePartner == null && tradeItem == null
    {
      tradeState, tradePartner, tradeItem := None, null, null;
    }
  }

  /** Where one player stands in a trade. */
  datatype Standing = Standing(state: TradeState, partner: Player?, item: Item?)

  const IDLE := Standing(None, null, null)

  /** All trades at one moment: where each player stands, who offers what, by how much the references to each
      item exceed those of its other holders, and the references still to be given back. */
  datatype Desk = Desk(at: map<Player, Standing>, offered: map<Item, Player>, extra: map<Item, int>,
      releases: seq<Item>)

  /** Partnership is mutual, a player without a partner is in state None and the other way round, who has
      initiated offers something, who has only acknowledged does not, one of the two offers something, and
      they have not both accepted. */
  ghost predicate Fair(v: Desk, p: Player)
    requires p in v.at
  {
    var s := v.at[p];
    && (s.state == None <==> s.partner == null)
    && s.state != Transfer
    && (s.partner == null ==> s.item == null)
    && (s.partner != null ==>
          && s.partner in v.at && s.partner != p && v.at[s.partner].partner == p
          && (s.item != null || v.at[s.partner].item != null)
          && !(s.state == Accept && v.at[s.partner].state == Accept)
          && (s.state == Initiated ==> s.item != null)
          && (s.state == Acknowledge ==> s.item == null))
    && (s.item != null ==> s.item in v.offered && v.offered[s.item] == p)
  }

  /** What is on offer is the item of exactly the player it is noted for. */
  ghost predicate Offered(v: Desk, i: Item)
    requires i in v.offered
  {
    i in v.extra && v.offered[i] in v.at && v.at[v.offered[i]].item == i && |i.inside| + 1 <= MAX_ITEMS
  }

  /** One reference while it is offered, and one for each release still to be carried out. */
  ghost predicate Referenced(v: Desk, i: Item)
    requires i in v.extra
  {
    v.extra[i] == (if i in v.offered then 1 else 0) + multiset(v.releases)[i]
  }

  /** The same item, or one inside the other. */
  predicate Conflicts(i: Item, j: Item) {
    i == j || i in j.inside || j in i.inside
  }

  ghost predicate Orderly(v: Desk) {
    && (forall p {:trigger Fair(v, p)} :: p in v.at ==> Fair(v, p))
    && (forall i {:trigger Offered(v, i)} :: i in v.offered ==> Offered(v, i))
    && (forall i, j {:trigger Conflicts(i, j)} :: i in v.offered && j in v.offered && i != j ==> !Conflicts(i, j))
    && (forall i {:trigger Referenced(v, i)} :: i in v.extra ==> Referenced(v, i))
    && (forall i :: i in v.releases ==> i in v.extra)
  }

  /** Two different players never have the same partner, and never offer the same item. */
  lemma Exclusive(v: Desk, p: Player, q: Player)
    requires Orderly(v) && p in v.at && q in v.at && p != q
    ensures v.at[p].partner != null ==> v.at[p].partner != v.at[q].partner
    ensures v.at[p].item != null ==> v.at[p].item != v.at[q].item
  {
    assert Fair(v, p) && Fair(v, q);
  }

  /** What is noted as offered is exactly what the players offer. */
  lemma OfferedExactly(v: Desk, i: Item)
    requires Orderly(v)
    ensures i in v.offered <==> exists p :: p in v.at && v.at[p].item == i
  {
    if i in v.offered {
      assert Offered(v, i);
    }
    if p :| p in v.at && v.at[p].item == i {
      assert Fair(v, p);
    }
  }

  /** A new offer, or the answer to one that came from the same player. */
  predicate MayStart(v: Desk, p: Player, q: Player)
    requires p in v.at && q in v.at
  {
    || (v.at[p].state == None && v.at[q].state == None)
    || (v.at[p].state == Acknowledge && v.at[p].partner == q)
  }

  /** Player p offers item i to player q. */
  function Begun(v: Desk, p: Player, q: Player, i: Item): Desk
    requires p in v.at && q in v.at && i in v.extra
  {
    var at := v.at[p := Standing(Initiated, q, i)];
    v.(at := if at[q].state == None then at[q := Standing(Acknowledge, p, at[q].item)] else at,
       offered := v.offered[i := p], extra := v.extra[i := v.extra[i] + 1])
  }

  /** The first half of it: what happens to p and the item. */
  function Offering(v: Desk, p: Player, q: Player, i: Item): Desk
    requires i in v.extra
  {
    v.(at := v.at[p := Standing(Initiated, q, i)], offered := v.offered[i := p], extra := v.extra[i := v.extra[i] + 1])
  }

  lemma BegunInTwoSteps(v: Desk, p: Player, q: Player, i: Item, u: Desk, w: Desk)
    requires p in v.at && q in v.at && p != q && i in v.extra && u == Offering(v, p, q, i)
    requires w == if u.at[q].state == None then u.(at := u.at[q := Standing(Acknowledge, p, u.at[q].item)]) else u
    ensures w == Begun(v, p, q, i)
  {
  }

  lemma BeginKeepsOrder(v: Desk, p: Player, q: Player, i: Item, w: Desk)
    requires Orderly(v) && p in v.at && q in v.at && p != q && i in v.extra && MayStart(v, p, q)
    requires i !in v.offered && |i.inside| + 1 <= MAX_ITEMS
    requires forall j :: j in v.offered ==> !Conflicts(i, j) && !Conflicts(j, i)
    requires w == Begun(v, p, q, i)
    ensures Orderly(w)
  {
    assert Fair(v, p) && Fair(v, q);
    forall r | r in w.at
      ensures Fair(w, r)
    {
      assert Fair(v, r);
    }
    forall j | j in w.offered
      ensures Offered(w, j)
    {
      if j != i {
        assert Offered(v, j);
      }
    }
    forall j | j in w.extra
      ensures Referenced(w, j)
    {
      assert Referenced(v, j);
    }
  }

  /** An item is no longer offered, and its reference is to be given back. */
  function Withdrawn(v: Desk, i: Item?): Desk {
    if i == null then v
    else v.(offered := v.offered - {i}, releases := if i in v.offered then v.releases + [i] else v.releases)
  }

  /** Player p no longer trades. */
  function Left(v: Desk, p: Player): Desk
    requires p in v.at
  {
    Withdrawn(v, v.at[p].item).(at := v.at[p := IDLE])
  }

  /** The trade of player p is over for both. */
  function Ended(v: Desk, p: Player): Desk
    requires p in v.at && (v.at[p].partner != null ==> v.at[p].partner in v.at)
  {
    var q := v.at[p].partner;
    if q == null then Left(v, p) else Left(Left(v, p), q)
  }

  /** What a request comes down to. */
  lemma RequestDecided(v: Desk, p: Player, q: Player, i: Item)
    requires Orderly(v) && p in v.at && q in v.at && i in v.extra
    ensures Allowed(v, Begin(p, q, i)) <==>
            && p != q && |i.inside| < 100
            && (forall j <- v.offered :: j != i && j !in i.inside && i !in j.inside)
            && ((v.at[p].state == None && v.at[q].state == None)
                  || (v.at[p].state == Acknowledge && v.at[p].partner == q))
    ensures v.at[p].state == Acknowledge && v.at[p].partner == q ==> v.at[q].partner == p && v.at[q].state != None
  {
    assert Fair(v, p) && Fair(v, q);
    assert (forall j <- v.offered :: !Conflicts(j, i)) <==>
           forall j <- v.offered :: j != i && j !in i.inside && i !in j.inside by {
      if forall j <- v.offered :: !Conflicts(j, i) {
        forall j <- v.offered
          ensures j != i && j !in i.inside && i !in j.inside
        {
          assert !Conflicts(j, i);
        }
      }
    }
  }

  /** Both items are withdrawn while both players are still transferring, and only then do they stop trading. */
  lemma EndedByTransfer(v: Desk, p: Player, q: Player, at: map<Player, Standing>, w: Desk)
    requires p in v.at && q in v.at && p != q && v.at[p].partner == q
    requires at == v.at[p := Standing(Transfer, q, v.at[p].item)][q := Standing(Transfer, v.at[q].partner,
             v.at[q].item)]
    requires w == Withdrawn(Withdrawn(v.(at := at), v.at[p].item), v.at[q].item).(at := at[p := IDLE][q := IDLE])
    ensures w == Ended(v, p)
  {
    assert at[p := IDLE][q := IDLE] == v.at[p := IDLE][q := IDLE];
  }

  lemma EndedAfterAgreeing(v: Desk, p: Player)
    requires p in v.at && (v.at[p].partner != null ==> v.at[p].partner in v.at && v.at[p].partner != p)
    ensures Ended(Agreed(v, p), p) == Ended(v, p)
  {
    assert Agreed(v, p).at[p := IDLE] == v.at[p := IDLE];
    assert Left(Agreed(v, p), p) == Left(v, p);
  }

  lemma LeftReferences(v: Desk, p: Player)
    requires p in v.at && (forall j {:trigger Referenced(v, j)} :: j in v.extra ==> Referenced(v, j))
    ensures forall j {:trigger Referenced(Left(v, p), j)} :: j in v.extra ==> Referenced(Left(v, p), j)
  {
    var w, i := Left(v, p), v.at[p].item;
    forall j | j in v.extra
      ensures Referenced(w, j)
    {
      assert Referenced(v, j);
      if i != null {
        assert multiset(v.releases + [i]) == multiset(v.releases) + multiset{i};
      }
    }
  }

  /** Both are idle, nothing of theirs is offered, and everything else is as it was. */
  lemma EndedExactly(v: Desk, p: Player, w: Desk)
    requires Orderly(v) && p in v.at && Fair(v, p) && w == Ended(v, p)
    ensures w.at[p] == IDLE && (v.at[p].partner != null ==> w.at[v.at[p].partner] == IDLE)
    ensures forall r :: r in v.at && r != p && r != v.at[p].partner ==> r in w.at && w.at[r] == v.at[r]
    ensures forall i :: i in w.offered <==> i in v.offered && v.offered[i] != p && v.offered[i] != v.at[p].partner
    ensures forall i :: i in w.offered ==> w.offered[i] == v.offered[i]
  {
    var q := v.at[p].partner;
    if q != null {
      assert Fair(v, q);
    }
    forall i
      ensures i in w.offered <==> i in v.offered && v.offered[i] != p && v.offered[i] != q
    {
      if i in v.offered {
        assert Offered(v, i);
      }
    }
  }

  lemma EndKeepsFair(v: Desk, p: Player, w: Desk, r: Player)
    requires Orderly(v) && p in v.at && Fair(v, p) && w == Ended(v, p) && r in w.at
    ensures Fair(w, r)
  {
    var q := v.at[p].partner;
    EndedExactly(v, p, w);
    assert Fair(v, r);
    if r != p && r != q && v.at[r].partner != null {
      Exclusive(v, p, r);
      assert Fair(v, v.at[r].partner);
    }
  }

  lemma EndKeepsOrder(v: Desk, p: Player, w: Desk)
    requires Orderly(v) && p in v.at && Fair(v, p) && w == Ended(v, p)
    ensures Orderly(w)
  {
    var q := v.at[p].partner;
    EndedExactly(v, p, w);
    LeftReferences(v, p);
    if q != null {
      LeftReferences(Left(v, p), q);
    }
    forall r | r in w.at
      ensures Fair(w, r)
    {
      EndKeepsFair(v, p, w, r);
    }
    forall j | j in w.offered
      ensures Offered(w, j)
    {
      assert Offered(v, j);
    }
    EndKeepsReleases(v, p, w);
  }

  lemma EndKeepsReleases(v: Desk, p: Player, w: Desk)
    requires Orderly(v) && p in v.at && Fair(v, p) && w == Ended(v, p)
    ensures forall i :: i in w.releases ==> i in w.extra
  {
    forall i | i in w.releases
      ensures i in w.extra
    {
      if i !in v.releases {
        assert i in v.offered && Offered(v, i);
      }
    }
  }

  /** Player p accepts while the partner has not yet. */
  function Agreed(v: Desk, p: Player): Desk
    requires p in v.at
  {
    v.(at := v.at[p := v.at[p].(state := Accept)])
  }

  lemma AgreeKeepsOrder(v: Desk, p: Player, w: Desk)
    requires Orderly(v) && p in v.at && MayAccept(v, p) && v.at[v.at[p].partner].state != Accept && w == Agreed(v, p)
    ensures Orderly(w)
  {
    assert Fair(v, p) && Fair(v, v.at[p].partner);
    forall r | r in w.at
      ensures Fair(w, r)
    {
      assert Fair(v, r);
    }
    forall j | j in w.offered
      ensures Offered(w, j)
    {
      assert Offered(v, j);
    }
    forall j | j in w.extra
      ensures Referenced(w, j)
    {
      assert Referenced(v, j);
    }
  }

  predicate MayAccept(v: Desk, p: Player)
    requires p in v.at
  {
    (v.at[p].state == Acknowledge || v.at[p].state == Initiated) && v.at[p].partner != null && v.at[p].partner in v.at
  }

  /** All releases are carried out. */
  function GivenBack(v: Desk): Desk {
    v.(extra := Returned(v.extra, v.releases), releases := [])
  }

  function Returned(extra: map<Item, int>, releases: seq<Item>): map<Item, int> {
    map i | i in extra :: extra[i] - multiset(releases)[i]
  }

  lemma ReturnedNext(extra: map<Item, int>, releases: seq<Item>, k: nat, now: map<Item, int>, after: map<Item, int>)
    requires k < |releases| && releases[k] in extra && now == Returned(extra, releases[..k])
    requires after == now[releases[k] := now[releases[k]] - 1]
    ensures after == Returned(extra, releases[..k + 1])
  {
    assert releases[..k + 1] == releases[..k] + [releases[k]];
  }

  lemma GiveBackKeepsOrder(v: Desk, w: Desk)
    requires Orderly(v) && w == GivenBack(v)
    ensures Orderly(w)
    ensures forall i :: i in w.extra ==> w.extra[i] == if i in w.offered then 1 else 0
  {
    forall r | r in w.at
      ensures Fair(w, r)
    {
      assert Fair(v, r);
    }
    forall j | j in w.offered
      ensures Offered(w, j)
    {
      assert Offered(v, j);
    }
    forall j | j in w.extra
      ensures Referenced(w, j)
    {
      assert Referenced(v, j);
    }
    forall i | i in w.extra
      ensures w.extra[i] == if i in w.offered then 1 else 0
    {
      assert Referenced(w, i);
    }
  }

  /** One operation of one player, or a clean-up. */
  datatype Step = Begin(p: Player, q: Player, i: Item) | Agree(p: Player) | End(p: Player) | GiveBack

  predicate Allowed(v: Desk, step: Step) {
    match step
    case Begin(p, q, i) =>
      && p in v.at && q in v.at && p != q && i in v.extra && MayStart(v, p, q) && |i.inside| + 1 <= MAX_ITEMS
      && forall j <- v.offered :: !Conflicts(j, i)
    case Agree(p) => p in v.at && MayAccept(v, p) && v.at[v.at[p].partner].state != Accept
    case End(p) => p in v.at && (v.at[p].partner != null ==> v.at[p].partner in v.at)
    case GiveBack => true
  }

  function Next(v: Desk, step: Step): Desk
    requires Allowed(v, step)
  {
    match step
    case Begin(p, q, i) => Begun(v, p, q, i)
    case Agree(p) => Agreed(v, p)
    case End(p) => Ended(v, p)
    case GiveBack => GivenBack(v)
  }

  lemma StepKeepsOrder(v: Desk, step: Step)
    requires Orderly(v) && Allowed(v, step)
    ensures Orderly(Next(v, step))
  {
    match step {
      case Begin(p, q, i) =>
        forall j | j in v.offered
          ensures !Conflicts(i, j) && !Conflicts(j, i)
        {
          assert !Conflicts(j, i);
        }
        BeginKeepsOrder(v, p, q, i, Next(v, step));
      case Agree(p) => AgreeKeepsOrder(v, p, Next(v, step));
      case End(p) =>
        assert Fair(v, p);
        EndKeepsOrder(v, p, Next(v, step));
      case GiveBack => GiveBackKeepsOrder(v, Next(v, step));
    }
  }

  /** Whatever the players do, one after the other. */
  ghost predicate Run(v: Desk, steps: seq<Step>, w: Desk)
    decreases |steps|
  {
    if steps == [] then w == v else Allowed(v, steps[0]) && Run(Next(v, steps[0]), steps[1..], w)
  }

  /** In every run that starts in order, a player is in state None exactly when nobody is its partner, and when
      every release is carried out an item has one more reference while it is offered and none afterwards. */
  lemma {:induction false} RunKeepsOrder(v: Desk, steps: seq<Step>, w: Desk)
    requires Orderly(v) && Run(v, steps, w)
    ensures Orderly(w)
    ensures forall p :: p in w.at ==> (w.at[p].state == None <==> forall q :: q in w.at ==> w.at[q].partner != p)
    ensures forall i :: i in w.extra && i !in w.releases ==> w.extra[i] == if i in w.offered then 1 else 0
    decreases |steps|
  {
    if steps == [] {
      forall p | p in w.at
        ensures w.at[p].state == None <==> forall q :: q in w.at ==> w.at[q].partner != p
      {
        assert Fair(w, p);
        if w.at[p].state == None {
          forall q | q in w.at
            ensures w.at[q].partner != p
          {
            assert Fair(w, q);
          }
        }
      }
      forall i | i in w.extra && i !in w.releases
        ensures w.extra[i] == if i in w.offered then 1 else 0
      {
        assert Referenced(w, i);
      }
    } else {
      StepKeepsOrder(v, steps[0]);
      RunKeepsOrder(Next(v, steps[0]), steps[1..], w);
    }
  }

  /** No step of these ends the trade of p or q. */
  ghost predicate GoesOn(steps: seq<Step>, p: Player, q: Player) {
    forall step <- steps :: step.End? ==> step.p != p && step.p != q
  }

  /** Who accepted first is bound: as long as the trade goes on the acceptance stands, whatever the partner offers.
      When the partner accepts, what is exchanged was on offer at both acceptances exactly if the partner had offered
      something by the first. */
  lemma {:induction false} AcceptedUnseen(v: Desk, steps: seq<Step>, w: Desk, p: Player, q: Player)
    requires Orderly(v) && Run(v, steps, w) && q in v.at && v.at[q].state == Accept && v.at[q].partner == p
             && GoesOn(steps, p, q)
    ensures p in v.at && p in w.at && q in w.at && w.at[q] == v.at[q]
    ensures v.at[p].item != null ==> w.at[p].item == v.at[p].item
    ensures w.at[p].item != null ==> (w.at[p].item == v.at[p].item <==> v.at[p].state == Initiated)
    decreases |steps|
  {
    assert Fair(v, q) && Fair(v, p);
    if steps != [] {
      assert steps[0] in steps;
      StepKeepsOrder(v, steps[0]);
      OneStepOn(v, steps[0], p, q);
      assert forall step <- steps[1..] :: step in steps;
      AcceptedUnseen(Next(v, steps[0]), steps[1..], w, p, q);
    }
  }

  lemma OneStepOn(v: Desk, step: Step, p: Player, q: Player)
    requires Orderly(v) && Allowed(v, step) && q in v.at && v.at[q].state == Accept && v.at[q].partner == p
    requires step.End? ==> step.p != p && step.p != q
    ensures var n := Next(v, step);
            && p in v.at && p in n.at && q in n.at && n.at[q] == v.at[q]
            && (n.at[p] == v.at[p] || (v.at[p].state == Acknowledge && n.at[p].state == Initiated))
  {
    assert Fair(v, q) && Fair(v, p);
    if step.Begin? {
      assert Fair(v, step.p) && Fair(v, step.q);
    } else if step.Agree? {
      assert Fair(v, step.p);
    } else if step.End? {
      assert Fair(v, step.p);
      Exclusive(v, step.p, p);
      Exclusive(v, step.p, q);
    }
  }

  /** Two idle players: p offers i, q offers j in return, p accepts and q may accept, with both items on offer; when q
      does, both are idle again and both references are given back. */
  lemma OfferAndCounterOffer(v: Desk, p: Player, q: Player, i: Item, j: Item) returns (w: Desk, done: Desk)
    requires Orderly(v) && p in v.at && q in v.at && p != q && v.at[p].state == None && v.at[q].state == None
    requires i in v.extra && j in v.extra && |i.inside| < 100 && |j.inside| < 100
    requires i != j && i !in j.inside && j !in i.inside
    requires forall k <- v.offered :: k != i && k !in i.inside && i !in k.inside
    requires forall k <- v.offered :: k != j && k !in j.inside && j !in k.inside
    ensures Run(v, [Begin(p, q, i), Begin(q, p, j), Agree(p)], w)
    ensures w.at == v.at[p := Standing(Accept, q, i)][q := Standing(Initiated, p, j)]
    ensures w.offered == v.offered[i := p][j := q] && MayAccept(w, q)
    ensures Run(w, [End(q), GiveBack], done) && Orderly(done)
    ensures p in done.at && q in done.at && done.at[p] == IDLE && done.at[q] == IDLE
    ensures i !in done.offered && j !in done.offered
    ensures i in done.extra && j in done.extra && done.extra[i] == 0 && done.extra[j] == 0
  {
    var v1, v2 := BothOffer(v, p, q, i, j);
    w := Agreed(v2, p);
    assert Fair(v2, p);
    StepKeepsOrder(v2, Agree(p));
    RunOfThree(v, Begin(p, q, i), Begin(q, p, j), Agree(p), v1, v2, w);
    assert w.at[p] == Standing(Accept, q, i) && w.at[q] == Standing(Initiated, p, j);
    done := BothGivenBack(w, p, q, i, j);
  }

  lemma BothOffer(v: Desk, p: Player, q: Player, i: Item, j: Item) returns (v1: Desk, v2: Desk)
    requires Orderly(v) && p in v.at && q in v.at && p != q && v.at[p].state == None && v.at[q].state == None
    requires i in v.extra && j in v.extra && |i.inside| < 100 && |j.inside| < 100
    requires i != j && i !in j.inside && j !in i.inside
    requires forall k <- v.offered :: k != i && k !in i.inside && i !in k.inside
    requires forall k <- v.offered :: k != j && k !in j.inside && j !in k.inside
    ensures Allowed(v, Begin(p, q, i)) && v1 == Begun(v, p, q, i)
    ensures Allowed(v1, Begin(q, p, j)) && v2 == Begun(v1, q, p, j) && Orderly(v2)
    ensures v2.at == v.at[p := Standing(Initiated, q, i)][q := Standing(Initiated, p, j)]
    ensures v2.offered == v.offered[i := p][j := q]
  {
    assert Fair(v, p) && Fair(v, q);
    RequestDecided(v, p, q, i);
    v1 := Begun(v, p, q, i);
    StepKeepsOrder(v, Begin(p, q, i));
    RequestDecided(v1, q, p, j);
    v2 := Begun(v1, q, p, j);
    StepKeepsOrder(v1, Begin(q, p, j));
  }

  lemma RunOfThree(v: Desk, a: Step, b: Step, c: Step, v1: Desk, v2: Desk, w: Desk)
    requires Allowed(v, a) && v1 == Next(v, a) && Allowed(v1, b) && v2 == Next(v1, b) && Allowed(v2, c)
             && w == Next(v2, c)
    ensures Run(v, [a, b, c], w)
  {
    assert [a, b, c][1..] == [b, c] && [b, c][1..] == [c] && [c][1..] == [];
    assert Run(w, [], w) && Run(v2, [c], w) && Run(v1, [b, c], w);
  }

  lemma BothGivenBack(w: Desk, p: Player, q: Player, i: Item, j: Item) returns (done: Desk)
    requires Orderly(w) && p in w.at && q in w.at && i in w.offered && j in w.offered
    requires w.at[p] == Standing(Accept, q, i) && w.at[q] == Standing(Initiated, p, j)
    ensures Run(w, [End(q), GiveBack], done) && Orderly(done)
    ensures p in done.at && q in done.at && done.at[p] == IDLE && done.at[q] == IDLE
    ensures i !in done.offered && j !in done.offered
    ensures i in done.extra && j in done.extra && done.extra[i] == 0 && done.extra[j] == 0
  {
    assert Fair(w, p) && Fair(w, q) && Offered(w, i) && Offered(w, j);
    var over := Ended(w, q);
    StepKeepsOrder(w, End(q));
    EndedExactly(w, q, over);
    done := GivenBack(over);
    StepKeepsOrder(over, GiveBack);
    assert [End(q), GiveBack][1..] == [GiveBack] && [GiveBack][1..] == [];
    assert Run(done, [], done) && Run(over, [GiveBack], done);
    assert Referenced(done, i) && Referenced(done, j);
  }

  // Where an item would go in a player's possessions.

  const MAX_STACK := 100

  /** Whether a place lies inside what its owner offers, and whether that is worn or lies in a container itself. */
  datatype Inside = Outside | InWorn | InStowed

  /** A place as the search for a destination meets it: free for the item, in a slot or in a container; a stack; or of
      no use for the item. */
  datatype Spot = Free(inContainer: bool, inside: Inside)
      | Pile(inContainer: bool, inside: Inside, kind: nat, count: nat) | Filled

  /** The search passes over what is offered, but for a stowed container when it does not look for stacks. */
  predicate Meets(inside: Inside, item: Item, autoStack: bool) {
    inside.Outside? || (inside.InStowed? && !(autoStack && item.stackable))
  }

  /** A free place takes any item, a stack with room one of its kind, if the search may stack. */
  predicate Takes(spot: Spot, item: Item, autoStack: bool) {
    match spot
    case Free(_, inside) => Meets(inside, item, autoStack)
    case Pile(_, inside, kind, count) => Meets(inside, item, autoStack) && autoStack && item.stackable
        && kind == item.kind && count < MAX_STACK
    case Filled => false
  }

  /** The first place that takes the item, or the number of places. */
  function Search(spots: seq<Spot>, item: Item, autoStack: bool): (n: nat)
    ensures n <= |spots| && (n < |spots| ==> Takes(spots[n], item, autoStack))
    ensures forall i :: 0 <= i < n ==> !Takes(spots[i], item, autoStack)
  {
    if spots == [] || Takes(spots[0], item, autoStack) then 0 else 1 + Search(spots[1..], item, autoStack)
  }

  /** The units there is room for, over all places. */
  function Room(spots: seq<Spot>, item: Item): nat {
    if spots == [] then 0
    else Room(spots[..|spots| - 1], item) + RoomIn(spots[|spots| - 1], item)
  }

  function RoomIn(spot: Spot, item: Item): nat {
    match spot
    case Free(_, _) => if item.stackable then MAX_STACK else 1
    case Pile(_, _, kind, count) => if item.stackable && kind == item.kind && count < MAX_STACK then MAX_STACK - count
        else 0
    case Filled => 0
  }

  /** The test before the exchange may stack; in a container there must be room for all. */
  predicate TestAllows(spots: seq<Spot>, item: Item) {
    var n := Search(spots, item, true);
    n < |spots| && (spots[n].inContainer ==> Room(spots, item) >= item.count)
  }

  /** The move itself may not stack, and goes nowhere if the place found lies inside what is offered for it. */
  predicate MoveAllows(spots: seq<Spot>, item: Item) {
    var n := Search(spots, item, false);
    n < |spots| && spots[n].inside.Outside?
  }

  /** The places once the offered item that lay at one of them is gone: those inside it have gone with it, and its own
      is free, if the other item can use it. */
  function Vacated(spots: seq<Spot>, place: int, inContainer: bool): (later: seq<Spot>)
    ensures |later| == |spots|
    ensures forall i :: 0 <= i < |spots| ==>
              later[i] == if i == place then Free(inContainer, Outside)
                  else if spots[i] != Filled && !spots[i].inside.Outside? then Filled else spots[i]
  {
    seq(|spots|, i requires 0 <= i < |spots| =>
      if i == place then Free(inContainer, Outside)
          else if spots[i] != Filled && !spots[i].inside.Outside? then Filled else spots[i])
  }

  /** What the map, the scripts and the inventories say at one acceptance: the partner's places for the first item, the
      player's for the second, and which of those the first item vacates, if any. */
  datatype Answers = Answers(reachable: bool, agreed: bool, remove1: bool, remove2: bool,
                             forItem1: seq<Spot>, forItem2: seq<Spot>, vacated: int, inContainer: bool)

  /** The first item changes hands if there are two, everything is allowed beforehand, and its move finds a place. */
  predicate Exchanges(item1: Item?, item2: Item?, a: Answers) {
    && item1 != null && item2 != null && a.agreed
    && TestAllows(a.forItem1, item1) && TestAllows(a.forItem2, item2) && a.remove1 && a.remove2
    && MoveAllows(a.forItem1, item1)
  }

  /** Who owns what after an acceptance by both.  The outcome of the second move is not looked at. */
  function Exchanged(owners: map<Item, Player?>, p: Player, q: Player, item1: Item?, item2: Item?,
                     a: Answers): map<Item, Player?> {
    if !Exchanges(item1, item2, a) then owners
    else if MoveAllows(Vacated(a.forItem2, a.vacated, a.inContainer), item2) then owners[item1 := q][item2 := p]
    else owners[item1 := q]
  }

  predicate NoneFree(spots: seq<Spot>) {
    forall i :: 0 <= i < |spots| ==> !spots[i].Free?
  }

  /** The player can take the item on top of a stack only. */
  predicate OnlyOnStacks(spots: seq<Spot>, item: Item) {
    item.stackable && NoneFree(spots) && exists i :: 0 <= i < |spots| && Takes(spots[i], item, true)
  }

  /** The player can take the item inside the offered container only. */
  predicate OnlyInside(spots: seq<Spot>, later: seq<Spot>, item: Item) {
    !item.stackable && NoneFree(later) && exists i :: 0 <= i < |spots| && spots[i].Free? && spots[i].inside.InStowed?
  }

  /** Either both items change hands or neither does, unless the first goes and the player, even in the place it leaves,
      has room for the second on top of a stack only, or only inside the first: the test counts that room, the move
      does not use it. */
  lemma ExchangedBothOrNone(owners: map<Item, Player?>, p: Player, q: Player, item1: Item, item2: Item, a: Answers)
    requires item1 in owners && item2 in owners && item1 != item2 && owners[item1] == p && owners[item2] == q && p != q
    ensures var after, later := Exchanged(owners, p, q, item1, item2, a), Vacated(a.forItem2, a.vacated, a.inContainer);
            ((after[item1] == q && after[item2] == p) || after == owners) <==>
            !(Exchanges(item1, item2, a) && (OnlyOnStacks(later, item2) || OnlyInside(a.forItem2, later, item2)))
  {
    var spots, later := a.forItem2, Vacated(a.forItem2, a.vacated, a.inContainer);
    if Exchanges(item1, item2, a) {
      FreeIsTaken(later, item2);
      if !MoveAllows(later, item2) {
        NoRoomLeft(spots, later, item2, a);
      }
    }
  }

  /** Both items change hands when nothing stands against it and both sides have a free place. */
  lemma BothChangeHands(owners: map<Item, Player?>, p: Player, q: Player, item1: Item, item2: Item, a: Answers)
    requires item1 in owners && item2 in owners && item1 != item2 && a.agreed && a.remove1 && a.remove2
    requires forall i :: 0 <= i < |a.forItem1| && a.forItem1[i] != Filled ==> a.forItem1[i].inside.Outside?
    requires forall i :: 0 <= i < |a.forItem2| && a.forItem2[i] != Filled ==> a.forItem2[i].inside.Outside?
    requires !NoneFree(a.forItem1) && item1.count <= if item1.stackable then 100 else 1
    requires !NoneFree(a.forItem2) && item2.count <= if item2.stackable then 100 else 1
    ensures Exchanged(owners, p, q, item1, item2, a) == owners[item1 := q][item2 := p]
  {
    var later := Vacated(a.forItem2, a.vacated, a.inContainer);
    FreeIsTested(a.forItem1, item1);
    FreeIsTested(a.forItem2, item2);
    FreeIsTaken(a.forItem1, item1);
    var i :| 0 <= i < |a.forItem2| && a.forItem2[i].Free?;
    assert later[i].Free?;
    FreeIsTaken(later, item2);
  }

  lemma FreeIsTested(spots: seq<Spot>, item: Item)
    requires !NoneFree(spots) && item.count <= if item.stackable then 100 else 1
    requires forall i :: 0 <= i < |spots| && spots[i] != Filled ==> spots[i].inside.Outside?
    ensures TestAllows(spots, item)
  {
    var i :| 0 <= i < |spots| && spots[i].Free?;
    assert Takes(spots[i], item, true);
    RoomAtLeast(spots, item, i);
  }

  /** A free place has room for a full stack, or for one item, and a stack of the kind for what it lacks. */
  lemma {:induction false} RoomAtLeast(spots: seq<Spot>, item: Item, i: nat)
    requires i < |spots|
    ensures spots[i].Free? ==> Room(spots, item) >= if item.stackable then 100 else 1
    ensures spots[i].Pile? && item.stackable && spots[i].kind == item.kind ==> Room(spots, item) >= 100 - spots[i].count
    decreases |spots|
  {
    if i < |spots| - 1 {
      RoomAtLeast(spots[..|spots| - 1], item, i);
    }
  }

  /** Nothing changes hands when one of the items is not there, a script or the holder refuses, or a side has no
      place. */
  lemma NothingChangesHands(owners: map<Item, Player?>, p: Player, q: Player, item1: Item?, item2: Item?, a: Answers)
    requires item1 == null || item2 == null || !a.agreed || !a.remove1 || !a.remove2
             || (forall s <- a.forItem1 :: s == Filled) || (forall s <- a.forItem2 :: s == Filled)
    ensures Exchanged(owners, p, q, item1, item2, a) == owners
  {
    if item1 != null && item2 != null {
      AllFilled(a.forItem1, item1);
      AllFilled(a.forItem2, item2);
    }
  }

  lemma AllFilled(spots: seq<Spot>, item: Item)
    ensures (forall s <- spots :: s == Filled) ==> !TestAllows(spots, item)
  {
    var n := Search(spots, item, true);
    assert n < |spots| ==> spots[n] in spots;
  }

  /** Where no place lies inside an offer, the move goes ahead exactly if one is free. */
  lemma FreeIsTaken(later: seq<Spot>, item: Item)
    requires forall i :: 0 <= i < |later| && later[i] != Filled ==> later[i].inside.Outside?
    ensures MoveAllows(later, item) <==> !NoneFree(later)
  {
    var n := Search(later, item, false);
    if n == |later| {
      forall i | 0 <= i < |later|
        ensures !later[i].Free?
      {
        assert !Takes(later[i], item, false);
      }
    }
  }

  lemma NoRoomLeft(spots: seq<Spot>, later: seq<Spot>, item: Item, a: Answers)
    requires TestAllows(spots, item) && later == Vacated(spots, a.vacated, a.inContainer) && NoneFree(later)
    ensures OnlyOnStacks(later, item) || OnlyInside(spots, later, item)
  {
    var n := Search(spots, item, true);
    assert !later[n].Free?;
    if spots[n].Free? {
      assert spots[n].inside.InStowed?;
    } else {
      assert later[n] == spots[n] && Takes(later[n], item, true);
    }
  }

  /** Such an exchange: a sword in the hand for twenty coins.  The backpack is full, but holds fifty coins; the hand
      takes no coins.  The sword goes, and the coins stay. */
  lemma SwordForNothing(owners: map<Item, Player?>, p: Player, q: Player, sword: Item, gold: Item)
    requires sword in owners && gold in owners && sword != gold && owners[sword] == p && owners[gold] == q && p != q
    requires gold.stackable && gold.count == 20
    ensures var a := Answers(true, true, true, true, [Free(false, Outside)],
            [Filled, Pile(true, Outside, gold.kind, 50)], -1, false);
            var after := Exchanged(owners, p, q, sword, gold, a);
            after[sword] == q && after[gold] == q
  {
    var spots := [Filled, Pile(true, Outside, gold.kind, 50)];
    assert !Takes(spots[0], gold, true) && Takes(spots[1], gold, true);
    assert Search(spots, gold, true) == 1;
    assert spots[..1] == [Filled] && Room([Filled], gold) == Room([Filled][..0], gold) + 0;
    assert Room(spots, gold) >= 50;
    var later := Vacated(spots, -1, false);
    FreeIsTaken(later, gold);
    assert later[0] == Filled && later[1] == spots[1];
    var free := [Free(false, Outside)];
    assert Takes(free[0], sword, true) && Takes(free[0], sword, false);
    assert Search(free, sword, true) == 0 && Search(free, sword, false) == 0;
  }

  /** The items of the two partners are different and known. */
  lemma BothOffered(v: Desk, p: Player)
    requires Orderly(v) && p in v.at && v.at[p].partner != null
    ensures var q := v.at[p].partner;
            && q in v.at
            && (v.at[p].item != null ==> v.at[p].item in v.extra && v.at[p].item != v.at[q].item)
            && (v.at[q].item != null ==> v.at[q].item in v.extra)
  {
    assert Fair(v, p);
    var q := v.at[p].partner;
    assert Fair(v, q);
    Exclusive(v, p, q);
    if v.at[p].item != null {
      assert Offered(v, v.at[p].item);
    }
    if v.at[q].item != null {
      assert Offered(v, v.at[q].item);
    }
  }

  class Game {
    ghost var players: set<Player>
    ghost var items: set<Item>
    var tradeItems: map<Item, Player>
    var toRelease: seq<Item>

    constructor (ghost players: set<Player>, ghost items: set<Item>)
      requires forall p <- players :: p.tradeState == None && p.tradePartner == null && p.tradeItem == null
      requires forall i <- items :: i.references == i.others
      ensures Valid() && this.players == players && this.items == items && tradeItems == map[] && toRelease == []
    {
      this.players, this.items, tradeItems, toRelease := players, items, map[], [];
      new;
      forall p | p in View().at
        ensures Fair(View(), p)
      {
      }
      forall i | i in View().extra
        ensures Referenced(View(), i)
      {
      }
    }

    ghost function At(): map<Player, Standing>
      reads this`players, players`tradeState, players`tradePartner, players`tradeItem
    {
      map p | p in players :: Standing(p.tradeState, p.tradePartner, p.tradeItem)
    }

    ghost function Extra(): map<Item, int>
      reads this`items, items`references, items`others
    {
      map i | i in items :: i.references - i.others
    }

    ghost function Owners(): map<Item, Player?>
      reads this`items, items`owner
    {
      map i | i in items :: i.owner
    }

    ghost function View(): Desk
      reads this, players, items`references, items`others
    {
      Desk(At(), tradeItems, Extra(), toRelease)
    }

    ghost predicate Valid()
      reads this, players, items`references, items`others
    {
      Orderly(View())
    }

    method AlreadyTraded(tradeItem: Item) returns (traded: bool)
      ensures traded == exists i <- tradeItems :: Conflicts(i, tradeItem)
    {
      var rest := tradeItems.Keys;
      while rest != {}
        invariant rest <= tradeItems.Keys
        invariant forall i <- tradeItems :: i !in rest ==> !Conflicts(i, tradeItem)
        decreases |rest|
      {
        var i :| i in rest;
        if Conflicts(i, tradeItem) {
          return true;
        }
        rest := rest - {i};
      }
      traded := false;
    }

    /** The player stands as who initiated, the partner as who is asked or asked before, and the item is referred to. */
    twostate predicate HasOffered(player: Player, tradePartner: Player, tradeItem: Item)
      reads this, player, tradePartner, tradeItem
    {
      && player.tradeState == Initiated && player.tradePartner == tradePartner && player.tradeItem == tradeItem
      && tradePartner.tradePartner == player && tradePartner.tradeItem == old(tradePartner.tradeItem)
      && (old(tradePartner.tradeState) == None ==> tradePartner.tradeState == Acknowledge)
      && (old(tradePartner.tradeState) != None ==> tradePartner.tradeState == old(tradePartner.tradeState))
      && tradeItems == old(tradeItems)[tradeItem := player] && tradeItem.references == old(tradeItem.references) + 1
    }

    /** A player offers an item to another.  `allowed` stands for the checks of distance, sight, item kind
        and position, and for the scripts. */
    method PlayerRequestTrade(player: Player, tradePartner: Player, tradeItem: Item, allowed: bool)
      returns (started: bool)
      requires Valid() && player in players && tradePartner in players && tradeItem in items
      modifies this`tradeItems, player, tradePartner, tradeItem`references
      ensures Valid()
      ensures started == (allowed && Allowed(old(View()), Begin(player, tradePartner, tradeItem)))
      ensures View() == if started then Begun(old(View()), player, tradePartner, tradeItem) else old(View())
      ensures started <==>
              && allowed && player != tradePartner && |tradeItem.inside| < 100
              && (forall i <- old(tradeItems) :: i != tradeItem && i !in tradeItem.inside && tradeItem !in i.inside)
              && old((player.tradeState == None && tradePartner.tradeState == None) ||
                     (player.tradeState == Acknowledge && player.tradePartner == tradePartner))
      ensures started ==> HasOffered(player, tradePartner, tradeItem)
    {
      RequestDecided(View(), player, tradePartner, tradeItem);
      if tradePartner == player || !allowed {
        return false;
      }
      var traded := AlreadyTraded(tradeItem);
      if traded || |tradeItem.inside| + 1 > MAX_ITEMS {
        return false;
      }
      started := InternalStartTrade(player, tradePartner, tradeItem);
    }

    method InternalStartTrade(player: Player, tradePartner: Player, tradeItem: Item) returns (started: bool)
      requires Valid() && player in players && tradePartner in players && player != tradePartner && tradeItem in items
      requires |tradeItem.inside| + 1 <= MAX_ITEMS && forall i <- tradeItems :: !Conflicts(i, tradeItem)
      modifies this`tradeItems, player, tradePartner, tradeItem`references
      ensures Valid()
      ensures started == MayStart(old(View()), player, tradePartner)
      ensures View() == if started then Begun(old(View()), player, tradePartner, tradeItem) else old(View())
      ensures started ==> HasOffered(player, tradePartner, tradeItem)
    {
      ghost var v := View();
      assert Fair(v, player) && Fair(v, tradePartner);
      if player.tradeState != None && !(player.tradeState == Acknowledge && player.tradePartner == tradePartner) {
        return false;
      } else if tradePartner.tradeState != None && tradePartner.tradePartner != player {
        return false;
      }
      StartOffer(player, tradePartner, tradeItem);
      StepKeepsOrder(v, Begin(player, tradePartner, tradeItem));
      started := true;
    }

    method StartOffer(player: Player, tradePartner: Player, tradeItem: Item)
      requires player in players && tradePartner in players && player != tradePartner && tradeItem in items
      modifies this`tradeItems, player, tradePartner, tradeItem`references
      requires tradePartner.tradeState != None ==> tradePartner.tradePartner == player
      ensures View() == Begun(old(View()), player, tradePartner, tradeItem)
      ensures HasOffered(player, tradePartner, tradeItem)
    {
      ghost var v := View();
      OfferItem(player, tradePartner, tradeItem);
      ghost var u := View();
      if tradePartner.tradeState == None {
        Stand(tradePartner, Acknowledge, player, tradePartner.tradeItem);
      }
      BegunInTwoSteps(v, player, tradePartner, tradeItem, u, View());
    }

    method OfferItem(player: Player, tradePartner: Player, tradeItem: Item)
      requires player in players && tradeItem in items
      modifies this`tradeItems, player, tradeItem`references
      ensures View() == Offering(old(View()), player, tradePartner, tradeItem)
      ensures player.tradeState == Initiated && player.tradePartner == tradePartner && player.tradeItem == tradeItem
      ensures tradeItem.references == old(tradeItem.references) + 1
    {
      ghost var v := View();
      Stand(player, Initiated, tradePartner, tradeItem);
      Refer(tradeItem, 1);
      assert View().extra == v.extra[tradeItem := v.extra[tradeItem] + 1];
      tradeItems := tradeItems[tradeItem := player];
    }

    method Stand(player: Player, state: TradeState, partner: Player?, item: Item?)
      requires player in players
      modifies player
      ensures View() == old(View()).(at := old(At())[player := Standing(state, partner, item)])
              && Owners() == old(Owners())
      ensures player.tradeState == state && player.tradePartner == partner && player.tradeItem == item
    {
      player.tradeState, player.tradePartner, player.tradeItem := state, partner, item;
      assert At() == old(At())[player := Standing(state, partner, item)];
    }

    method Refer(item: Item, change: int)
      requires item in items
      modifies item`references
      ensures View() == old(View()).(extra := old(Extra())[item := old(Extra())[item] + change])
      ensures item.references == old(item.references) + change
    {
      item.references := item.references + change;
      assert Extra() == old(Extra())[item := old(Extra())[item] + change];
    }

    method Hand(item: Item, owner: Player)
      requires item in items
      modifies item`owner
      ensures Owners() == old(Owners())[item := owner]
    {
      item.owner := owner;
    }

    ghost predicate Idle(player: Player)
      reads player
    {
      player.tradeState == None && player.tradePartner == null && player.tradeItem == null
    }

    /** A player accepts.  When the partner has accepted before, the items change hands, or they do not, and in
        either case the trade is over for both. */
    method PlayerAcceptTrade(player: Player, a: Answers)
      requires Valid() && player in players
      modifies this`tradeItems, this`toRelease, player, player.tradePartner, items`owner
      ensures Valid()
      ensures var v := old(View());
              View() == if !MayAccept(v, player) || !a.reachable then v
                        else if v.at[v.at[player].partner].state == Accept then Ended(v, player)
                        else Agreed(v, player)
      ensures var v := old(View());
              Owners() == if MayAccept(v, player) && a.reachable && v.at[v.at[player].partner].state == Accept
                          then Exchanged(old(Owners()), player, v.at[player].partner, old(player.tradeItem),
                              v.at[v.at[player].partner].item, a)
                          else old(Owners())
      ensures old(player.tradeState != Acknowledge && player.tradeState != Initiated) || !a.reachable ==>
              unchanged(player)
      ensures var q := old(player.tradePartner);
              old(player.tradeState == Acknowledge || player.tradeState == Initiated) && a.reachable ==>
                && q != null
                && (old(q.tradeState) != Accept ==>
                      && player.tradeState == Accept && player.tradePartner == q
                      && player.tradeItem == old(player.tradeItem)
                      && unchanged(q) && unchanged(`tradeItems))
                && (old(q.tradeState) == Accept ==>
                      && Idle(player) && Idle(q)
                      && old(player.tradeItem) !in tradeItems && old(q.tradeItem) !in tradeItems)
    {
      ghost var v := View();
      assert Fair(v, player);
      if !(player.tradeState == Acknowledge || player.tradeState == Initiated) {
        return;
      }
      var tradePartner := player.tradePartner;
      if !a.reachable {
        return;
      }
      assert Fair(v, tradePartner);
      Stand(player, Accept, tradePartner, player.tradeItem);
      assert View() == Agreed(v, player);
      if tradePartner.tradeState == Accept {
        EndKeepsOrder(v, player, Ended(v, player));
        EndedAfterAgreeing(v, player);
        BothOffered(v, player);
        Conclude(player, tradePartner, a);
      } else {
        AgreeKeepsOrder(v, player, View());
      }
    }

    method Conclude(player: Player, tradePartner: Player, a: Answers)
      requires player in players && tradePartner in players && player != tradePartner
               && player.tradePartner == tradePartner
      requires player.tradeState == tradePartner.tradeState == Accept
      requires player.tradeItem != null ==> player.tradeItem in items && player.tradeItem != tradePartner.tradeItem
      requires tradePartner.tradeItem != null ==> tradePartner.tradeItem in items
      modifies this`tradeItems, this`toRelease, player, tradePartner, items`owner
      ensures View() == Ended(old(View()), player)
      ensures Owners()
              == Exchanged(old(Owners()), player, tradePartner, old(player.tradeItem), old(tradePartner.tradeItem), a)
      ensures Idle(player) && Idle(tradePartner)
    {
      if !a.agreed {
        InternalCloseTrade(player);
      } else {
        TransferItems(player, tradePartner, a);
      }
    }

    /** Both have accepted: the offers are withdrawn, the items change hands if they can, and nobody trades. */
    method TransferItems(player: Player, tradePartner: Player, a: Answers)
      requires player in players && tradePartner in players && player != tradePartner
               && player.tradePartner == tradePartner
      requires player.tradeItem != null ==> player.tradeItem in items && player.tradeItem != tradePartner.tradeItem
      requires tradePartner.tradeItem != null ==> tradePartner.tradeItem in items
      requires a.agreed
      modifies this`tradeItems, this`toRelease, player, tradePartner, items`owner
      ensures View() == Ended(old(View()), player)
      ensures Owners()
              == Exchanged(old(Owners()), player, tradePartner, old(player.tradeItem), old(tradePartner.tradeItem), a)
      ensures Idle(player) && Idle(tradePartner)
    {
      ghost var v := View();
      var tradeItem1, tradeItem2 := player.tradeItem, tradePartner.tradeItem;
      Stand(player, Transfer, tradePartner, tradeItem1);
      Stand(tradePartner, Transfer, tradePartner.tradePartner, tradeItem2);
      ghost var at := At();
      assert View() == v.(at := at);
      ReleaseIfAny(tradeItem1);
      ReleaseIfAny(tradeItem2);
      Exchange(player, tradePartner, tradeItem1, tradeItem2, a);
      ghost var owners := Owners();
      Stand(player, None, null, null);
      Stand(tradePartner, None, null, null);
      assert Owners() == owners;
      EndedByTransfer(v, player, tradePartner, at, View());
    }

    method ReleaseIfAny(item: Item?)
      modifies this`tradeItems, this`toRelease
      ensures View() == Withdrawn(old(View()), item) && Owners() == old(Owners())
    {
      if item != null {
        Release(item);
      }
    }

    method Exchange(player: Player, tradePartner: Player, tradeItem1: Item?, tradeItem2: Item?, a: Answers)
      requires (tradeItem1 != null ==> tradeItem1 in items) && (tradeItem2 != null ==> tradeItem2 in items)
      requires a.agreed
      modifies items`owner
      ensures View() == old(View())
      ensures Owners() == Exchanged(old(Owners()), player, tradePartner, tradeItem1, tradeItem2, a)
    {
      if tradeItem1 == null || tradeItem2 == null {
        return;
      }
      var allowed := TestExchange(tradeItem1, tradeItem2, a);
      if allowed {
        var moves := MayMove(a.forItem1, tradeItem1);
        if moves {
          HandOver(player, tradePartner, tradeItem1, tradeItem2, a);
        }
      }
    }

    method HandOver(player: Player, tradePartner: Player, tradeItem1: Item, tradeItem2: Item, a: Answers)
      requires tradeItem1 in items && tradeItem2 in items
      modifies items`owner
      ensures View() == old(View())
      ensures Owners() == if MoveAllows(Vacated(a.forItem2, a.vacated, a.inContainer), tradeItem2)
                          then old(Owners())[tradeItem1 := tradePartner][tradeItem2 := player]
                          else old(Owners())[tradeItem1 := tradePartner]
    {
      Hand(tradeItem1, tradePartner);
      var moves := MayMove(Vacated(a.forItem2, a.vacated, a.inContainer), tradeItem2);
      if moves {
        Hand(tradeItem2, player);
      }
    }

    method TestExchange(tradeItem1: Item, tradeItem2: Item, a: Answers) returns (allowed: bool)
      ensures allowed
              == (TestAllows(a.forItem1, tradeItem1) && TestAllows(a.forItem2, tradeItem2) && a.remove1 && a.remove2)
    {
      var ret1 := TestAddItem(a.forItem1, tradeItem1);
      var ret2 := TestAddItem(a.forItem2, tradeItem2);
      allowed := ret1 && ret2 && a.remove1 && a.remove2;
    }

    method MayMove(spots: seq<Spot>, item: Item) returns (moves: bool)
      ensures moves == MoveAllows(spots, item)
    {
      var place := QueryDestination(spots, item, false);
      moves := place < |spots| && spots[place].inside.Outside?;
    }

    method TestAddItem(spots: seq<Spot>, item: Item) returns (allowed: bool)
      ensures allowed == TestAllows(spots, item)
    {
      var place := QueryDestination(spots, item, true);
      if place == |spots| {
        return false;
      }
      var maxQueryCount := QueryMaxCount(spots, item);
      allowed := !(maxQueryCount < item.count && spots[place].inContainer);
    }

    method QueryDestination(spots: seq<Spot>, item: Item, autoStack: bool) returns (n: nat)
      ensures n == Search(spots, item, autoStack)
    {
      n := 0;
      while n < |spots| && !Takes(spots[n], item, autoStack)
        invariant n <= |spots| && forall i :: 0 <= i < n ==> !Takes(spots[i], item, autoStack)
      {
        n := n + 1;
      }
    }

    method QueryMaxCount(spots: seq<Spot>, item: Item) returns (n: nat)
      ensures n == Room(spots, item)
    {
      n := 0;
      for k := 0 to |spots|
        invariant n == Room(spots[..k], item)
      {
        assert spots[..k + 1][..k] == spots[..k];
        n := n + RoomIn(spots[k], item);
      }
      assert spots[..|spots|] == spots;
    }

    /** Nothing happens while items are being transferred; else the trade is over for both. */
    method InternalCloseTrade(player: Player)
      requires player in players && (player.tradePartner != null ==> player.tradePartner in players)
      modifies this`tradeItems, this`toRelease, player, player.tradePartner
      ensures View()
              == if old(player.tradeState == Transfer
              || (player.tradePartner != null && player.tradePartner.tradeState == Transfer))
                        then old(View()) else Ended(old(View()), player)
      ensures Owners() == old(Owners())
      ensures old(player.tradeState != Transfer
              && (player.tradePartner != null ==> player.tradePartner.tradeState != Transfer))
              ==> Idle(player) && (old(player.tradePartner) != null ==> Idle(old(player.tradePartner)))
    {
      var tradePartner := player.tradePartner;
      if (tradePartner != null && tradePartner.tradeState == Transfer) || player.tradeState == Transfer {
        return;
      }
      Leave(player);
      if tradePartner != null {
        Leave(tradePartner);
      }
    }

    /** The player's offer is withdrawn, and the player stops trading. */
    method Leave(player: Player)
      requires player in players
      modifies this`tradeItems, this`toRelease, player
      ensures View() == Left(old(View()), player) && Owners() == old(Owners())
      ensures Idle(player)
    {
      ReleaseIfAny(player.tradeItem);
      Stand(player, None, null, null);
    }

    method Release(item: Item)
      modifies this`tradeItems, this`toRelease
      ensures tradeItems == old(tradeItems) - {item}
      ensures toRelease == if item in old(tradeItems) then old(toRelease) + [item] else old(toRelease)
    {
      if item in tradeItems {
        toRelease := toRelease + [item];
        tradeItems := tradeItems - {item};
      }
    }

    /** The releases are carried out. */
    method Cleanup()
      requires Valid()
      modifies this`toRelease, items`references
      ensures Valid() && View() == GivenBack(old(View()))
    {
      ghost var v := View();
      forall i | i in v.releases
        ensures i in items
      {
        assert i in v.extra;
      }
      CarryOut();
      toRelease := [];
      GiveBackKeepsOrder(v, View());
    }

    method CarryOut()
      requires forall i <- toRelease :: i in items
      modifies items`references
      ensures Extra() == Returned(old(Extra()), toRelease) && At() == old(At())
    {
      ghost var extra := Extra();
      var list := toRelease;
      var k := 0;
      assert extra == Returned(extra, list[..0]);
      while k < |list|
        invariant 0 <= k <= |list|
        invariant Extra() == Returned(extra, list[..k]) && At() == old(At())
      {
        ghost var now := Extra();
        var item := list[k];
        Refer(item, -1);
        ReturnedNext(extra, list, k, now, Extra());
        k := k + 1;
      }
      assert list[..k] == list;
    }
  }
}
