/** The auction house and the mail it pays out with (int_auction.c, int_mail.c): bids are held in
    escrow, and everything that leaves an auction leaves it by mail. */
module Auctions {
  import opened Totals

  datatype Option<T> = None | Some(value: T)

  datatype Item = Item(nameid: nat, uniqueId: nat, refine: int, attribute: int, card: seq<nat>)

  // Characters are numbered from 1; buyer 0 means that nobody has bid yet.
  datatype Auction = Auction(seller: int, buyer: int, price: int, buynow: int, item: Item)

  datatype Status = New | Unread | Read

  // Mail from the auction house has sender 0.
  datatype Mail = Mail(sender: int, dest: int, status: Status, zeny: int, item: Option<Item>)

  // auction_db_ and the mail table, with the keys they hand out next.
  datatype State = State(auctions: map<nat, Auction>, nextAuction: nat, mails: map<nat, Mail>, nextMail: nat)

  const MAX_AUCTIONS: int := 5
  const MAIL_MAX_INBOX: nat := 30

  ghost predicate WellFormed(s: State)
  {
    && 0 !in s.auctions && 0 < s.nextAuction && (forall k | k in s.auctions :: k < s.nextAuction)
    && 0 !in s.mails && 0 < s.nextMail && (forall k | k in s.mails :: k < s.nextMail)
  }

  // ---------- Steps ----------

  datatype Step =
    | Register(auction: Auction)
    | Bid(who: int, id: nat, bid: int)
    | Close(who: int, id: nat)
    | Cancel(who: int, id: nat)
    | TimeOut(id: nat)
    | SendMail(mail: Mail)
    | ReadMail(id: nat)
    | Inbox(who: int)
    | GetAttach(who: int, id: nat)
    | DeleteMail(id: nat)
    | ReturnMail(who: int, id: nat)

  // What a step leaves behind: the new state, the answer to the map server, and the zeny and items
  // that the players paid in, got back, or lost with a deleted mail.
  datatype Outcome = Outcome(state: State, answer: int, paid: int, handed: int, lost: int,
                             itemIn: Option<Item>, itemHanded: Option<Item>, itemLost: Option<Item>)

  function Quiet(s: State, answer: int): Outcome { Outcome(s, answer, 0, 0, 0, None, None, None) }

  function Post(s: State, m: Mail): State { s.(mails := s.mails[s.nextMail := m], nextMail := s.nextMail + 1) }

  // mail_sendmail, on behalf of the auction house.
  function FromHouse(dest: int, zeny: int, item: Option<Item>): Mail { Mail(0, dest, New, zeny, item) }

  function Without(s: State, id: nat): State { s.(auctions := s.auctions - {id}) }

  function BoughtBy(c: int): Auction -> int { (a: Auction) => if a.buyer == c then 1 else 0 }

  function SoldBy(c: int): Auction -> int { (a: Auction) => if a.seller == c then 1 else 0 }

  // auction_count.
  function Count(s: State, c: int, buy: bool): int
  {
    Total(s.auctions, s.nextAuction, if buy then BoughtBy(c) else SoldBy(c))
  }

  function DoRegister(s: State, a: Auction): Outcome
  {
    if Count(s, a.seller, false) < MAX_AUCTIONS then
      Quiet(s.(auctions := s.auctions[s.nextAuction := a], nextAuction := s.nextAuction + 1), s.nextAuction)
      .(itemIn := Some(a.item))
    else Quiet(s, 0)
  }

  // The previous bid goes back by mail, also to a buyer who bids again.
  function Refunded(s: State, a: Auction): State
  {
    if a.buyer > 0 then Post(s, FromHouse(a.buyer, a.price, None)) else s
  }

  function DoBid(s: State, who: int, id: nat, bid: int): Outcome
  {
    if id !in s.auctions || s.auctions[id].price >= bid || s.auctions[id].seller == who then
      Quiet(s, 0).(paid := bid, handed := bid)
    else
      var a := s.auctions[id];
      if Count(s, who, true) > 4 && bid < a.buynow && a.buyer != who then
        Quiet(s, 9).(paid := bid, handed := bid)
      else
        var r := Refunded(s, a);
        if bid >= a.buynow then
          var won := Post(r, FromHouse(who, 0, Some(a.item)));
          var sold := Post(won, FromHouse(a.seller, a.buynow, None));
          Quiet(Without(sold, id), 1).(paid := bid, handed := bid - a.buynow)
        else
          Quiet(r.(auctions := r.auctions[id := a.(buyer := who, price := bid)]), 1).(paid := bid)
  }

  function DoClose(s: State, who: int, id: nat): Outcome
  {
    if id !in s.auctions then Quiet(s, 2)
    else
      var a := s.auctions[id];
      if a.seller != who || a.buyer == 0 then Quiet(s, 1)
      else
        var sold := Post(s, FromHouse(a.seller, a.price, None));
        var won := Post(sold, FromHouse(a.buyer, 0, Some(a.item)));
        Quiet(Without(won, id), 0)
  }

  function DoCancel(s: State, who: int, id: nat): Outcome
  {
    if id !in s.auctions then Quiet(s, 1)
    else
      var a := s.auctions[id];
      if a.seller != who then Quiet(s, 2)
      else if a.buyer > 0 then Quiet(s, 3)
      else Quiet(Without(Post(s, FromHouse(a.seller, 0, Some(a.item))), id), 0)
  }

  function DoTimeOut(s: State, id: nat): Outcome
  {
    if id !in s.auctions then Quiet(s, 0)
    else
      var a := s.auctions[id];
      if a.buyer != 0 then
        var won := Post(s, FromHouse(a.buyer, 0, Some(a.item)));
        var sold := Post(won, FromHouse(a.seller, a.price, None));
        Quiet(Without(sold, id), 0)
      else Quiet(Without(Post(s, FromHouse(a.seller, 0, Some(a.item))), id), 0)
  }

  // Mail between players; without an addressee it is not stored, and its contents stay where they are.
  function DoSend(s: State, m: Mail): Outcome
  {
    if m.dest > 0 then Quiet(Post(s, m.(status := New)), s.nextMail).(paid := m.zeny, itemIn := m.item)
    else Quiet(s, 0)
  }

  function DoRead(s: State, id: nat): Outcome
  {
    if id in s.mails then Quiet(s.(mails := s.mails[id := s.mails[id].(status := Read)]), 0) else Quiet(s, 0)
  }

  // How many of the mails below n are addressed to c.
  function Received(mails: map<nat, Mail>, n: nat, c: int): nat
  {
    if n == 0 then 0 else Received(mails, n - 1, c) + if n - 1 in mails && mails[n - 1].dest == c then 1 else 0
  }

  predicate InInbox(mails: map<nat, Mail>, k: nat, c: int)
  {
    k in mails && mails[k].dest == c && Received(mails, k, c) < MAIL_MAX_INBOX
  }

  function Seen(mails: map<nat, Mail>, c: int): map<nat, Mail>
  {
    map k: nat | k in mails ::
      if InInbox(mails, k, c) && mails[k].status == New then mails[k].(status := Unread) else mails[k]
  }

  function DoInbox(s: State, c: int): Outcome { Quiet(s.(mails := Seen(s.mails, c)), 0) }

  function DoGetAttach(s: State, who: int, id: nat): Outcome
  {
    if id !in s.mails then Quiet(s, 0)
    else
      var m := s.mails[id];
      if m.dest != who || m.status != Read || (m.item == None && m.zeny < 1) then Quiet(s, 0)
      else
        Quiet(s.(mails := s.mails[id := m.(zeny := 0, item := None)]), 1)
        .(handed := if m.zeny > 0 then m.zeny else 0, itemHanded := m.item)
  }

  function DoDelete(s: State, id: nat): Outcome
  {
    if id !in s.mails then Quiet(s, 0)
    else Quiet(s.(mails := s.mails - {id}), 0).(lost := s.mails[id].zeny, itemLost := s.mails[id].item)
  }

  function DoReturn(s: State, who: int, id: nat): Outcome
  {
    if id !in s.mails then Quiet(s, 1)
    else
      var m := s.mails[id];
      if m.dest != who then Quiet(s, -1)
      else
        Quiet(Post(s.(mails := s.mails - {id}), m.(sender := m.dest, dest := m.sender, status := New)), 0)
  }

  function Do(s: State, e: Step): Outcome
  {
    match e
    case Register(a) => DoRegister(s, a)
    case Bid(who, id, bid) => DoBid(s, who, id, bid)
    case Close(who, id) => DoClose(s, who, id)
    case Cancel(who, id) => DoCancel(s, who, id)
    case TimeOut(id) => DoTimeOut(s, id)
    case SendMail(m) => DoSend(s, m)
    case ReadMail(id) => DoRead(s, id)
    case Inbox(who) => DoInbox(s, who)
    case GetAttach(who, id) => DoGetAttach(s, who, id)
    case DeleteMail(id) => DoDelete(s, id)
    case ReturnMail(who, id) => DoReturn(s, who, id)
  }

  // What the map server guarantees of its requests: characters have positive numbers, amounts of
  // zeny are not negative, and a new auction has no bid.
  predicate Proper(e: Step)
  {
    match e
    case Register(a) => a.seller > 0 && a.buyer == 0 && a.price >= 0 && a.buynow >= 0
    case Bid(who, _, _) => who > 0
    case SendMail(m) => m.zeny >= 0
    case _ => true
  }

  // ---------- Conservation ----------

  function Escrow(a: Auction): int { if a.buyer > 0 then a.price else 0 }

  function Zeny(m: Mail): int { m.zeny }

  function OnSale(v: Item): Auction -> int { (a: Auction) => if a.item == v then 1 else 0 }

  function Attached(v: Item): Mail -> int { (m: Mail) => if m.item == Some(v) then 1 else 0 }

  function Is(i: Option<Item>, v: Item): int { if i == Some(v) then 1 else 0 }

  // The zeny in escrow and in the mail.
  function Held(s: State): int { Total(s.auctions, s.nextAuction, Escrow) + Total(s.mails, s.nextMail, Zeny) }

  // The copies of an item on sale and in the mail.
  function HeldItems(s: State, v: Item): int
  {
    Total(s.auctions, s.nextAuction, OnSale(v)) + Total(s.mails, s.nextMail, Attached(v))
  }

  ghost predicate Honest(s: State)
  {
    && WellFormed(s)
    && (forall k | k in s.auctions ::
          s.auctions[k].price >= 0 && s.auctions[k].buynow >= 0 && s.auctions[k].buyer >= 0 && s.auctions[k].seller > 0)
    && (forall k | k in s.mails :: s.mails[k].zeny >= 0)
  }

  lemma HonestStep(s: State, e: Step)
    requires Honest(s) && Proper(e)
    ensures Honest(Do(s, e).state)
  {
    hide Count, InInbox;
    if e.Bid? {
      HonestBid(s, e.who, e.id, e.bid);
    } else {
      hide DoBid;
    }
  }

  lemma HonestBid(s: State, who: int, id: nat, bid: int)
    requires Honest(s) && who > 0
    ensures Honest(DoBid(s, who, id, bid).state)
  {
    hide Count;
  }

  lemma Posted(s: State, m: Mail, v: Item)
    requires WellFormed(s)
    ensures WellFormed(Post(s, m)) && Post(s, m).auctions == s.auctions
    ensures Held(Post(s, m)) == Held(s) + m.zeny
    ensures HeldItems(Post(s, m), v) == HeldItems(s, v) + Is(m.item, v)
  {
    TotalAppend(s.mails, s.nextMail, Zeny, m);
    TotalAppend(s.mails, s.nextMail, Attached(v), m);
  }

  lemma Ended(s: State, id: nat, v: Item)
    requires WellFormed(s) && id in s.auctions
    ensures WellFormed(Without(s, id))
    ensures Held(Without(s, id)) == Held(s) - Escrow(s.auctions[id])
    ensures HeldItems(Without(s, id), v) == HeldItems(s, v) - Is(Some(s.auctions[id].item), v)
  {
    TotalDrop(s.auctions, s.nextAuction, Escrow, id);
    TotalDrop(s.auctions, s.nextAuction, OnSale(v), id);
  }

  lemma Rebid(s: State, id: nat, a: Auction, v: Item)
    requires WellFormed(s) && id in s.auctions && a.item == s.auctions[id].item
    ensures var t := s.(auctions := s.auctions[id := a]);
      && WellFormed(t) && Held(t) == Held(s) - Escrow(s.auctions[id]) + Escrow(a)
      && HeldItems(t, v) == HeldItems(s, v)
  {
    TotalPut(s.auctions, s.nextAuction, Escrow, id, a);
    TotalPut(s.auctions, s.nextAuction, OnSale(v), id, a);
  }

  lemma Registered(s: State, a: Auction, v: Item)
    requires WellFormed(s)
    ensures var t := s.(auctions := s.auctions[s.nextAuction := a], nextAuction := s.nextAuction + 1);
      && WellFormed(t) && Held(t) == Held(s) + Escrow(a)
      && HeldItems(t, v) == HeldItems(s, v) + Is(Some(a.item), v)
  {
    TotalAppend(s.auctions, s.nextAuction, Escrow, a);
    TotalAppend(s.auctions, s.nextAuction, OnSale(v), a);
  }

  lemma MailChanged(s: State, id: nat, m: Mail, v: Item)
    requires WellFormed(s) && id in s.mails
    ensures var t := s.(mails := s.mails[id := m]);
      && WellFormed(t) && Held(t) == Held(s) - s.mails[id].zeny + m.zeny
      && HeldItems(t, v) == HeldItems(s, v) - Is(s.mails[id].item, v) + Is(m.item, v)
  {
    TotalPut(s.mails, s.nextMail, Zeny, id, m);
    TotalPut(s.mails, s.nextMail, Attached(v), id, m);
  }

  lemma MailGone(s: State, id: nat, v: Item)
    requires WellFormed(s) && id in s.mails
    ensures var t := s.(mails := s.mails - {id});
      && WellFormed(t) && Held(t) == Held(s) - s.mails[id].zeny
      && HeldItems(t, v) == HeldItems(s, v) - Is(s.mails[id].item, v)
  {
    TotalDrop(s.mails, s.nextMail, Zeny, id);
    TotalDrop(s.mails, s.nextMail, Attached(v), id);
  }

  lemma InboxKeeps(s: State, c: int, v: Item)
    requires WellFormed(s)
    ensures var t := DoInbox(s, c).state; WellFormed(t) && Held(t) == Held(s) && HeldItems(t, v) == HeldItems(s, v)
  {
    hide InInbox;
    var seen := Seen(s.mails, c);
    TotalSame(seen, s.mails, s.nextMail, Zeny);
    TotalSame(seen, s.mails, s.nextMail, Attached(v));
  }

  // Zeny and items are neither made nor lost: what was paid in is held, handed back, or deleted.
  ghost predicate Conserves(s: State, o: Outcome, v: Item)
  {
    && WellFormed(o.state)
    && Held(s) + o.paid == Held(o.state) + o.handed + o.lost
    && HeldItems(s, v) + Is(o.itemIn, v) == HeldItems(o.state, v) + Is(o.itemHanded, v) + Is(o.itemLost, v)
  }

  lemma BidConserves(s: State, who: int, id: nat, bid: int, v: Item)
    requires Honest(s) && who > 0
    ensures Conserves(s, DoBid(s, who, id, bid), v)
  {
    hide Count, Held, HeldItems, WellFormed;
    if DoBid(s, who, id, bid).answer == 1 {
      var a := s.auctions[id];
      var r := Refunded(s, a);
      if a.buyer > 0 { Posted(s, FromHouse(a.buyer, a.price, None), v); }
      if bid >= a.buynow {
        var won := Post(r, FromHouse(who, 0, Some(a.item)));
        var sold := Post(won, FromHouse(a.seller, a.buynow, None));
        Posted(r, FromHouse(who, 0, Some(a.item)), v);
        Posted(won, FromHouse(a.seller, a.buynow, None), v);
        Ended(sold, id, v);
      } else {
        Rebid(r, id, a.(buyer := who, price := bid), v);
      }
    }
  }

  lemma EndConserves(s: State, id: nat, first: Mail, second: Mail, v: Item)
    requires WellFormed(s) && id in s.auctions
    requires first.zeny + second.zeny == Escrow(s.auctions[id])
    requires Is(first.item, v) + Is(second.item, v) == Is(Some(s.auctions[id].item), v)
    ensures Conserves(s, Quiet(Without(Post(Post(s, first), second), id), 0), v)
  {
    hide Held, HeldItems, WellFormed;
    Posted(s, first, v);
    Posted(Post(s, first), second, v);
    Ended(Post(Post(s, first), second), id, v);
  }

  lemma GiveBackConserves(s: State, id: nat, m: Mail, v: Item)
    requires WellFormed(s) && id in s.auctions && s.auctions[id].buyer <= 0
    requires m.zeny == 0 && m.item == Some(s.auctions[id].item)
    ensures Conserves(s, Quiet(Without(Post(s, m), id), 0), v)
  {
    hide Held, HeldItems, WellFormed;
    Posted(s, m, v);
    Ended(Post(s, m), id, v);
  }

  lemma ReturnConserves(s: State, who: int, id: nat, v: Item)
    requires WellFormed(s)
    ensures Conserves(s, DoReturn(s, who, id), v)
  {
    hide Held, HeldItems, WellFormed;
    if id in s.mails && s.mails[id].dest == who {
      var m := s.mails[id];
      MailGone(s, id, v);
      Posted(s.(mails := s.mails - {id}), m.(sender := m.dest, dest := m.sender, status := New), v);
    }
  }

  // Every step conserves zeny and items.
  lemma StepConserves(s: State, e: Step, v: Item)
    requires Honest(s) && Proper(e)
    ensures Conserves(s, Do(s, e), v)
  {
    hide Held, HeldItems, Count, Seen, Received;
    match e
    case Register(a) => Registered(s, a, v);
    case Bid(who, id, bid) => BidConserves(s, who, id, bid, v);
    case Close(who, id) =>
      if DoClose(s, who, id).answer == 0 {
        var a := s.auctions[id];
        EndConserves(s, id, FromHouse(a.seller, a.price, None), FromHouse(a.buyer, 0, Some(a.item)), v);
      }
    case Cancel(who, id) =>
      if DoCancel(s, who, id).answer == 0 {
        GiveBackConserves(s, id, FromHouse(s.auctions[id].seller, 0, Some(s.auctions[id].item)), v);
      }
    case TimeOut(id) =>
      if id in s.auctions {
        var a := s.auctions[id];
        if a.buyer != 0 {
          EndConserves(s, id, FromHouse(a.buyer, 0, Some(a.item)), FromHouse(a.seller, a.price, None), v);
        } else {
          GiveBackConserves(s, id, FromHouse(a.seller, 0, Some(a.item)), v);
        }
      }
    case SendMail(m) => Posted(s, m.(status := New), v);
    case ReadMail(id) => if id in s.mails { MailChanged(s, id, s.mails[id].(status := Read), v); }
    case Inbox(who) => InboxKeeps(s, who, v);
    case GetAttach(who, id) => if id in s.mails { MailChanged(s, id, s.mails[id].(zeny := 0, item := None), v); }
    case DeleteMail(id) => if id in s.mails { MailGone(s, id, v); }
    case ReturnMail(who, id) => ReturnConserves(s, who, id, v);
  }

  // ---------- Runs ----------

  function Run(s: State, es: seq<Step>): State
  {
    if es == [] then s else Do(Run(s, es[..|es| - 1]), es[|es| - 1]).state
  }

  // The sum of a flow over a run.
  function Flow(s: State, es: seq<Step>, f: Outcome -> int): int
  {
    if es == [] then 0
    else Flow(s, es[..|es| - 1], f) + f(Do(Run(s, es[..|es| - 1]), es[|es| - 1]))
  }

  function Paid(o: Outcome): int { o.paid }

  function HandedOrLost(o: Outcome): int { o.handed + o.lost }

  function ItemsIn(v: Item): Outcome -> int { (o: Outcome) => Is(o.itemIn, v) }

  function ItemsOut(v: Item): Outcome -> int { (o: Outcome) => Is(o.itemHanded, v) + Is(o.itemLost, v) }

  ghost predicate AllProper(es: seq<Step>) { forall i | 0 <= i < |es| :: Proper(es[i]) }

  // Over every run, what players paid in equals what is in escrow and in the mail plus what was
  // handed back or deleted; the same holds for every item.
  lemma {:induction false} RunConserves(s: State, es: seq<Step>, v: Item)
    requires Honest(s) && AllProper(es)
    ensures Honest(Run(s, es))
    ensures Held(s) + Flow(s, es, Paid) == Held(Run(s, es)) + Flow(s, es, HandedOrLost)
    ensures HeldItems(s, v) + Flow(s, es, ItemsIn(v)) == HeldItems(Run(s, es), v) + Flow(s, es, ItemsOut(v))
    decreases |es|
  {
    hide Held, HeldItems, Honest, Do, Proper;
    if es != [] {
      var n := |es| - 1;
      RunConserves(s, es[..n], v);
      HonestStep(Run(s, es[..n]), es[n]);
      StepConserves(Run(s, es[..n]), es[n], v);
    }
  }

  const EMPTY: State := State(map[], 1, map[], 1)

  lemma {:induction false} NothingHeld(n: nat, w: Auction -> int, u: Mail -> int)
    ensures Total(EMPTY.auctions, n, w) == 0 && Total(EMPTY.mails, n, u) == 0
    decreases n
  {
    if n > 0 { NothingHeld(n - 1, w, u); }
  }

  lemma EmptyIsHonest()
    ensures Honest(EMPTY) && AtMostFive(EMPTY) && Held(EMPTY) == 0 && forall v: Item :: HeldItems(EMPTY, v) == 0
  {
    NothingHeld(1, Escrow, Zeny);
    forall v: Item ensures HeldItems(EMPTY, v) == 0 { NothingHeld(1, OnSale(v), Attached(v)); }
    forall c: int, buy: bool ensures Count(EMPTY, c, buy) == 0 {
      NothingHeld(1, if buy then BoughtBy(c) else SoldBy(c), Zeny);
    }
  }

  // ---------- Bids ----------

  // An auction that stays open keeps its seller, its item and its buy-now price, and its price and
  // buyer change only by a strictly higher bid of that buyer.
  lemma BidsRise(s: State, e: Step, id: nat)
    requires WellFormed(s) && id in s.auctions && id in Do(s, e).state.auctions
    ensures var a, b := s.auctions[id], Do(s, e).state.auctions[id];
      && b.seller == a.seller && b.item == a.item && b.buynow == a.buynow
      && (b == a || (b.price > a.price && e == Bid(b.buyer, id, b.price) && b.price < b.buynow && b.buyer != b.seller))
  {
    hide Count, Seen;
  }

  // Numbers are not used again, so an auction that is over does not come back.
  lemma StaysClosed(s: State, e: Step, id: nat)
    requires WellFormed(s)
    ensures s.nextAuction <= Do(s, e).state.nextAuction
    ensures id < s.nextAuction && id !in s.auctions ==> id !in Do(s, e).state.auctions
  {
    hide Count, Seen;
  }

  lemma {:induction false} ClosedForever(s: State, es: seq<Step>, id: nat)
    requires Honest(s) && AllProper(es)
    ensures s.nextAuction <= Run(s, es).nextAuction
    ensures id < s.nextAuction && id !in s.auctions ==> id !in Run(s, es).auctions
    decreases |es|
  {
    hide Do;
    if es != [] {
      var n := |es| - 1;
      ClosedForever(s, es[..n], id);
      RunHonest(s, es[..n]);
      StaysClosed(Run(s, es[..n]), es[n], id);
    }
  }

  lemma {:induction false} RunHonest(s: State, es: seq<Step>)
    requires Honest(s) && AllProper(es)
    ensures Honest(Run(s, es))
    decreases |es|
  {
    hide Do, Honest;
    if es != [] {
      RunHonest(s, es[..|es| - 1]);
      HonestStep(Run(s, es[..|es| - 1]), es[|es| - 1]);
    }
  }

  // While an auction is open its price never falls.
  lemma {:induction false} PriceNeverFalls(s: State, es: seq<Step>, id: nat)
    requires Honest(s) && AllProper(es) && id in s.auctions && id in Run(s, es).auctions
    ensures Run(s, es).auctions[id].price >= s.auctions[id].price
    ensures Run(s, es).auctions[id].item == s.auctions[id].item
    ensures Run(s, es).auctions[id].seller == s.auctions[id].seller
    decreases |es|
  {
    hide Do, Honest, Proper;
    if es != [] {
      var n := |es| - 1;
      RunHonest(s, es[..n]);
      NumbersBelow(s, Run(s, es[..n]), id);
      ClosedForever(s, es[..n], id);
      StaysClosed(Run(s, es[..n]), es[n], id);
      PriceNeverFalls(s, es[..n], id);
      BidsRise(Run(s, es[..n]), es[n], id);
    }
  }

  lemma NumbersBelow(s: State, t: State, id: nat)
    requires Honest(s) && Honest(t) && id in s.auctions
    ensures id < s.nextAuction && WellFormed(t)
  {
  }

  // ---------- How an auction ends ----------

  // The mails with the numbers from lo on.
  ghost predicate OnlyItemMail(mails: map<nat, Mail>, lo: nat, hi: nat, k: nat, m: Mail)
  {
    && lo <= k < hi && k in mails && mails[k] == m
    && forall j: nat | lo <= j < hi && j != k :: j in mails && mails[j].item == None
  }

  // Who gets the item of an auction that ends.
  function Winner(e: Step, a: Auction): int { if e.Bid? then e.who else if a.buyer > 0 then a.buyer else a.seller }

  // What the seller is paid.
  function Proceeds(e: Step, a: Auction): int { if e.Bid? then a.buynow else a.price }

  // The item has gone to its winner, once, and a sold item's price to the seller; older mail and
  // other auctions are as before.
  ghost predicate SentOnce(s: State, t: State, id: nat, winner: int, proceeds: int)
    requires id in s.auctions
  {
    var a := s.auctions[id];
    && (forall k | k in s.mails :: k in t.mails && t.mails[k] == s.mails[k])
    && (exists k: nat :: OnlyItemMail(t.mails, s.nextMail, t.nextMail, k, FromHouse(winner, 0, Some(a.item))))
    && (winner != a.seller ==>
          exists k: nat :: s.nextMail <= k < t.nextMail && k in t.mails && t.mails[k] == FromHouse(a.seller, proceeds, None))
    && (forall j | j in s.auctions && j != id :: j in t.auctions && t.auctions[j] == s.auctions[j])
  }

  lemma BidEnds(s: State, who: int, id: nat, bid: int)
    requires Honest(s) && id in s.auctions && id !in DoBid(s, who, id, bid).state.auctions
    ensures SentOnce(s, DoBid(s, who, id, bid).state, id, who, s.auctions[id].buynow)
  {
    hide Count;
    var t, a, n := DoBid(s, who, id, bid).state, s.auctions[id], s.nextMail;
    var k := if a.buyer > 0 then n + 1 else n;
    assert OnlyItemMail(t.mails, n, t.nextMail, k, FromHouse(who, 0, Some(a.item)));
    assert t.mails[k + 1] == FromHouse(a.seller, a.buynow, None);
  }

  lemma CloseEnds(s: State, who: int, id: nat)
    requires Honest(s) && id in s.auctions && id !in DoClose(s, who, id).state.auctions
    ensures s.auctions[id].buyer > 0
    ensures SentOnce(s, DoClose(s, who, id).state, id, s.auctions[id].buyer, s.auctions[id].price)
  {
    var t, a, n := DoClose(s, who, id).state, s.auctions[id], s.nextMail;
    assert OnlyItemMail(t.mails, n, t.nextMail, n + 1, FromHouse(a.buyer, 0, Some(a.item)));
    assert t.mails[n] == FromHouse(a.seller, a.price, None);
  }

  lemma CancelEnds(s: State, who: int, id: nat)
    requires Honest(s) && id in s.auctions && id !in DoCancel(s, who, id).state.auctions
    ensures s.auctions[id].buyer <= 0
    ensures SentOnce(s, DoCancel(s, who, id).state, id, s.auctions[id].seller, s.auctions[id].price)
  {
    var t, a, n := DoCancel(s, who, id).state, s.auctions[id], s.nextMail;
    assert OnlyItemMail(t.mails, n, t.nextMail, n, FromHouse(a.seller, 0, Some(a.item)));
  }

  lemma TimeOutEnds(s: State, id: nat)
    requires Honest(s) && id in s.auctions
    ensures var a := s.auctions[id];
      SentOnce(s, DoTimeOut(s, id).state, id, if a.buyer > 0 then a.buyer else a.seller, a.price)
  {
    var t, a, n := DoTimeOut(s, id).state, s.auctions[id], s.nextMail;
    var winner := if a.buyer > 0 then a.buyer else a.seller;
    assert OnlyItemMail(t.mails, n, t.nextMail, n, FromHouse(winner, 0, Some(a.item)));
    if a.buyer != 0 { assert t.mails[n + 1] == FromHouse(a.seller, a.price, None); }
  }

  // The step that ends an auction sends its item to the winner, once, and a sold item's price to
  // the seller.
  lemma ItemLeavesOnce(s: State, e: Step, id: nat)
    requires Honest(s) && id in s.auctions && id !in Do(s, e).state.auctions
    ensures SentOnce(s, Do(s, e).state, id, Winner(e, s.auctions[id]), Proceeds(e, s.auctions[id]))
  {
    EndedBy(s, e, id);
    hide DoBid, DoClose, DoCancel, DoTimeOut, Honest, SentOnce;
    match e
    case Bid(who, _, bid) => BidEnds(s, who, id, bid);
    case Close(who, _) => CloseEnds(s, who, id);
    case Cancel(who, _) => CancelEnds(s, who, id);
    case TimeOut(_) => TimeOutEnds(s, id);
  }

  // Only a bid, a close, a cancel or a time-out of an auction ends it.
  lemma EndedBy(s: State, e: Step, id: nat)
    requires id in s.auctions && id !in Do(s, e).state.auctions
    ensures (e.Bid? || e.Close? || e.Cancel? || e.TimeOut?) && e.id == id
  {
    hide Count, Seen;
  }

  // A buyer who is outbid, or bids again, gets the old bid back.
  lemma OldBidReturned(s: State, e: Step, id: nat)
    requires Honest(s) && id in s.auctions && s.auctions[id].buyer > 0
    requires e.Bid? && e.id == id && Do(s, e).answer == 1
    ensures var t, a := Do(s, e).state, s.auctions[id];
      s.nextMail in t.mails && t.mails[s.nextMail] == FromHouse(a.buyer, a.price, None)
  {
    hide Count;
  }

  // ---------- At most five ----------

  ghost predicate AtMostFive(s: State)
  {
    && (forall c: int | c > 0 :: Count(s, c, true) <= MAX_AUCTIONS)
    && (forall c: int :: Count(s, c, false) <= MAX_AUCTIONS)
  }

  // Only the auctions matter for the counts.
  lemma CountAfterEnd(s: State, t: State, id: nat, c: int, buy: bool)
    requires id in s.auctions && t.auctions == s.auctions - {id} && t.nextAuction == s.nextAuction
    ensures Count(t, c, buy) <= Count(s, c, buy)
  {
    TotalDrop(s.auctions, s.nextAuction, if buy then BoughtBy(c) else SoldBy(c), id);
  }

  lemma CountAfterBid(s: State, t: State, id: nat, a: Auction, c: int)
    requires WellFormed(s) && id in s.auctions && t.nextAuction == s.nextAuction && t.auctions == s.auctions[id := a]
    requires a.seller == s.auctions[id].seller
    ensures Count(t, c, false) == Count(s, c, false)
    ensures Count(t, c, true)
         == Count(s, c, true) + (if a.buyer == c then 1 else 0) - (if s.auctions[id].buyer == c then 1 else 0)
  {
    TotalPut(s.auctions, s.nextAuction, BoughtBy(c), id, a);
    TotalPut(s.auctions, s.nextAuction, SoldBy(c), id, a);
  }

  lemma CountAfterRegister(s: State, t: State, a: Auction, c: int)
    requires WellFormed(s) && t.nextAuction == s.nextAuction + 1 && t.auctions == s.auctions[s.nextAuction := a]
    ensures Count(t, c, false) == Count(s, c, false) + if a.seller == c then 1 else 0
    ensures Count(t, c, true) == Count(s, c, true) + if a.buyer == c then 1 else 0
  {
    TotalAppend(s.auctions, s.nextAuction, BoughtBy(c), a);
    TotalAppend(s.auctions, s.nextAuction, SoldBy(c), a);
  }

  // How a step changes the auctions.
  lemma AuctionsChange(s: State, e: Step)
    requires WellFormed(s)
    ensures var t := Do(s, e).state;
      || (t.auctions == s.auctions && t.nextAuction == s.nextAuction)
      || (e.Register? && Count(s, e.auction.seller, false) < MAX_AUCTIONS
          && t.auctions == s.auctions[s.nextAuction := e.auction] && t.nextAuction == s.nextAuction + 1)
      || (t.nextAuction == s.nextAuction && exists id :: id in s.auctions && t.auctions == s.auctions - {id})
      || (t.nextAuction == s.nextAuction && e.Bid? && e.id in s.auctions
          && t.auctions == s.auctions[e.id := s.auctions[e.id].(buyer := e.who, price := e.bid)]
          && (Count(s, e.who, true) <= 4 || s.auctions[e.id].buyer == e.who))
  {
    hide Count, Seen;
    match e
    case Bid(_, id, _) =>
      if id in s.auctions && id !in Do(s, e).state.auctions { assert Do(s, e).state.auctions == s.auctions - {id}; }
    case Close(_, id) =>
      if id in s.auctions && id !in Do(s, e).state.auctions { assert Do(s, e).state.auctions == s.auctions - {id}; }
    case Cancel(_, id) =>
      if id in s.auctions && id !in Do(s, e).state.auctions { assert Do(s, e).state.auctions == s.auctions - {id}; }
    case TimeOut(id) =>
      if id in s.auctions && id !in Do(s, e).state.auctions { assert Do(s, e).state.auctions == s.auctions - {id}; }
    case _ =>
  }

  lemma FiveStep(s: State, e: Step)
    requires Honest(s) && Proper(e) && AtMostFive(s)
    ensures AtMostFive(Do(s, e).state)
  {
    AuctionsChange(s, e);
    hide Do, Honest;
    var t := Do(s, e).state;
    forall c: int ensures (c > 0 ==> Count(t, c, true) <= MAX_AUCTIONS) && Count(t, c, false) <= MAX_AUCTIONS {
      assert (c > 0 ==> Count(s, c, true) <= MAX_AUCTIONS) && Count(s, c, false) <= MAX_AUCTIONS;
      FiveFor(s, e, t, c);
    }
  }

  lemma FiveFor(s: State, e: Step, t: State, c: int)
    requires WellFormed(s) && Proper(e) && t == Do(s, e).state
    requires (c > 0 ==> Count(s, c, true) <= MAX_AUCTIONS) && Count(s, c, false) <= MAX_AUCTIONS
    ensures (c > 0 ==> Count(t, c, true) <= MAX_AUCTIONS) && Count(t, c, false) <= MAX_AUCTIONS
  {
    AuctionsChange(s, e);
    hide Do;
    if t.auctions == s.auctions && t.nextAuction == s.nextAuction {
      assert Count(t, c, true) == Count(s, c, true) && Count(t, c, false) == Count(s, c, false);
    } else if t.nextAuction != s.nextAuction {
      CountAfterRegister(s, t, e.auction, c);
    } else if id :| id in s.auctions && t.auctions == s.auctions - {id} {
      CountAfterEnd(s, t, id, c, true);
      CountAfterEnd(s, t, id, c, false);
    } else {
      CountAfterBid(s, t, e.id, s.auctions[e.id].(buyer := e.who, price := e.bid), c);
    }
  }

  // Nobody ever leads or sells more than five auctions.
  lemma {:induction false} NeverMoreThanFive(s: State, es: seq<Step>)
    requires Honest(s) && AllProper(es) && AtMostFive(s)
    ensures AtMostFive(Run(s, es))
    decreases |es|
  {
    hide Do, AtMostFive, Honest, Proper;
    if es != [] {
      NeverMoreThanFive(s, es[..|es| - 1]);
      RunHonest(s, es[..|es| - 1]);
      FiveStep(Run(s, es[..|es| - 1]), es[|es| - 1]);
    }
  }
}
