/** The request handlers of the auction house and the mail (int_auction.c, int_mail.c), on tables
    they change in place. */
module AuctionServer {
  import opened Totals
  import opened Auctions

  datatype Character = Character(account: int, id: int)

  // A mail goes to the character of that name, but not within one account: then the addressee
  // stays what the request says.
  function Addressed(m: Mail, account: int, named: Option<Character>): Mail
  {
    if named.Some? && named.value.account != account then m.(dest := named.value.id) else m
  }

  class Server {
    var auctions: map<nat, Auction>
    var nextAuction: nat
    var mails: map<nat, Mail>
    var nextMail: nat

    ghost function Now(): State reads this { State(auctions, nextAuction, mails, nextMail) }

    constructor ()
      ensures Now() == EMPTY
    {
      auctions, nextAuction := map[], 1;
      mails, nextMail := map[], 1;
    }

    // auction_count.
    method CountAuctions(who: int, buy: bool) returns (i: int)
      requires WellFormed(Now())
      ensures i == Count(Now(), who, buy)
    {
      i := 0;
      var k := 0;
      while k < nextAuction
        invariant 0 <= k <= nextAuction
        invariant i == Total(auctions, k, if buy then BoughtBy(who) else SoldBy(who))
      {
        if k in auctions {
          var auction := auctions[k];
          if (buy && auction.buyer == who) || (!buy && auction.seller == who) {
            i := i + 1;
          }
        }
        k := k + 1;
      }
    }

    // mail_sendmail, for the auction house.
    method SendFromHouse(dest: int, zeny: int, item: Option<Item>)
      modifies `mails, `nextMail
      ensures Now() == Post(old(Now()), FromHouse(dest, zeny, item))
    {
      SaveMessage(Mail(0, dest, New, zeny, item));
    }

    // mail_savemessage.
    method SaveMessage(m: Mail)
      modifies `mails, `nextMail
      ensures Now() == Post(old(Now()), m)
    {
      mails := mails[nextMail := m];
      nextMail := nextMail + 1;
    }

    // auction_create.
    method CreateAuction(a: Auction) returns (id: nat)
      modifies `auctions, `nextAuction
      ensures id == old(nextAuction) && nextAuction == old(nextAuction) + 1
      ensures auctions == old(auctions)[old(nextAuction) := a]
    {
      id := nextAuction;
      auctions := auctions[id := a];
      nextAuction := nextAuction + 1;
    }

    // auction_delete.
    method DeleteAuction(id: nat)
      modifies `auctions
      ensures Now() == Without(old(Now()), id)
    {
      auctions := auctions - {id};
    }

    // mapif_parse_Auction_register; 0 stands for an auction that was not created.
    method ParseRegister(a: Auction) returns (id: nat)
      requires WellFormed(Now())
      modifies this
      ensures Now() == Do(old(Now()), Register(a)).state && id == Do(old(Now()), Register(a)).answer
    {
      hide Count;
      id := 0;
      var n := CountAuctions(a.seller, false);
      if n < 5 {
        id := CreateAuction(a);
      }
    }

    // mapif_parse_Auction_cancel.
    method ParseCancel(who: int, id: nat) returns (result: int)
      modifies this
      ensures Now() == Do(old(Now()), Cancel(who, id)).state && result == Do(old(Now()), Cancel(who, id)).answer
    {
      if id !in auctions {
        return 1;
      }
      var auction := auctions[id];
      if auction.seller != who {
        return 2;
      }
      if auction.buyer > 0 {
        return 3;
      }
      SendFromHouse(auction.seller, 0, Some(auction.item));
      DeleteAuction(id);
      result := 0;
    }

    // mapif_parse_Auction_close.
    method ParseClose(who: int, id: nat) returns (result: int)
      modifies this
      ensures Now() == Do(old(Now()), Close(who, id)).state && result == Do(old(Now()), Close(who, id)).answer
    {
      if id !in auctions {
        return 2;
      }
      var auction := auctions[id];
      if auction.seller != who {
        return 1;
      }
      if auction.buyer == 0 {
        return 1;
      }
      SendFromHouse(auction.seller, auction.price, None);
      SendFromHouse(auction.buyer, 0, Some(auction.item));
      DeleteAuction(id);
      result := 0;
    }

    // mapif_parse_Auction_bid: the result, and the zeny returned with it.
    method ParseBid(who: int, id: nat, bid: int) returns (result: int, back: int)
      requires WellFormed(Now())
      modifies this
      ensures Now() == Do(old(Now()), Bid(who, id, bid)).state
      ensures result == Do(old(Now()), Bid(who, id, bid)).answer && back == Do(old(Now()), Bid(who, id, bid)).handed
    {
      hide Count;
      if id !in auctions || auctions[id].price >= bid || auctions[id].seller == who {
        return 0, bid;
      }
      var auction := auctions[id];
      var n := CountAuctions(who, true);
      if n > 4 && bid < auction.buynow && auction.buyer != who {
        return 9, bid;
      }
      if auction.buyer > 0 {
        SendFromHouse(auction.buyer, auction.price, None);
      }
      auction := auction.(buyer := who, price := bid);
      if bid >= auction.buynow {
        SendFromHouse(auction.buyer, 0, Some(auction.item));
        SendFromHouse(auction.seller, auction.buynow, None);
        DeleteAuction(id);
        return 1, bid - auction.buynow;
      }
      auctions := auctions[id := auction];
      return 1, 0;
    }

    // auction_end_timer.
    method EndTimer(id: nat)
      modifies this
      ensures Now() == Do(old(Now()), TimeOut(id)).state
    {
      if id in auctions {
        var auction := auctions[id];
        if auction.buyer != 0 {
          SendFromHouse(auction.buyer, 0, Some(auction.item));
          SendFromHouse(auction.seller, auction.price, None);
        } else {
          SendFromHouse(auction.seller, 0, Some(auction.item));
        }
        DeleteAuction(id);
      }
    }

    // mapif_parse_Mail_send; 0 stands for a mail that was not stored. named is the character the
    // database has under the addressee's name, if any.
    method ParseSend(account: int, m: Mail, named: Option<Character>) returns (id: nat)
      modifies `mails, `nextMail
      ensures var e := SendMail(Addressed(m, account, named));
        Now() == Do(old(Now()), e).state && id == Do(old(Now()), e).answer
    {
      var msg := m;
      if named.Some? {
        if named.value.account != account {
          msg := msg.(dest := named.value.id);
        }
      }
      id := 0;
      if msg.dest > 0 {
        id := nextMail;
        SaveMessage(msg.(status := New));
      }
    }

    // mapif_parse_Mail_read.
    method ParseRead(id: nat)
      modifies `mails
      ensures Now() == Do(old(Now()), ReadMail(id)).state
    {
      if id in mails {
        mails := mails[id := mails[id].(status := Read)];
      }
    }

    // mail_fromsql: the inbox is listed, and what is new in it becomes unread.
    method FromSql(who: int)
      requires WellFormed(Now())
      modifies `mails
      ensures Now() == Do(old(Now()), Inbox(who)).state
    {
      ghost var was := mails;
      var i, k := 0, 0;
      while k < nextMail
        invariant 0 <= k <= nextMail && i == Min(Received(was, k, who), MAIL_MAX_INBOX)
        invariant mails.Keys == was.Keys
        invariant forall j | j in was :: mails[j] == if j < k then Seen(was, who)[j] else was[j]
      {
        if k in mails && mails[k].dest == who && i < MAIL_MAX_INBOX {
          if mails[k].status == New {
            mails := mails[k := mails[k].(status := Unread)];
          }
          i := i + 1;
        }
        k := k + 1;
      }
      assert mails == Seen(was, who);
    }

    // mapif_Mail_getattach: whether an answer is sent, and the attachments in it.
    method GetAttachments(who: int, id: nat) returns (ok: bool, zeny: int, item: Option<Item>)
      modifies `mails
      ensures Now() == Do(old(Now()), GetAttach(who, id)).state
      ensures ok <==> Do(old(Now()), GetAttach(who, id)).answer == 1
      ensures zeny == Do(old(Now()), GetAttach(who, id)).handed
      ensures item == Do(old(Now()), GetAttach(who, id)).itemHanded
    {
      ok, zeny, item := false, 0, None;
      if id !in mails {
        return;
      }
      var msg := mails[id];
      if msg.dest != who {
        return;
      }
      if msg.status != Read {
        return;
      }
      if msg.item == None && msg.zeny < 1 {
        return;
      }
      mails := mails[id := msg.(zeny := 0, item := None)];
      ok, zeny, item := true, if msg.zeny > 0 then msg.zeny else 0, msg.item;
    }

    // mapif_Mail_delete.
    method Delete(id: nat)
      modifies `mails
      ensures Now() == Do(old(Now()), DeleteMail(id)).state
    {
      mails := mails - {id};
    }

    // mapif_Mail_return.
    method Return(who: int, id: nat)
      modifies `mails, `nextMail
      ensures Now() == Do(old(Now()), ReturnMail(who, id)).state
    {
      if id in mails {
        var msg := mails[id];
        if msg.dest != who {
          return;
        }
        mails := mails - {id};
        SaveMessage(msg.(sender := msg.dest, dest := msg.sender, status := New));
      }
    }
  }

  function Min(a: nat, b: nat): nat { if a < b then a else b }
}
