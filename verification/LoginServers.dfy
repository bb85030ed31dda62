/**
  The login process's list of servers (`server_list.c`) and the connections that registered them
  (`tcp_server.c`, `tcp_client.c`): both are arrays that lose entries by swap-and-pop, and a connection names
  its listing by position.
 */
module LoginServers {
  import opened Arrays

  /** A listing, and the connection that registered it. */
  datatype Listing<T> = Listing(owner: nat, data: T)

  /** A connection; index -1 stands for no listing. */
  datatype TcpClient = TcpClient(fd: nat, index: int)

  /** Every registered connection names its own listing, and every listing is named by its owner: a bijection. */
  ghost predicate Linked<T>(clients: seq<TcpClient>, listings: seq<Listing<T>>) {
    && (forall i, j :: 0 <= i < j < |clients| ==> clients[i].fd != clients[j].fd)
    && (forall i :: 0 <= i < |clients| ==> NamesOwn(clients[i], listings))
    && (forall k :: 0 <= k < |listings| ==> IsNamed(clients, listings[k].owner, k))
  }

  ghost predicate NamesOwn<T>(c: TcpClient, listings: seq<Listing<T>>) {
    c.index == -1 || (0 <= c.index < |listings| && listings[c.index].owner == c.fd)
  }

  ghost predicate IsNamed(clients: seq<TcpClient>, owner: nat, k: nat) {
    exists i :: 0 <= i < |clients| && clients[i] == TcpClient(owner, k)
  }

  /** Two connections never share a listing. */
  lemma IndicesDiffer<T>(clients: seq<TcpClient>, listings: seq<Listing<T>>, i: nat, j: nat)
    requires Linked(clients, listings) && i < j < |clients| && clients[i].index != -1 && clients[j].index != -1
    ensures clients[i].index != clients[j].index
  {
    assert NamesOwn(clients[i], listings) && NamesOwn(clients[j], listings);
  }

  /** What the connection with a given descriptor has registered. */
  ghost predicate Registered<T>(clients: seq<TcpClient>, listings: seq<Listing<T>>, fd: nat, data: T) {
    exists i :: 0 <= i < |clients| && clients[i].fd == fd && 0 <= clients[i].index < |listings| && listings[clients[i].index].data == data
  }

  // ----- Registering

  lemma RegisterKeeps<T>(clients: seq<TcpClient>, listings: seq<Listing<T>>, i: nat, data: T)
    requires Linked(clients, listings) && i < |clients| && clients[i].index == -1
    ensures Linked(clients[i := TcpClient(clients[i].fd, |listings|)], listings + [Listing(clients[i].fd, data)])
  {
    var fd := clients[i].fd;
    var (clients', listings') := (clients[i := TcpClient(fd, |listings|)], listings + [Listing(fd, data)]);
    forall j | 0 <= j < |clients'| ensures NamesOwn(clients'[j], listings') {
      assert NamesOwn(clients[j], listings);
    }
    forall k | 0 <= k < |listings'| ensures IsNamed(clients', listings'[k].owner, k) {
      if k < |listings| {
        assert IsNamed(clients, listings[k].owner, k);
        var j :| 0 <= j < |clients| && clients[j] == TcpClient(listings[k].owner, k);
        assert clients'[j] == clients[j];
      } else {
        assert clients'[i] == TcpClient(fd, k);
      }
    }
  }

  // ----- Closing

  function Renamed(c: TcpClient, from: int, to: int): TcpClient { if c.index == from then c.(index := to) else c }

  /** The repair loop: the first connection that names `from` is made to name `to`. */
  method Repoint(clients: seq<TcpClient>, from: int, to: int) returns (r: seq<TcpClient>)
    requires forall i, j :: 0 <= i < j < |clients| && clients[i].index == from ==> clients[j].index != from
    ensures |r| == |clients| && forall i :: 0 <= i < |r| ==> r[i] == Renamed(clients[i], from, to)
  {
    r := clients;
    for i := 0 to |clients|
      invariant r == clients && forall k :: 0 <= k < i ==> clients[k].index != from
    {
      if clients[i].index == from {
        return clients[i := clients[i].(index := to)];
      }
    }
  }

  /** The place of an element after swap-and-pop. */
  function Place(i: nat, index: nat, n: nat): nat
    requires i < n && index < n && i != index
  {
    if i == n - 1 then index else i
  }

  /** The connections and listings left when connection `index` and its listing g are gone. */
  ghost predicate Left<T>(clients: seq<TcpClient>, listings: seq<Listing<T>>, index: nat, clients': seq<TcpClient>, listings': seq<Listing<T>>)
    requires index < |clients|
  {
    var g := clients[index].index;
    && 0 <= g < |listings| && listings' == SwapAndPop(listings, g)
    && |clients'| == |clients| - 1
    && forall k :: 0 <= k < |clients'| ==> clients'[k] == Renamed(clients[if k == index then |clients| - 1 else k], |listings| - 1, g)
  }

  /** A connection that stays names the same listing as before, in its new place. */
  lemma StaysLinked<T>(clients: seq<TcpClient>, listings: seq<Listing<T>>, index: nat, clients': seq<TcpClient>, listings': seq<Listing<T>>, i: nat)
    requires Linked(clients, listings) && index < |clients| && Left(clients, listings, index, clients', listings')
    requires i < |clients| && i != index
    ensures var c, c' := clients[i], clients'[Place(i, index, |clients|)];
            && c'.fd == c.fd && NamesOwn(c', listings') && (c'.index == -1 <==> c.index == -1)
            && (c.index != -1 ==> NamesOwn(c, listings) && listings'[c'.index] == listings[c.index])
  {
    assert NamesOwn(clients[i], listings);
    if clients[i].index != -1 {
      IndicesDiffer(clients, listings, if i < index then i else index, if i < index then index else i);
    }
  }

  lemma CloseKeeps<T>(clients: seq<TcpClient>, listings: seq<Listing<T>>, index: nat, clients': seq<TcpClient>, listings': seq<Listing<T>>)
    requires Linked(clients, listings) && index < |clients| && Left(clients, listings, index, clients', listings')
    ensures Linked(clients', listings')
  {
    var n, g := |clients|, clients[index].index;
    forall i, j | 0 <= i < j < |clients'| ensures clients'[i].fd != clients'[j].fd {
      assert clients[if i == index then n - 1 else i].fd != clients[if j == index then n - 1 else j].fd;
    }
    forall k | 0 <= k < |clients'| ensures NamesOwn(clients'[k], listings') {
      StaysLinked(clients, listings, index, clients', listings', if k == index then n - 1 else k);
    }
    forall k | 0 <= k < |listings'| ensures IsNamed(clients', listings'[k].owner, k) {
      var k0 := if k == g then |listings| - 1 else k;
      assert IsNamed(clients, listings[k0].owner, k0);
      var i :| 0 <= i < |clients| && clients[i] == TcpClient(listings[k0].owner, k0);
      assert clients'[Place(i, index, n)] == TcpClient(listings'[k].owner, k);
    }
  }

  /** Exactly the closed connection loses its registration. */
  lemma CloseForgets<T>(clients: seq<TcpClient>, listings: seq<Listing<T>>, index: nat, clients': seq<TcpClient>, listings': seq<Listing<T>>, fd: nat, data: T)
    requires Linked(clients, listings) && index < |clients| && Left(clients, listings, index, clients', listings')
    ensures Registered(clients', listings', fd, data) <==> Registered(clients, listings, fd, data) && fd != clients[index].fd
  {
    var n := |clients|;
    if Registered(clients', listings', fd, data) {
      var k :| 0 <= k < |clients'| && clients'[k].fd == fd && 0 <= clients'[k].index < |listings'| && listings'[clients'[k].index].data == data;
      var i := if k == index then n - 1 else k;
      StaysLinked(clients, listings, index, clients', listings', i);
      assert clients[i].fd == fd && listings[clients[i].index].data == data;
    }
    if Registered(clients, listings, fd, data) && fd != clients[index].fd {
      var i :| 0 <= i < n && clients[i].fd == fd && 0 <= clients[i].index < |listings| && listings[clients[i].index].data == data;
      StaysLinked(clients, listings, index, clients', listings', i);
      assert clients'[Place(i, index, n)].fd == fd;
    }
  }

  /** A connection without a listing leaves the list as it is. */
  lemma CloseUnlisted<T>(clients: seq<TcpClient>, listings: seq<Listing<T>>, index: nat)
    requires Linked(clients, listings) && index < |clients| && clients[index].index == -1
    ensures Linked(SwapAndPop(clients, index), listings)
  {
    var (n, clients') := (|clients|, SwapAndPop(clients, index));
    forall k | 0 <= k < |listings| ensures IsNamed(clients', listings[k].owner, k) {
      assert IsNamed(clients, listings[k].owner, k);
      var i :| 0 <= i < |clients| && clients[i] == TcpClient(listings[k].owner, k);
      assert clients'[Place(i, index, n)] == clients[i];
    }
  }

  lemma UnlistedForgets<T>(clients: seq<TcpClient>, listings: seq<Listing<T>>, index: nat, fd: nat, data: T)
    requires Linked(clients, listings) && index < |clients| && clients[index].index == -1
    ensures Registered(SwapAndPop(clients, index), listings, fd, data) <==> Registered(clients, listings, fd, data) && fd != clients[index].fd
  {
    var (n, clients') := (|clients|, SwapAndPop(clients, index));
    if Registered(clients, listings, fd, data) && fd != clients[index].fd {
      var i :| 0 <= i < n && clients[i].fd == fd && 0 <= clients[i].index < |listings| && listings[clients[i].index].data == data;
      assert clients'[Place(i, index, n)] == clients[i];
    }
    if Registered(clients', listings, fd, data) {
      var k :| 0 <= k < |clients'| && clients'[k].fd == fd && 0 <= clients'[k].index < |listings| && listings[clients'[k].index].data == data;
      assert clients[if k == index then n - 1 else k] == clients'[k];
    }
  }

  class Login<T(!new)> {
    var clients: seq<TcpClient>
    var listings: seq<Listing<T>>

    ghost predicate Valid()
      reads this
    {
      Linked(clients, listings)
    }

    constructor ()
      ensures Valid() && clients == [] && listings == []
    {
      clients, listings := [], [];
    }

    /** tcp_server_accept_new_connections, for one connection */
    method Accept(fd: nat)
      requires Valid() && forall i :: 0 <= i < |clients| ==> clients[i].fd != fd
      modifies this`clients
      ensures Valid() && clients == old(clients) + [TcpClient(fd, -1)]
    {
      var clients' := clients + [TcpClient(fd, -1)];
      forall k | 0 <= k < |listings| ensures IsNamed(clients', listings[k].owner, k) {
        assert IsNamed(clients, listings[k].owner, k);
        var i :| 0 <= i < |clients| && clients[i] == TcpClient(listings[k].owner, k);
        assert clients'[i] == clients[i];
      }
      clients := clients';
    }

    /** tcp_client_handle_op_new_login_server: a second registration is ignored. */
    method Register(i: nat, data: T)
      requires Valid() && i < |clients|
      modifies this
      ensures Valid()
      ensures old(clients)[i].index != -1 ==> clients == old(clients) && listings == old(listings)
      ensures old(clients)[i].index == -1 ==>
                && listings == old(listings) + [Listing(old(clients)[i].fd, data)]
                && clients == old(clients)[i := TcpClient(old(clients)[i].fd, |old(listings)|)]
    {
      if clients[i].index != -1 { return; }
      RegisterKeeps(clients, listings, i, data);
      listings := listings + [Listing(clients[i].fd, data)];
      clients := clients[i := TcpClient(clients[i].fd, |listings| - 1)];
    }

    /** tcp_server_handle_closed_client: the listing of the connection goes, and every other connection keeps its own. */
    method Close(index: nat)
      requires Valid() && index < |clients|
      modifies this
      ensures Valid() && |clients| == |old(clients)| - 1
      ensures |listings| == |old(listings)| - (if old(clients)[index].index == -1 then 0 else 1)
      ensures forall fd, data :: Registered(clients, listings, fd, data) <==>
                Registered(old(clients), old(listings), fd, data) && fd != old(clients)[index].fd
    {
      ghost var clients0, listings0 := clients, listings;
      var gone := clients[index];
      assert NamesOwn(gone, listings);
      if gone.index == -1 {
        CloseUnlisted(clients, listings, index);
        clients := SwapAndPop(clients, index);
        forall fd, data ensures Registered(clients, listings, fd, data) <==> Registered(clients0, listings0, fd, data) && fd != gone.fd {
          UnlistedForgets(clients0, listings0, index, fd, data);
        }
        return;
      }
      OneNames(clients, listings);
      listings := SwapAndPop(listings, gone.index);
      var prevBack := |listings|;
      if prevBack > 0 {
        clients := Repoint(clients, prevBack, gone.index);
      }
      clients := SwapAndPop(clients, index);
      assert Left(clients0, listings0, index, clients, listings);
      CloseKeeps(clients0, listings0, index, clients, listings);
      forall fd, data ensures Registered(clients, listings, fd, data) <==> Registered(clients0, listings0, fd, data) && fd != gone.fd {
        CloseForgets(clients0, listings0, index, clients, listings, fd, data);
      }
    }
  }

  lemma OneNames<T>(clients: seq<TcpClient>, listings: seq<Listing<T>>)
    requires Linked(clients, listings)
    ensures forall i, j :: 0 <= i < j < |clients| && clients[i].index != -1 ==> clients[i].index != clients[j].index
  {
    forall i, j | 0 <= i < j < |clients| && clients[i].index != -1 ensures clients[i].index != clients[j].index {
      if clients[j].index != -1 { IndicesDiffer(clients, listings, i, j); }
    }
  }
}
