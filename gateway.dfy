/**
 * The `/prices` streaming gateway: authenticated client connections, their symbol
 * subscriptions, one price timer per subscribed pair, and the administrator's forced
 * disconnect. What the gateway sends to sockets is recorded in `outbox`, in the order sent.
 * Credential verification and the user lookup are caller-supplied functions; the catalogue of
 * public symbols is the symbol service.
 */
module PricesGateway {
  import opened Wrappers
  import opened TokenExtraction
  import opened Symbols
  import opened Subscriptions

  /** The two user roles, `client` and `admin`. */
  datatype Role = ClientRole | AdminRole

  /** The user record the lookup returns. */
  datatype User = User(id: string, email: string, role: Role)

  /** What the gateway sends to a socket. */
  datatype Event =
    | Emitted(socket: string, event: string, message: string)
    | PriceUpdate(socket: string, symbol: string, price: real)
    | Disconnected(socket: string)

  /** The acknowledgement of a subscribe or unsubscribe message. */
  datatype Reply = ErrorReply(error: string) | SymbolsReply(message: string, subscribedSymbols: seq<string>)

  const NoTokenMessage: string := "Authentication failed: No token provided"
  const AuthFailedMessage: string := "Authentication failed"
  const ConnectedMessage: string := "Connected successfully"
  const NotAuthenticatedMessage: string := "Not authenticated"
  const InvalidSymbolsMessage: string := "Invalid symbols array"
  const SubscribedMessage: string := "Subscribed successfully"
  const UnsubscribedMessage: string := "Unsubscribed successfully"

  /**
   * The outcome of a connection attempt: the user it authenticates as, or the message sent
   * back. `verify` gives the subject of a valid credential and `findUser` the user stored
   * under an id; a failure of either, or a user who is not a client, is an authentication
   * failure.
   */
  function Authenticate(h: Handshake, verify: string -> Option<string>, findUser: string -> Option<User>): (r: Result<User, string>)
    ensures r.Failure? ==> r.error == NoTokenMessage || r.error == AuthFailedMessage
    ensures r.Failure? && r.error == NoTokenMessage <==> ExtractToken(h).None?
    ensures r.Success? <==>
      && ExtractToken(h).Some?
      && verify(ExtractToken(h).value).Some?
      && findUser(verify(ExtractToken(h).value).value).Some?
      && findUser(verify(ExtractToken(h).value).value).value.role == ClientRole
    ensures r.Success? ==> r.value == findUser(verify(ExtractToken(h).value).value).value
  {
    match ExtractToken(h)
    case None => Failure(NoTokenMessage)
    case Some(token) =>
      match verify(token)
      case None => Failure(AuthFailedMessage)
      case Some(subject) =>
        match findUser(subject)
        case None => Failure(AuthFailedMessage)
        case Some(user) => if user.role == ClientRole then Success(user) else Failure(AuthFailedMessage)
  }

  /**
   * The price a tick sends: the stored price moved by `(random - 0.5) * 0.1`, for a `random`
   * drawn from [0, 1). It stays within five percent of a non-negative stored price.
   */
  function VariedPrice(base: real, random: real): (p: real)
    requires 0.0 <= random < 1.0
    ensures base >= 0.0 ==> 0.95 * base <= p <= 1.05 * base
  {
    var variation := (random - 0.5) * 0.1;
    assert -0.05 <= variation < 0.05;
    assert base >= 0.0 ==> base * variation <= 0.05 * base && -0.05 * base <= base * variation;
    base * (1.0 + variation)
  }

  /** The sockets disconnected for each id of `ids`, in that order. */
  function DisconnectEvents(ids: seq<string>): (r: seq<Event>)
    ensures |r| == |ids|
    ensures forall i :: 0 <= i < |ids| ==> r[i] == Disconnected(ids[i])
  {
    if ids == [] then [] else [Disconnected(ids[0])] + DisconnectEvents(ids[1..])
  }

  /** The interval keys of the connections among `ids` that belong to user `userId`. */
  function UserKeys(clients: map<string, Connection>, userId: string, ids: set<string>): set<string> {
    set c, n | c in ids && c in clients && clients[c].userId == userId && n in clients[c].subscribed :: Key(c, n)
  }

  /** The connections of `clients`, except those among `ids` that belong to user `userId`. */
  function Remaining(clients: map<string, Connection>, userId: string, ids: set<string>): map<string, Connection> {
    map c | c in clients && (c !in ids || clients[c].userId != userId) :: clients[c]
  }

  /** One more disconnected socket at the end of the sequence. */
  lemma DisconnectEventsSnoc(ids: seq<string>, c: string)
    ensures DisconnectEvents(ids + [c]) == DisconnectEvents(ids) + [Disconnected(c)]
  {
    var l, r := DisconnectEvents(ids + [c]), DisconnectEvents(ids) + [Disconnected(c)];
    assert |l| == |r|;
    forall i | 0 <= i < |l| ensures l[i] == r[i] {
      assert (ids + [c])[i] == if i < |ids| then ids[i] else c;
    }
  }

  /** Visiting one more connection adds its keys when it belongs to the user. */
  lemma UserKeysStep(clients: map<string, Connection>, userId: string, done: set<string>, c: string)
    requires c in clients
    ensures UserKeys(clients, userId, done + {c}) ==
      if clients[c].userId == userId then UserKeys(clients, userId, done) + KeysFor(c, clients[c].subscribed)
      else UserKeys(clients, userId, done)
  {
  }

  /** Visiting one more connection removes it when it belongs to the user. */
  lemma RemainingStep(clients: map<string, Connection>, userId: string, done: set<string>, c: string)
    requires c in clients
    ensures Remaining(clients, userId, done + {c}) ==
      if clients[c].userId == userId then Remaining(clients, userId, done) - {c} else Remaining(clients, userId, done)
  {
  }

  class Gateway {
    /** The registered connections by socket id. */
    var clients: map<string, Connection>
    /** The running price timers by interval key. */
    var intervals: map<string, Timer>
    /** What was sent to sockets so far. */
    var outbox: seq<Event>

    /** Every timer belongs to a live subscription. */
    ghost predicate Valid()
      reads this
    {
      Consistent(clients, intervals)
    }

    /** Timers and subscriptions match one to one. */
    ghost predicate InSync()
      reads this
    {
      Synced(clients, intervals)
    }

    constructor ()
      ensures clients == map[] && intervals == map[] && outbox == []
      ensures Valid() && InSync()
    {
      clients, intervals, outbox := map[], map[], [];
    }

    /**
     * `handleConnection`: a client that authenticates is registered with no subscriptions and
     * told so; otherwise it is sent the failure message and disconnected.
     */
    method HandleConnection(socket: string, h: Handshake, verify: string -> Option<string>, findUser: string -> Option<User>)
      modifies this
      ensures intervals == old(intervals)
      ensures Authenticate(h, verify, findUser).Failure? ==>
        && clients == old(clients)
        && outbox == old(outbox) + [Emitted(socket, "error", Authenticate(h, verify, findUser).error), Disconnected(socket)]
      ensures Authenticate(h, verify, findUser).Success? ==>
        && clients == old(clients)[socket := Connection(Authenticate(h, verify, findUser).value.id, [])]
        && outbox == old(outbox) + [Emitted(socket, "connected", ConnectedMessage)]
      ensures old(Valid()) && socket !in old(clients) ==> Valid()
      ensures old(InSync()) && socket !in old(clients) && |socket| == SocketIdLength ==> InSync()
    {
      match Authenticate(h, verify, findUser)
      case Failure(message) =>
        outbox := outbox + [Emitted(socket, "error", message), Disconnected(socket)];
      case Success(user) =>
        if old(Valid()) && socket !in clients {
          ConnectPreserves(clients, intervals, socket, user.id);
        }
        clients := clients[socket := Connection(user.id, [])];
        outbox := outbox + [Emitted(socket, "connected", ConnectedMessage)];
    }

    /** `startPriceUpdates`: a timer for the pair starts unless one runs under its key already. */
    method StartPriceUpdates(clientId: string, symbol: string)
      modifies this
      ensures intervals == Started(old(intervals), clientId, symbol)
      ensures clients == old(clients) && outbox == old(outbox)
    {
      var key := Key(clientId, symbol);
      if key in intervals {
        return;
      }
      intervals := intervals[key := Timer(clientId, symbol)];
    }

    /** `stopPriceUpdates`: the timer under the pair's key, if any, is cleared and forgotten. */
    method StopPriceUpdates(clientId: string, symbol: string)
      modifies this
      ensures intervals == old(intervals) - {Key(clientId, symbol)}
      ensures clients == old(clients) && outbox == old(outbox)
    {
      var key := Key(clientId, symbol);
      if key in intervals {
        intervals := intervals - {key};
      } else {
        assert intervals - {key} == intervals;
      }
    }

    /** The timers of client `clientId` for each name of `names` are stopped in turn. */
    method StopAll(clientId: string, names: seq<string>)
      modifies this
      ensures intervals == old(intervals) - KeysFor(clientId, names)
      ensures clients == old(clients) && outbox == old(outbox)
    {
      for i := 0 to |names|
        invariant intervals == old(intervals) - KeysFor(clientId, names[..i])
        invariant clients == old(clients) && outbox == old(outbox)
      {
        assert names[..i + 1] == names[..i] + [names[i]];
        KeysForSnoc(clientId, names[..i], names[i]);
        StopPriceUpdates(clientId, names[i]);
      }
      assert names[..|names|] == names;
    }

    /** `handleDisconnect`: a registered client's timers are stopped and the client is forgotten. */
    method HandleDisconnect(socket: string)
      modifies this
      ensures socket !in old(clients) ==> clients == old(clients) && intervals == old(intervals)
      ensures socket in old(clients) ==>
        && clients == old(clients) - {socket}
        && intervals == old(intervals) - KeysFor(socket, old(clients)[socket].subscribed)
      ensures outbox == old(outbox)
      ensures old(Valid()) ==> Valid()
      ensures old(InSync()) ==> InSync()
    {
      if socket in clients {
        if old(Valid()) {
          DropPreserves(clients, intervals, socket);
        }
        StopAll(socket, clients[socket].subscribed);
        clients := clients - {socket};
      }
    }

    /**
     * `handleSubscribe`: for a registered client and a list of names, each name that is a
     * public symbol is added to the client's subscriptions and its timer started; the reply
     * lists the subscriptions in the order they were added.
     */
    method HandleSubscribe(socket: string, symbols: Option<seq<string>>, catalogue: SymbolsService) returns (reply: Reply)
      modifies this
      ensures outbox == old(outbox)
      ensures socket !in old(clients) ==>
        reply == ErrorReply(NotAuthenticatedMessage) && clients == old(clients) && intervals == old(intervals)
      ensures socket in old(clients) && symbols.None? ==>
        reply == ErrorReply(InvalidSymbolsMessage) && clients == old(clients) && intervals == old(intervals)
      ensures socket in old(clients) && symbols.Some? ==>
        var conn := old(clients)[socket];
        var available := Names(old(catalogue.FindPublic()));
        var subs := AfterSubscribe(conn.subscribed, symbols.value, available);
        && clients == old(clients)[socket := conn.(subscribed := subs)]
        && intervals == StartedAll(old(intervals), socket, symbols.value, available)
        && reply == SymbolsReply(SubscribedMessage, subs)
      ensures old(Valid()) ==> Valid()
      ensures old(InSync()) ==> InSync()
    {
      if socket !in clients {
        return ErrorReply(NotAuthenticatedMessage);
      }
      if symbols.None? {
        return ErrorReply(InvalidSymbolsMessage);
      }
      var available := Names(catalogue.FindPublic());
      if old(Valid()) {
        SubscribePreserves(clients, intervals, socket, symbols.value, available);
      }
      SubscribeEach(socket, symbols.value, available);
      reply := SymbolsReply(SubscribedMessage, clients[socket].subscribed);
    }

    /** The loop of `handleSubscribe`: each available name is added and its timer started. */
    method SubscribeEach(socket: string, names: seq<string>, available: seq<string>)
      requires socket in clients
      modifies this
      ensures var conn := old(clients)[socket];
        clients == old(clients)[socket := conn.(subscribed := AfterSubscribe(conn.subscribed, names, available))]
      ensures intervals == StartedAll(old(intervals), socket, names, available)
      ensures outbox == old(outbox)
    {
      ghost var conn := clients[socket];
      for i := 0 to |names|
        invariant clients == old(clients)[socket := conn.(subscribed := AfterSubscribe(conn.subscribed, names[..i], available))]
        invariant intervals == StartedAll(old(intervals), socket, names[..i], available)
        invariant outbox == old(outbox)
      {
        var n := names[i];
        assert names[..i + 1] == names[..i] + [n];
        AfterSubscribeSnoc(conn.subscribed, names[..i], n, available);
        StartedAllSnoc(old(intervals), socket, names[..i], n, available);
        if n in available {
          SubscribeOne(socket, n);
        }
      }
      assert names[..|names|] == names;
    }

    /** One turn of the loop of `handleSubscribe` for a public name: it is added and its timer started. */
    method SubscribeOne(socket: string, n: string)
      requires socket in clients
      modifies this
      ensures clients == old(clients)[socket := old(clients)[socket].(subscribed := Added(old(clients)[socket].subscribed, n))]
      ensures intervals == Started(old(intervals), socket, n)
      ensures outbox == old(outbox)
    {
      var current := clients[socket];
      clients := clients[socket := current.(subscribed := Added(current.subscribed, n))];
      StartPriceUpdates(socket, n);
    }

    /**
     * `handleUnsubscribe`: for a registered client and a list of names, each name is removed
     * from the client's subscriptions and its timer stopped; the reply lists what is left.
     */
    method HandleUnsubscribe(socket: string, symbols: Option<seq<string>>) returns (reply: Reply)
      modifies this
      ensures outbox == old(outbox)
      ensures socket !in old(clients) ==>
        reply == ErrorReply(NotAuthenticatedMessage) && clients == old(clients) && intervals == old(intervals)
      ensures socket in old(clients) && symbols.None? ==>
        reply == ErrorReply(InvalidSymbolsMessage) && clients == old(clients) && intervals == old(intervals)
      ensures socket in old(clients) && symbols.Some? ==>
        var conn := old(clients)[socket];
        var subs := AfterUnsubscribe(conn.subscribed, symbols.value);
        && clients == old(clients)[socket := conn.(subscribed := subs)]
        && intervals == old(intervals) - KeysFor(socket, symbols.value)
        && reply == SymbolsReply(UnsubscribedMessage, subs)
      ensures old(Valid()) ==> Valid()
      ensures old(InSync()) ==> InSync()
    {
      if socket !in clients {
        return ErrorReply(NotAuthenticatedMessage);
      }
      if symbols.None? {
        return ErrorReply(InvalidSymbolsMessage);
      }
      if old(Valid()) {
        UnsubscribePreserves(clients, intervals, socket, symbols.value);
      }
      UnsubscribeEach(socket, symbols.value);
      reply := SymbolsReply(UnsubscribedMessage, clients[socket].subscribed);
    }

    /** The loop of `handleUnsubscribe`: each name is deleted and its timer stopped. */
    method UnsubscribeEach(socket: string, names: seq<string>)
      requires socket in clients
      modifies this
      ensures var conn := old(clients)[socket];
        clients == old(clients)[socket := conn.(subscribed := AfterUnsubscribe(conn.subscribed, names))]
      ensures intervals == old(intervals) - KeysFor(socket, names)
      ensures outbox == old(outbox)
    {
      ghost var conn := clients[socket];
      for i := 0 to |names|
        invariant clients == old(clients)[socket := conn.(subscribed := AfterUnsubscribe(conn.subscribed, names[..i]))]
        invariant intervals == old(intervals) - KeysFor(socket, names[..i])
        invariant outbox == old(outbox)
      {
        var n := names[i];
        assert names[..i + 1] == names[..i] + [n];
        AfterUnsubscribeSnoc(conn.subscribed, names[..i], n);
        KeysForSnoc(socket, names[..i], n);
        UnsubscribeOne(socket, n);
      }
      assert names[..|names|] == names;
    }

    /** One turn of the loop of `handleUnsubscribe`: the name is deleted and its timer stopped. */
    method UnsubscribeOne(socket: string, n: string)
      requires socket in clients
      modifies this
      ensures clients == old(clients)[socket := old(clients)[socket].(subscribed := Deleted(old(clients)[socket].subscribed, n))]
      ensures intervals == old(intervals) - {Key(socket, n)}
      ensures outbox == old(outbox)
    {
      var current := clients[socket];
      clients := clients[socket := current.(subscribed := Deleted(current.subscribed, n))];
      StopPriceUpdates(socket, n);
    }

    /**
     * One firing of the timer under `key`. A timer whose client is gone or no longer subscribed
     * stops itself; otherwise, when the symbol is still public, the client is sent its price
     * moved by the random draw `random`. In a valid state no timer stops itself.
     */
    method Tick(key: string, catalogue: SymbolsService, random: real)
      requires key in intervals && 0.0 <= random < 1.0
      modifies this
      ensures clients == old(clients)
      ensures var t := old(intervals)[key];
        !(t.clientId in old(clients) && t.symbol in old(clients)[t.clientId].subscribed) ==>
          intervals == old(intervals) - {Key(t.clientId, t.symbol)} && outbox == old(outbox)
      ensures var t := old(intervals)[key];
        t.clientId in old(clients) && t.symbol in old(clients)[t.clientId].subscribed ==>
          && intervals == old(intervals)
          && outbox == old(outbox) +
            match FindByName(old(catalogue.FindPublic()), t.symbol, 0)
            case None => []
            case Some(s) => [PriceUpdate(t.clientId, t.symbol, VariedPrice(s.price, random))]
      ensures old(Valid()) ==> intervals == old(intervals)
      ensures old(Valid()) ==> Valid()
      ensures old(InSync()) ==> InSync()
    {
      var t := intervals[key];
      assert Valid() ==> Owns(clients, key, t);
      assert InSync() ==> Valid();
      if t.clientId !in clients || t.symbol !in clients[t.clientId].subscribed {
        StopPriceUpdates(t.clientId, t.symbol);
        return;
      }
      SendPrice(t, catalogue.FindPublic(), random);
    }

    /**
     * The emission of one firing of a live timer: the price of the first symbol in `public`
     * named `t.symbol`, varied by `random`, or nothing when no public symbol has that name.
     */
    method SendPrice(t: Timer, public: seq<SymbolRecord>, random: real)
      requires 0.0 <= random < 1.0
      modifies this
      ensures clients == old(clients) && intervals == old(intervals)
      ensures outbox == old(outbox) +
        match FindByName(public, t.symbol, 0)
        case None => []
        case Some(s) => [PriceUpdate(t.clientId, t.symbol, VariedPrice(s.price, random))]
    {
      var found := FindByName(public, t.symbol, 0);
      if found.Some? {
        outbox := outbox + [PriceUpdate(t.clientId, t.symbol, VariedPrice(found.value.price, random))];
      }
    }

    /**
     * One step of the loop of `disconnectClient`: connection `c` of the connections `start`
     * the loop began with is visited, and disconnected when it belongs to user `userId`.
     */
    method VisitConnection(
      c: string, userId: string, ghost start: map<string, Connection>, ghost timers: map<string, Timer>,
      ghost sent: seq<Event>, ghost done: set<string>, ghost visited: seq<string>)
      returns (matched: bool)
      requires c in start && c !in done
      requires clients == Remaining(start, userId, done)
      requires intervals == timers - UserKeys(start, userId, done)
      requires outbox == sent + DisconnectEvents(visited)
      modifies this
      ensures matched == (start[c].userId == userId)
      ensures clients == Remaining(start, userId, done + {c})
      ensures intervals == timers - UserKeys(start, userId, done + {c})
      ensures outbox == sent + DisconnectEvents(if matched then visited + [c] else visited)
      ensures old(Valid()) ==> Valid()
      ensures old(InSync()) ==> InSync()
    {
      assert c in clients && clients[c] == start[c];
      UserKeysStep(start, userId, done, c);
      RemainingStep(start, userId, done, c);
      DisconnectEventsSnoc(visited, c);
      matched := clients[c].userId == userId;
      if matched {
        if old(Valid()) {
          DropPreserves(clients, intervals, c);
        }
        StopAll(c, clients[c].subscribed);
        outbox := outbox + [Disconnected(c)];
        clients := clients - {c};
      }
    }

    /**
     * Where the loop of `disconnectClient` stands: of the connections `start` it began with,
     * those in `done` are visited and those in `todo` are not; the user's connections among
     * `done` were disconnected in the order `visited`, off the timers `timers` and after the
     * events `sent`.
     */
    ghost predicate DisconnectProgress(
      userId: string, start: map<string, Connection>, timers: map<string, Timer>, sent: seq<Event>,
      todo: set<string>, done: set<string>, visited: seq<string>, disconnected: bool)
      reads this
    {
      && todo + done == start.Keys && todo !! done
      && clients == Remaining(start, userId, done)
      && intervals == timers - UserKeys(start, userId, done)
      && (forall c :: c in visited <==> c in done && start[c].userId == userId)
      && NoDuplicates(visited)
      && outbox == sent + DisconnectEvents(visited)
      && (disconnected <==> visited != [])
    }

    /** One turn of the loop of `disconnectClient`: some connection not yet visited is visited. */
    method DisconnectNext(
      userId: string, ghost start: map<string, Connection>, ghost timers: map<string, Timer>, ghost sent: seq<Event>,
      todo: set<string>, ghost done: set<string>, ghost visited: seq<string>, disconnected: bool)
      returns (todo': set<string>, ghost done': set<string>, ghost visited': seq<string>, disconnected': bool)
      requires todo != {} && DisconnectProgress(userId, start, timers, sent, todo, done, visited, disconnected)
      modifies this
      ensures DisconnectProgress(userId, start, timers, sent, todo', done', visited', disconnected')
      ensures |todo'| < |todo|
      ensures old(Valid()) ==> Valid()
      ensures old(InSync()) ==> InSync()
    {
      var c :| c in todo;
      var matched := VisitConnection(c, userId, start, timers, sent, done, visited);
      NoDuplicatesSnoc(visited, c);
      todo', done' := todo - {c}, done + {c};
      visited', disconnected' := visited, disconnected;
      if matched {
        disconnected' := true;
        visited' := visited + [c];
      }
    }

    /**
     * `disconnectClient`: every connection of user `userId` has its timers stopped, is
     * disconnected and is forgotten; the result says whether there was any. `visited` is the
     * order in which the connections were disconnected.
     */
    method DisconnectClient(userId: string) returns (disconnected: bool, ghost visited: seq<string>)
      modifies this
      ensures disconnected <==> exists c :: c in old(clients) && old(clients)[c].userId == userId
      ensures clients == Remaining(old(clients), userId, old(clients).Keys)
      ensures intervals == old(intervals) - UserKeys(old(clients), userId, old(clients).Keys)
      ensures forall c :: c in visited <==> c in old(clients) && old(clients)[c].userId == userId
      ensures NoDuplicates(visited)
      ensures outbox == old(outbox) + DisconnectEvents(visited)
      ensures forall c :: c in clients ==> clients[c].userId != userId
      ensures old(Valid()) ==> Valid()
      ensures old(InSync()) ==> InSync()
    {
      disconnected, visited := false, [];
      var todo := clients.Keys;
      ghost var done: set<string> := {};
      while todo != {}
        invariant DisconnectProgress(userId, old(clients), old(intervals), old(outbox), todo, done, visited, disconnected)
        invariant old(Valid()) ==> Valid()
        invariant old(InSync()) ==> InSync()
        decreases |todo|
      {
        todo, done, visited, disconnected :=
          DisconnectNext(userId, old(clients), old(intervals), old(outbox), todo, done, visited, disconnected);
      }
      if disconnected {
        assert visited[0] in visited;
      }
    }
  }
}
