/**
 * The state of the price gateway as values: the registered connections by socket id, the
 * running price timers by interval key, what the subscribe and unsubscribe loops leave behind,
 * and the invariants that tie timers to subscriptions.
 */
module Subscriptions {
  /**
   * A registered connection: the user it authenticated as and its subscribed symbol names,
   * in the order they were first added (a JavaScript `Set`, so without duplicates).
   */
  datatype Connection = Connection(userId: string, subscribed: seq<string>)

  /** A running price timer: the client id and the symbol name its callback captured. */
  datatype Timer = Timer(clientId: string, symbol: string)

  /** The length of every socket id the server hands out. */
  const SocketIdLength: nat := 20

  /** The interval key `${clientId}-${symbolName}`. */
  function Key(clientId: string, symbol: string): string {
    clientId + "-" + symbol
  }

  /** Among client ids of one length, the interval key determines the client and the symbol. */
  lemma KeyInjective(c1: string, s1: string, c2: string, s2: string)
    requires |c1| == |c2| && Key(c1, s1) == Key(c2, s2)
    ensures c1 == c2 && s1 == s2
  {
    var k := Key(c1, s1);
    assert k[..|c1|] == c1 && Key(c2, s2)[..|c2|] == c2;
    assert k[|c1| + 1..] == s1 && Key(c2, s2)[|c2| + 1..] == s2;
  }

  /** Two different pairs with client ids of one length have different keys. */
  lemma KeyDistinct(c1: string, s1: string, c2: string, s2: string)
    requires |c1| == |c2| && (c1 != c2 || s1 != s2)
    ensures Key(c1, s1) != Key(c2, s2)
  {
    if Key(c1, s1) == Key(c2, s2) {
      KeyInjective(c1, s1, c2, s2);
    }
  }

  /** Without the common length the key is ambiguous: two different pairs can share one key. */
  lemma KeysCanCollide()
    ensures Key("a", "b-c") == Key("a-b", "c") && Timer("a", "b-c") != Timer("a-b", "c")
  {
  }

  predicate NoDuplicates(s: seq<string>) {
    forall i, j :: 0 <= i < j < |s| ==> s[i] != s[j]
  }

  /** A name not yet listed can be appended without making a duplicate. */
  lemma NoDuplicatesSnoc(s: seq<string>, x: string)
    requires NoDuplicates(s) && x !in s
    ensures NoDuplicates(s + [x])
    ensures forall y :: y in s + [x] <==> y in s || y == x
  {
  }

  /** `set.add(x)`: `x` joins at the end unless it is already there. */
  function Added(s: seq<string>, x: string): (r: seq<string>)
    ensures forall y {:trigger y in r} :: y in r <==> y in s || y == x
    ensures NoDuplicates(s) ==> NoDuplicates(r)
    ensures |s| <= |r| && r[..|s|] == s
  {
    if x in s then s else s + [x]
  }

  /** `set.delete(x)`: `x` leaves and the others keep their order. */
  function Deleted(s: seq<string>, x: string): (r: seq<string>)
    ensures forall y {:trigger y in r} :: y in r <==> y in s && y != x
    ensures NoDuplicates(s) ==> NoDuplicates(r)
  {
    if s == [] then []
    else if s[0] == x then Deleted(s[1..], x)
    else
      var tail := Deleted(s[1..], x);
      assert NoDuplicates(s) ==> NoDuplicates(s[1..]) && s[0] !in s[1..] by {
        if NoDuplicates(s) {
          forall i, j | 0 <= i < j < |s[1..]| ensures s[1..][i] != s[1..][j] {
            assert s[1..][i] == s[i + 1] && s[1..][j] == s[j + 1];
          }
        }
      }
      var r := [s[0]] + tail;
      assert forall y :: y in r <==> y == s[0] || y in tail;
      assert NoDuplicates(s) ==> NoDuplicates(r) by {
        if NoDuplicates(s) {
          assert s[0] !in tail;
          forall i, j | 0 <= i < j < |r| ensures r[i] != r[j] {
            assert r[j] == tail[j - 1] && r[j] in tail;
            if i > 0 {
              assert r[i] == tail[i - 1];
            }
          }
        }
      }
      r
  }

  /** Adding a new name and deleting it again gives back the subscriptions as they were. */
  lemma AddedThenDeleted(s: seq<string>, x: string)
    requires x !in s
    ensures Deleted(Added(s, x), x) == s
  {
    DeletedLastAbsent(s, x);
  }

  lemma {:induction false} DeletedLastAbsent(s: seq<string>, x: string)
    requires x !in s
    ensures Deleted(s + [x], x) == s
  {
    if s == [] {
      assert Deleted([x][1..], x) == [];
    } else {
      assert (s + [x])[1..] == s[1..] + [x];
      DeletedLastAbsent(s[1..], x);
      assert s == [s[0]] + s[1..];
    }
  }

  /**
   * The subscriptions after the subscribe loop over `names`: each name that is `available`
   * is added in turn, the others are skipped.
   */
  function AfterSubscribe(subs: seq<string>, names: seq<string>, available: seq<string>): (r: seq<string>)
    decreases |names|
    ensures forall y {:trigger y in r} :: y in r <==> y in subs || (y in names && y in available)
    ensures NoDuplicates(subs) ==> NoDuplicates(r)
    ensures |subs| <= |r| && r[..|subs|] == subs
  {
    if names == [] then subs
    else
      var init := names[..|names| - 1];
      var n := names[|names| - 1];
      assert names == init + [n];
      var prev := AfterSubscribe(subs, init, available);
      if n in available then Added(prev, n) else prev
  }

  /** The subscriptions after the unsubscribe loop over `names`: each name is deleted in turn. */
  function AfterUnsubscribe(subs: seq<string>, names: seq<string>): (r: seq<string>)
    decreases |names|
    ensures forall y {:trigger y in r} :: y in r <==> y in subs && y !in names
    ensures NoDuplicates(subs) ==> NoDuplicates(r)
  {
    if names == [] then subs
    else
      var init := names[..|names| - 1];
      var n := names[|names| - 1];
      assert names == init + [n];
      Deleted(AfterUnsubscribe(subs, init), n)
  }

  /** `startPriceUpdates(c, n)`: a timer for the pair is put under its key unless that key is taken. */
  function Started(m: map<string, Timer>, c: string, n: string): (r: map<string, Timer>)
    ensures r.Keys == m.Keys + {Key(c, n)}
    ensures forall k :: k in m ==> r[k] == m[k]
    ensures Key(c, n) !in m ==> r[Key(c, n)] == Timer(c, n)
  {
    if Key(c, n) in m then m else m[Key(c, n) := Timer(c, n)]
  }

  /**
   * The timers after the subscribe loop of client `c` over `names`: a timer is started for
   * each available name. Existing timers stay as they are, and every new one is the timer of
   * an accepted name of `c` under that pair's key.
   */
  function StartedAll(m: map<string, Timer>, c: string, names: seq<string>, available: seq<string>): (r: map<string, Timer>)
    decreases |names|
    ensures forall k :: k in m ==> k in r && r[k] == m[k]
    ensures forall n :: n in names && n in available ==> Key(c, n) in r
    ensures forall k :: k in r && k !in m ==>
      r[k].clientId == c && r[k].symbol in names && r[k].symbol in available && k == Key(c, r[k].symbol)
  {
    if names == [] then m
    else
      var init := names[..|names| - 1];
      var n := names[|names| - 1];
      assert names == init + [n];
      var prev := StartedAll(m, c, init, available);
      if n in available then Started(prev, c, n) else prev
  }

  /** One more name in the subscribe loop: it is added when available. */
  lemma AfterSubscribeSnoc(subs: seq<string>, names: seq<string>, n: string, available: seq<string>)
    ensures AfterSubscribe(subs, names + [n], available) ==
      if n in available then Added(AfterSubscribe(subs, names, available), n) else AfterSubscribe(subs, names, available)
  {
    assert (names + [n])[..|names|] == names;
  }

  /** One more name in the unsubscribe loop: it is deleted. */
  lemma AfterUnsubscribeSnoc(subs: seq<string>, names: seq<string>, n: string)
    ensures AfterUnsubscribe(subs, names + [n]) == Deleted(AfterUnsubscribe(subs, names), n)
  {
    assert (names + [n])[..|names|] == names;
  }

  /** One more name in the subscribe loop: its timer is started when it is available. */
  lemma StartedAllSnoc(m: map<string, Timer>, c: string, names: seq<string>, n: string, available: seq<string>)
    ensures StartedAll(m, c, names + [n], available) ==
      if n in available then Started(StartedAll(m, c, names, available), c, n) else StartedAll(m, c, names, available)
  {
    assert (names + [n])[..|names|] == names;
  }

  /** The interval keys of client `c` for the names in `names`. */
  function KeysFor(c: string, names: seq<string>): set<string> {
    set n | n in names :: Key(c, n)
  }

  /** The keys of one more name are the keys so far and that name's key. */
  lemma KeysForSnoc(c: string, names: seq<string>, n: string)
    ensures KeysFor(c, names + [n]) == KeysFor(c, names) + {Key(c, n)}
  {
    assert forall x :: x in names + [n] <==> x in names || x == n;
  }

  /** Timer `t` under key `k` belongs to a live subscription: its client is still registered and subscribed to its symbol. */
  predicate Owns(clients: map<string, Connection>, k: string, t: Timer) {
    t.clientId in clients && t.symbol in clients[t.clientId].subscribed && k == Key(t.clientId, t.symbol)
  }

  /** No connection lists a symbol twice, and every timer belongs to a live subscription. */
  predicate Consistent(clients: map<string, Connection>, timers: map<string, Timer>) {
    && (forall c :: c in clients ==> NoDuplicates(clients[c].subscribed))
    && (forall k :: k in timers ==> Owns(clients, k, timers[k]))
  }

  /** Every registered socket id has the server's id length. */
  predicate WellFormedIds(clients: map<string, Connection>) {
    forall c :: c in clients ==> |c| == SocketIdLength
  }

  /** Every subscription has its own timer running under its key. */
  predicate Covered(clients: map<string, Connection>, timers: map<string, Timer>) {
    forall c, n :: c in clients && n in clients[c].subscribed ==> Key(c, n) in timers && timers[Key(c, n)] == Timer(c, n)
  }

  /** Timers and subscriptions match one to one. */
  predicate Synced(clients: map<string, Connection>, timers: map<string, Timer>) {
    Consistent(clients, timers) && WellFormedIds(clients) && Covered(clients, timers)
  }

  /** In a synced state a client has a timer for a symbol exactly when it is subscribed to it. */
  lemma SyncedExact(clients: map<string, Connection>, timers: map<string, Timer>, c: string, n: string)
    requires Synced(clients, timers) && c in clients
    ensures Key(c, n) in timers <==> n in clients[c].subscribed
    ensures Key(c, n) in timers ==> timers[Key(c, n)] == Timer(c, n)
  {
    if Key(c, n) in timers {
      var t := timers[Key(c, n)];
      assert Owns(clients, Key(c, n), t);
      KeyInjective(c, n, t.clientId, t.symbol);
    }
  }

  /** Registering a new connection with no subscriptions keeps the invariants. */
  lemma ConnectPreserves(clients: map<string, Connection>, timers: map<string, Timer>, c: string, userId: string)
    requires Consistent(clients, timers) && c !in clients
    ensures Consistent(clients[c := Connection(userId, [])], timers)
    ensures Synced(clients, timers) && |c| == SocketIdLength ==> Synced(clients[c := Connection(userId, [])], timers)
  {
    var clients' := clients[c := Connection(userId, [])];
    forall k | k in timers ensures Owns(clients', k, timers[k]) {
      assert Owns(clients, k, timers[k]);
    }
  }

  /** The subscribe loop keeps the invariants. */
  lemma SubscribePreserves(
    clients: map<string, Connection>, timers: map<string, Timer>, c: string, names: seq<string>, available: seq<string>)
    requires Consistent(clients, timers) && c in clients
    ensures var conn := clients[c];
      var clients' := clients[c := conn.(subscribed := AfterSubscribe(conn.subscribed, names, available))];
      var timers' := StartedAll(timers, c, names, available);
      && Consistent(clients', timers')
      && (Synced(clients, timers) ==> Synced(clients', timers'))
  {
    var conn := clients[c];
    var subs' := AfterSubscribe(conn.subscribed, names, available);
    var clients' := clients[c := conn.(subscribed := subs')];
    var timers' := StartedAll(timers, c, names, available);
    forall k | k in timers' ensures Owns(clients', k, timers'[k]) {
      if k in timers {
        assert Owns(clients, k, timers[k]);
      }
    }
    if Synced(clients, timers) {
      forall d, n | d in clients' && n in clients'[d].subscribed
        ensures Key(d, n) in timers' && timers'[Key(d, n)] == Timer(d, n)
      {
        if d != c || n in conn.subscribed {
          assert Key(d, n) in timers && timers[Key(d, n)] == Timer(d, n);
        } else {
          assert n in names && n in available;
          SyncedExact(clients, timers, c, n);
          var t := timers'[Key(c, n)];
          KeyInjective(c, n, t.clientId, t.symbol);
        }
      }
    }
  }

  /** The unsubscribe loop keeps the invariants. */
  lemma UnsubscribePreserves(clients: map<string, Connection>, timers: map<string, Timer>, c: string, names: seq<string>)
    requires Consistent(clients, timers) && c in clients
    ensures var conn := clients[c];
      var clients' := clients[c := conn.(subscribed := AfterUnsubscribe(conn.subscribed, names))];
      var timers' := timers - KeysFor(c, names);
      && Consistent(clients', timers')
      && (Synced(clients, timers) ==> Synced(clients', timers'))
  {
    var conn := clients[c];
    var clients' := clients[c := conn.(subscribed := AfterUnsubscribe(conn.subscribed, names))];
    var timers' := timers - KeysFor(c, names);
    forall k | k in timers' ensures Owns(clients', k, timers'[k]) {
      var t := timers[k];
      assert Owns(clients, k, t);
    }
    if Synced(clients, timers) {
      forall d, n | d in clients' && n in clients'[d].subscribed
        ensures Key(d, n) in timers' && timers'[Key(d, n)] == Timer(d, n)
      {
        assert Key(d, n) in timers && timers[Key(d, n)] == Timer(d, n);
        forall m | m in names ensures Key(c, m) != Key(d, n) {
          KeyDistinct(c, m, d, n);
        }
      }
    }
  }

  /** Stopping every timer of client `c` and forgetting the client keeps the invariants. */
  lemma DropPreserves(clients: map<string, Connection>, timers: map<string, Timer>, c: string)
    requires Consistent(clients, timers) && c in clients
    ensures var clients', timers' := clients - {c}, timers - KeysFor(c, clients[c].subscribed);
      && Consistent(clients', timers')
      && (Synced(clients, timers) ==> Synced(clients', timers'))
  {
    var subs := clients[c].subscribed;
    var clients', timers' := clients - {c}, timers - KeysFor(c, subs);
    forall k | k in timers' ensures Owns(clients', k, timers'[k]) {
      var t := timers[k];
      assert Owns(clients, k, t);
    }
    if Synced(clients, timers) {
      forall d, n | d in clients' && n in clients'[d].subscribed
        ensures Key(d, n) in timers' && timers'[Key(d, n)] == Timer(d, n)
      {
        assert Key(d, n) in timers && timers[Key(d, n)] == Timer(d, n);
        forall m | m in subs ensures Key(c, m) != Key(d, n) {
          KeyDistinct(c, m, d, n);
        }
      }
    }
  }

  /**
   * In a synced state, subscribing a client to one new available symbol and unsubscribing it
   * again leaves both the connections and the timers exactly as they were.
   */
  lemma SubscribeThenUnsubscribe(
    clients: map<string, Connection>, timers: map<string, Timer>, c: string, n: string, available: seq<string>)
    requires Synced(clients, timers) && c in clients && n !in clients[c].subscribed && n in available
    ensures var conn := clients[c];
      var subs := AfterSubscribe(conn.subscribed, [n], available);
      && AfterUnsubscribe(subs, [n]) == conn.subscribed
      && StartedAll(timers, c, [n], available) - KeysFor(c, [n]) == timers
  {
    var subs := clients[c].subscribed;
    assert [n][..0] == [];
    assert AfterSubscribe(subs, [n], available) == Added(subs, n);
    assert AfterUnsubscribe(Added(subs, n), [n]) == Deleted(Added(subs, n), n);
    AddedThenDeleted(subs, n);
    SyncedExact(clients, timers, c, n);
    assert StartedAll(timers, c, [n], available) == timers[Key(c, n) := Timer(c, n)];
    assert KeysFor(c, [n]) == {Key(c, n)};
  }
}
