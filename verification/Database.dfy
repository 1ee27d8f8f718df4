/** The announce database: peers by info hash, and the write tokens that let a peer in (database.cpp). */
module Database {
  import opened Bytes
  import opened Keys
  import opened Entries
  import opened Pack

  const MAX_ITEM_AGE: nat := 30 * 60 * 1000

  datatype Db = Db(items: map<Key, seq<Item>>, tokens: map<Key, Time>)

  const EMPTY := Db(map[], map[])

  predicate Expired(it: Item, now: Time) {
    Elapsed(now, it.stamp) >= MAX_ITEM_AGE
  }

  function ItemsAt(d: Db, key: Key): seq<Item> {
    if key in d.items then d.items[key] else []
  }

  function Store(d: Db, key: Key, it: Item): Db {
    d.(items := d.items[key := ItemsAt(d, key) + [it]])
  }

  /** Items stored one after the other. */
  function StoreAll(d: Db, key: Key, items: seq<Item>): Db {
    if items == [] then d else Store(StoreAll(d, key, items[..|items| - 1]), key, items[|items| - 1])
  }

  /** insert: an empty list for a key that has none. */
  function AddKey(d: Db, key: Key): Db {
    d.(items := d.items[key := ItemsAt(d, key)])
  }

  /** The oldest items, at most max of them. */
  function Sample(d: Db, key: Key, max: nat): seq<Item> {
    var l := ItemsAt(d, key);
    if |l| < max then l else l[..max]
  }

  /** Expired items are taken from the front, up to the first one that is not expired. */
  function DropExpired(l: seq<Item>, now: Time): seq<Item> {
    if l != [] && Expired(l[0], now) then DropExpired(l[1..], now) else l
  }

  function Expire(d: Db, now: Time): Db {
    d.(items := map k | k in d.items :: DropExpired(d.items[k], now))
  }

  /** What is hashed to make a token: 14 or 26 bytes. */
  function TokenData(addr: Address, ts: Time): (r: bytes)
    ensures |r| == if addr.V4? then 14 else 26
  {
    Pow2Wide();
    AddressBytes(addr) + BigEndian(ts, 8)
  }

  function Token(hash: bytes -> Key, addr: Address, ts: Time): Key {
    hash(TokenData(addr, ts))
  }

  function GenToken(d: Db, hash: bytes -> Key, addr: Address, now: Time): Db {
    d.(tokens := d.tokens[Token(hash, addr, now) := now])
  }

  /** checkToken accepts. */
  predicate TokenOk(d: Db, hash: bytes -> Key, token: Key, addr: Address) {
    token in d.tokens && Token(hash, addr, d.tokens[token]) == token
  }

  function UseToken(d: Db, hash: bytes -> Key, token: Key, addr: Address): Db {
    if TokenOk(d, hash, token, addr) then d.(tokens := d.tokens - {token}) else d
  }

  /** What the handlers and the announce tasks of the DHT do to the database. The items of a get_peers answer were
      stamped when the answer was decoded, so their stamps may differ from the time they are stored. */
  datatype Event =
    | GetPeers(from: Address)
    | Announce(token: Key, from: Address, infoHash: Key)
    | Expiry
    | OwnAnnounce(infoHash: Key)
    | PeersFound(infoHash: Key, items: seq<Item>)

  function Step(d: Db, hash: bytes -> Key, ev: Event, now: Time): Db {
    match ev
    case GetPeers(from) => GenToken(d, hash, from, now)
    case Announce(token, from, infoHash) =>
      if TokenOk(d, hash, token, from) then Store(UseToken(d, hash, token, from), infoHash, Item(from, now)) else d
    case Expiry => Expire(d, now)
    case OwnAnnounce(infoHash) => if infoHash in d.items then d else AddKey(d, infoHash)
    case PeersFound(infoHash, items) => StoreAll(d, infoHash, items)
  }

  function Run(hash: bytes -> Key, evs: seq<(Event, Time)>): Db
    decreases |evs|
  {
    if evs == [] then EMPTY
    else Step(Run(hash, evs[..|evs| - 1]), hash, evs[|evs| - 1].0, evs[|evs| - 1].1)
  }

  predicate Generates(hash: bytes -> Key, ev: (Event, Time), token: Key) {
    ev.0.GetPeers? && Token(hash, ev.0.from, ev.1) == token
  }

  /** The i-th event is an announce that is let in. */
  predicate AcceptedAt(hash: bytes -> Key, evs: seq<(Event, Time)>, i: nat)
    requires i < |evs|
  {
    evs[i].0.Announce? && TokenOk(Run(hash, evs[..i]), hash, evs[i].0.token, evs[i].0.from)
  }

  /** How often a token was handed out, and how often an announce with it was let in. */
  function Generations(hash: bytes -> Key, evs: seq<(Event, Time)>, token: Key): nat {
    if evs == [] then 0
    else Generations(hash, evs[..|evs| - 1], token) + (if Generates(hash, evs[|evs| - 1], token) then 1 else 0)
  }

  function Acceptances(hash: bytes -> Key, evs: seq<(Event, Time)>, token: Key): nat {
    if evs == [] then 0
    else
      var n := |evs| - 1;
      Acceptances(hash, evs[..n], token) + (if AcceptedAt(hash, evs, n) && evs[n].0.token == token then 1 else 0)
  }

  lemma {:induction false} StoreAllAppends(d: Db, key: Key, items: seq<Item>)
    ensures var r := StoreAll(d, key, items);
            && r.tokens == d.tokens
            && ItemsAt(r, key) == ItemsAt(d, key) + items
            && (items != [] ==> r == d.(items := d.items[key := ItemsAt(d, key) + items]))
  {
    if items != [] {
      var front := items[..|items| - 1];
      StoreAllAppends(d, key, front);
      assert items == front + [items[|items| - 1]];
      assert ItemsAt(d, key) + items == ItemsAt(d, key) + front + [items[|items| - 1]];
    }
  }

  /** Only handing out and using tokens changes them. */
  lemma StepTokens(d: Db, hash: bytes -> Key, ev: Event, now: Time)
    ensures var r := Step(d, hash, ev, now);
            match ev
            case GetPeers(from) => r.tokens == d.tokens[Token(hash, from, now) := now]
            case Announce(token, from, _) =>
              r.tokens == if TokenOk(d, hash, token, from) then d.tokens - {token} else d.tokens
            case _ => r.tokens == d.tokens
  {
    hide Token;
    if ev.PeersFound? {
      StoreAllAppends(d, ev.infoHash, ev.items);
    }
  }

  /** A token lets an announce in at most as often as it was handed out. */
  lemma {:induction false} UsedOnce(hash: bytes -> Key, evs: seq<(Event, Time)>, token: Key)
    ensures Acceptances(hash, evs, token) + (if token in Run(hash, evs).tokens then 1 else 0)
            <= Generations(hash, evs, token)
  {
    if evs != [] {
      var n := |evs| - 1;
      UsedOnce(hash, evs[..n], token);
      StepTokens(Run(hash, evs[..n]), hash, evs[n].0, evs[n].1);
    }
  }

  /** A token in the map was handed out at the time the map says. */
  lemma {:induction false} TokensHandedOut(hash: bytes -> Key, evs: seq<(Event, Time)>, token: Key)
    requires token in Run(hash, evs).tokens
    ensures exists j :: 0 <= j < |evs| && Generates(hash, evs[j], token) && evs[j].1 == Run(hash, evs).tokens[token]
  {
    var n := |evs| - 1;
    var d := Run(hash, evs[..n]);
    StepTokens(d, hash, evs[n].0, evs[n].1);
    if !Generates(hash, evs[n], token) {
      assert token in d.tokens && d.tokens[token] == Run(hash, evs).tokens[token];
      TokensHandedOut(hash, evs[..n], token);
      var j :| 0 <= j < n && Generates(hash, evs[..n][j], token) && evs[..n][j].1 == d.tokens[token];
      assert evs[j] == evs[..n][j];
    }
  }

  /** The token data of different addresses or different times are different. */
  lemma TokenDataInjective(a: Address, b: Address, s: Time, t: Time)
    ensures TokenData(a, s) == TokenData(b, t) ==> a == b && s == t
  {
    hide AddressBytes, Val;
    Pow2Wide();
    var x, y := TokenData(a, s), TokenData(b, t);
    if x == y {
      assert x[..|x| - 8] == AddressBytes(a) && y[..|y| - 8] == AddressBytes(b);
      assert x[|x| - 8..] == BigEndian(s, 8) && y[|y| - 8..] == BigEndian(t, 8);
      assert AddressBytes(a) == AddressBytes(b);
      AddressBytesInjective(a, b);
    }
  }

  lemma AddressBytesInjective(a: Address, b: Address)
    requires AddressBytes(a) == AddressBytes(b)
    ensures a == b
  {
    var x := AddressBytes(a);
    var n := |x| - 2;
    assert |x| == if a.V4? then 6 else 18;
    if a.V4? {
      assert x[..n] == a.ip4 == b.ip4;
      assert x[n..] == PortBytes(a.port) == PortBytes(b.port);
    } else {
      assert x[..n] == a.ip6 == b.ip6;
      assert x[n..] == PortBytes(a.port) == PortBytes(b.port);
    }
  }

  /** The hash tells apart what a run could have hashed: the data of the given address, and of every address
      that asked for a token, at every time a token was handed out. */
  ghost predicate NoCollision(hash: bytes -> Key, evs: seq<(Event, Time)>, addr: Address) {
    forall j :: 0 <= j < |evs| && evs[j].0.GetPeers? ==>
      (Token(hash, evs[j].0.from, evs[j].1) == Token(hash, addr, evs[j].1) ==>
         TokenData(evs[j].0.from, evs[j].1) == TokenData(addr, evs[j].1))
  }

  /** An announce is let in only with a token that was handed out earlier to the same address. */
  lemma AcceptedOnlyOwnToken(hash: bytes -> Key, evs: seq<(Event, Time)>, i: nat)
    requires i < |evs| && AcceptedAt(hash, evs, i) && NoCollision(hash, evs, evs[i].0.from)
    ensures exists j :: 0 <= j < i && evs[j].0 == GetPeers(evs[i].0.from) && Generates(hash, evs[j], evs[i].0.token)
  {
    var token, from := evs[i].0.token, evs[i].0.from;
    var before := evs[..i];
    TokensHandedOut(hash, before, token);
    var j :| 0 <= j < i && Generates(hash, before[j], token) && before[j].1 == Run(hash, before).tokens[token];
    assert evs[j] == before[j];
    TokenDataInjective(evs[j].0.from, from, evs[j].1, evs[j].1);
  }

  /** No other token handed out in the run collides with the one for this address and time. */
  ghost predicate NoClash(hash: bytes -> Key, evs: seq<(Event, Time)>, from: Address, ts: Time) {
    forall j :: 0 <= j < |evs| && Generates(hash, evs[j], Token(hash, from, ts)) ==>
      TokenData(evs[j].0.from, evs[j].1) == TokenData(from, ts)
  }

  predicate UsedAt(hash: bytes -> Key, evs: seq<(Event, Time)>, i: nat, token: Key)
    requires i < |evs|
  {
    AcceptedAt(hash, evs, i) && evs[i].0.token == token
  }

  /** The token was handed out in the k-th event and no announce was let in with it since. */
  ghost predicate HeldSince(hash: bytes -> Key, evs: seq<(Event, Time)>, k: nat, token: Key) {
    && k < |evs| && Generates(hash, evs[k], token)
    && forall i :: k < i < |evs| ==> !UsedAt(hash, evs, i, token)
  }

  ghost predicate Held(hash: bytes -> Key, evs: seq<(Event, Time)>, token: Key) {
    exists k: nat :: HeldSince(hash, evs, k, token)
  }

  /** Over every run: a token is good for its address exactly if it was handed out and no announce was let in with
      it since. */
  lemma {:induction false} GoodUntilUsed(hash: bytes -> Key, evs: seq<(Event, Time)>, from: Address, ts: Time)
    requires NoClash(hash, evs, from, ts)
    ensures var token := Token(hash, from, ts);
            TokenOk(Run(hash, evs), hash, token, from) <==> Held(hash, evs, token)
    decreases |evs|
  {
    hide Token, Step, Held;
    var token := Token(hash, from, ts);
    if evs == [] {
      NeverHeld(hash, token);
    } else {
      var n := |evs| - 1;
      var front, d := evs[..n], Run(hash, evs[..n]);
      GoodUntilUsed(hash, front, from, ts);
      StepTokens(d, hash, evs[n].0, evs[n].1);
      if Generates(hash, evs[n], token) {
        TokenDataInjective(evs[n].0.from, from, evs[n].1, ts);
        HeldNow(hash, evs, token);
      } else {
        HeldStep(hash, evs, token);
        if token in d.tokens {
          RecordedTime(hash, front, from, ts);
        }
      }
    }
  }

  lemma NeverHeld(hash: bytes -> Key, token: Key)
    ensures !Held(hash, [], token)
  {
  }

  lemma HeldNow(hash: bytes -> Key, evs: seq<(Event, Time)>, token: Key)
    requires evs != [] && Generates(hash, evs[|evs| - 1], token)
    ensures Held(hash, evs, token)
  {
    assert HeldSince(hash, evs, |evs| - 1, token);
  }

  lemma HeldStep(hash: bytes -> Key, evs: seq<(Event, Time)>, token: Key)
    requires evs != [] && !Generates(hash, evs[|evs| - 1], token)
    ensures Held(hash, evs, token) <==> !UsedAt(hash, evs, |evs| - 1, token) && Held(hash, evs[..|evs| - 1], token)
  {
    hide Generates;
    var n := |evs| - 1;
    forall i | 0 <= i < n
      ensures UsedAt(hash, evs, i, token) <==> UsedAt(hash, evs[..n], i, token)
    {
      assert evs[..n][..i] == evs[..i] && evs[..n][i] == evs[i];
    }
    if Held(hash, evs, token) {
      var k: nat :| HeldSince(hash, evs, k, token);
      assert evs[..n][k] == evs[k];
      assert HeldSince(hash, evs[..n], k, token);
    }
    if !UsedAt(hash, evs, n, token) && Held(hash, evs[..n], token) {
      var k: nat :| HeldSince(hash, evs[..n], k, token);
      assert evs[..n][k] == evs[k];
      assert HeldSince(hash, evs, k, token);
    }
  }

  /** Without a clash the time recorded with a token is the one it was made from. */
  lemma RecordedTime(hash: bytes -> Key, evs: seq<(Event, Time)>, from: Address, ts: Time)
    requires NoClash(hash, evs, from, ts) && Token(hash, from, ts) in Run(hash, evs).tokens
    ensures Run(hash, evs).tokens[Token(hash, from, ts)] == ts
  {
    hide Token;
    var token := Token(hash, from, ts);
    TokensHandedOut(hash, evs, token);
    var j :| 0 <= j < |evs| && Generates(hash, evs[j], token) && evs[j].1 == Run(hash, evs).tokens[token];
    TokenDataInjective(evs[j].0.from, from, evs[j].1, ts);
  }

  /** The i-th event stores the item under the key: it is an announce that is let in, or an answer to a get_peers
      request of our own. */
  predicate StoredAt(hash: bytes -> Key, evs: seq<(Event, Time)>, i: nat, key: Key, it: Item)
    requires i < |evs|
  {
    match evs[i].0
    case Announce(_, from, infoHash) => AcceptedAt(hash, evs, i) && infoHash == key && it == Item(from, evs[i].1)
    case PeersFound(infoHash, items) => infoHash == key && it in items
    case _ => false
  }

  /** Nothing gets into the database in any other way. */
  lemma {:induction false} StoredFrom(hash: bytes -> Key, evs: seq<(Event, Time)>, key: Key, it: Item) returns (i: nat)
    requires it in ItemsAt(Run(hash, evs), key)
    ensures i < |evs| && StoredAt(hash, evs, i, key, it)
    decreases |evs|
  {
    var n := |evs| - 1;
    var d := Run(hash, evs[..n]);
    if it in ItemsAt(d, key) {
      i := StoredFrom(hash, evs[..n], key, it);
      assert evs[..n][..i] == evs[..i];
    } else {
      i := n;
      StepStores(d, hash, evs[n].0, evs[n].1, key, it);
    }
  }

  lemma StepStores(d: Db, hash: bytes -> Key, ev: Event, now: Time, key: Key, it: Item)
    requires it !in ItemsAt(d, key) && it in ItemsAt(Step(d, hash, ev, now), key)
    ensures match ev
            case Announce(token, from, infoHash) =>
              TokenOk(d, hash, token, from) && infoHash == key && it == Item(from, now)
            case PeersFound(infoHash, items) => infoHash == key && it in items
            case _ => false
  {
    hide Token;
    match ev
    case Expiry => DropExpiredMembers(ItemsAt(d, key), now, it);
    case PeersFound(infoHash, items) => StoreAllAppends(d, infoHash, items);
    case _ =>
  }

  lemma {:induction false} DropExpiredMembers(l: seq<Item>, now: Time, it: Item)
    requires it !in l
    ensures it !in DropExpired(l, now)
  {
    if l != [] && Expired(l[0], now) {
      DropExpiredMembers(l[1..], now, it);
    }
  }

  /** A peer is stored only if it announced itself with a token that it had been given before, or was named in an
      answer to a get_peers request of our own for this key. */
  lemma StoredOnlyWithToken(hash: bytes -> Key, evs: seq<(Event, Time)>, key: Key, it: Item) returns (j: nat, i: nat)
    requires it in ItemsAt(Run(hash, evs), key) && NoCollision(hash, evs, it.addr)
    ensures i < |evs|
    ensures if evs[i].0.PeersFound? then evs[i].0.infoHash == key && it in evs[i].0.items
            else
              && j < i && evs[j].0 == GetPeers(it.addr) && AcceptedAt(hash, evs, i)
              && evs[i] == (Announce(Token(hash, it.addr, evs[j].1), it.addr, key), it.stamp)
  {
    i := StoredFrom(hash, evs, key, it);
    if evs[i].0.PeersFound? {
      j := 0;
    } else {
      AcceptedOnlyOwnToken(hash, evs, i);
      j :| 0 <= j < i && evs[j].0 == GetPeers(it.addr) && Generates(hash, evs[j], evs[i].0.token);
    }
  }

  function Unexpired(l: seq<Item>, now: Time): seq<Item> {
    if l == [] then []
    else if Expired(l[0], now) then Unexpired(l[1..], now)
    else [l[0]] + Unexpired(l[1..], now)
  }

  /** Taking from the front is the same as removing every expired item exactly if no expired item lies behind
      one that is not expired. */
  lemma {:induction false} ExpireExact(l: seq<Item>, now: Time)
    ensures DropExpired(l, now) == Unexpired(l, now)
            <==> forall i, j :: 0 <= i < j < |l| && Expired(l[j], now) ==> Expired(l[i], now)
  {
    if l != [] {
      ExpireExact(l[1..], now);
      UnexpiredMembers(l, now);
      if Expired(l[0], now) {
        assert forall j :: 0 < j < |l| ==> l[j] == l[1..][j - 1];
      } else {
        if DropExpired(l, now) == Unexpired(l, now) {
          assert forall j :: 0 <= j < |l| ==> l[j] in Unexpired(l, now);
        } else if forall i, j :: 0 <= i < j < |l| && Expired(l[j], now) ==> Expired(l[i], now) {
          KeepsAll(l, now);
        }
      }
    }
  }

  lemma {:induction false} UnexpiredMembers(l: seq<Item>, now: Time)
    ensures forall it :: it in Unexpired(l, now) <==> it in l && !Expired(it, now)
  {
    if l != [] {
      UnexpiredMembers(l[1..], now);
      assert l == [l[0]] + l[1..];
    }
  }

  lemma {:induction false} KeepsAll(l: seq<Item>, now: Time)
    requires forall i :: 0 <= i < |l| ==> !Expired(l[i], now)
    ensures Unexpired(l, now) == l
  {
    if l != [] {
      KeepsAll(l[1..], now);
    }
  }

  /** Taking from the front is right at every time from now on exactly if every item that lies behind a newer one
      lies behind one that has expired by now. */
  lemma ExpireAlwaysExact(l: seq<Item>, last: Time)
    requires last + MAX_ITEM_AGE < UINT64 && forall i :: 0 <= i < |l| ==> l[i].stamp <= last
    ensures (forall now: Time :: last <= now ==> DropExpired(l, now) == Unexpired(l, now))
            <==> forall i, j :: 0 <= i < j < |l| && l[j].stamp < l[i].stamp ==> l[i].stamp + MAX_ITEM_AGE <= last
  {
    if forall now: Time :: last <= now ==> DropExpired(l, now) == Unexpired(l, now) {
      forall i, j | 0 <= i < j < |l| && l[j].stamp < l[i].stamp
        ensures l[i].stamp + MAX_ITEM_AGE <= last
      {
        var now: Time := if l[j].stamp + MAX_ITEM_AGE <= last then last else l[j].stamp + MAX_ITEM_AGE;
        assert DropExpired(l, now) == Unexpired(l, now);
        ExpireExact(l, now);
        assert Expired(l[j], now);
        assert Expired(l[i], now);
      }
    } else {
      var now: Time :| last <= now && DropExpired(l, now) != Unexpired(l, now);
      ExpireExact(l, now);
    }
  }

  /** Items in the order of their stamps, and none from the future. */
  ghost predicate Chronological(l: seq<Item>, now: Time) {
    && (forall i, j :: 0 <= i < j < |l| ==> l[i].stamp <= l[j].stamp)
    && (forall i :: 0 <= i < |l| ==> l[i].stamp <= now)
  }

  ghost predicate AllChronological(d: Db, now: Time) {
    forall k :: k in d.items ==> Chronological(d.items[k], now)
  }

  ghost predicate ClockRuns(evs: seq<(Event, Time)>) {
    forall i, j :: 0 <= i < j < |evs| ==> evs[i].1 <= evs[j].1
  }

  /** Found items are themselves in the order of their stamps, and the first is no older than the newest item
      that is already there. */
  ghost predicate FollowsOn(l: seq<Item>, items: seq<Item>, now: Time) {
    Chronological(items, now) && (l != [] && items != [] ==> l[|l| - 1].stamp <= items[0].stamp)
  }

  /** All the items found in a run were stored before anything newer. */
  ghost predicate FoundInTime(hash: bytes -> Key, evs: seq<(Event, Time)>)
    decreases |evs|
  {
    evs != [] ==>
      var front, last := evs[..|evs| - 1], evs[|evs| - 1];
      && FoundInTime(hash, front)
      && (last.0.PeersFound? ==> FollowsOn(ItemsAt(Run(hash, front), last.0.infoHash), last.0.items, last.1))
  }

  lemma {:induction false} DropExpiredChronological(l: seq<Item>, now: Time)
    requires Chronological(l, now)
    ensures Chronological(DropExpired(l, now), now)
  {
    if l != [] && Expired(l[0], now) {
      DropExpiredChronological(l[1..], now);
    }
  }

  lemma JoinChronological(l: seq<Item>, items: seq<Item>, now: Time)
    requires Chronological(l, now)
    ensures Chronological(l + items, now) <==> FollowsOn(l, items, now)
  {
    var r := l + items;
    assert forall j :: 0 <= j < |items| ==> r[|l| + j] == items[j];
    if l != [] && items != [] {
      assert r[|l| - 1] == l[|l| - 1] && r[|l|] == items[0];
    }
  }

  /** One event keeps all lists in order exactly if it does not store found items that are out of order. */
  lemma StepChronological(d: Db, hash: bytes -> Key, ev: Event, now: Time)
    requires AllChronological(d, now)
    ensures AllChronological(Step(d, hash, ev, now), now)
            <==> (ev.PeersFound? ==> FollowsOn(ItemsAt(d, ev.infoHash), ev.items, now))
  {
    hide Token;
    match ev
    case Expiry =>
      forall k | k in d.items
        ensures Chronological(DropExpired(d.items[k], now), now)
      {
        DropExpiredChronological(d.items[k], now);
      }
    case PeersFound(infoHash, items) =>
      StoreAllAppends(d, infoHash, items);
      JoinChronological(ItemsAt(d, infoHash), items, now);
    case _ =>
  }

  lemma {:induction false} RunChronological(hash: bytes -> Key, evs: seq<(Event, Time)>)
    requires evs != [] && ClockRuns(evs) && FoundInTime(hash, evs)
    ensures AllChronological(Run(hash, evs), evs[|evs| - 1].1)
    decreases |evs|
  {
    var n := |evs| - 1;
    var d, now := Run(hash, evs[..n]), evs[n].1;
    if n > 0 {
      RunChronological(hash, evs[..n]);
      assert evs[..n][n - 1] == evs[n - 1] && evs[n - 1].1 <= now;
    }
    assert AllChronological(d, now);
    StepChronological(d, hash, evs[n].0, now);
  }

  /** In every run by a clock that does not go back, in which found items are stored before anything newer, expiry
      at the end removes exactly the expired items, so that nobody is given an expired peer afterwards. */
  lemma ExpiryIsFilter(hash: bytes -> Key, evs: seq<(Event, Time)>, now: Time, key: Key, max: nat)
    requires ClockRuns(evs) && FoundInTime(hash, evs) && (evs != [] ==> evs[|evs| - 1].1 <= now)
    ensures var d := Run(hash, evs);
            && ItemsAt(Expire(d, now), key) == Unexpired(ItemsAt(d, key), now)
            && (forall it :: it in ItemsAt(Expire(d, now), key)
                             <==> it in ItemsAt(d, key) && (now - it.stamp) % UINT64 < 30 * 60 * 1000)
            && forall it :: it in Sample(Expire(d, now), key, max) ==> (now - it.stamp) % UINT64 < 30 * 60 * 1000
  {
    hide Run, Expired, Unexpired;
    var d := Run(hash, evs);
    var l := ItemsAt(d, key);
    assert Chronological(l, now) by {
      ListInOrder(hash, evs, now, key);
    }
    OldestFirst(l, now);
    ExpireExact(l, now);
    UnexpiredMembers(l, now);
    AgeExact(now);
    assert ItemsAt(Expire(d, now), key) == Unexpired(l, now);
    assert forall it :: it in Unexpired(l, now) <==> it in l && !Expired(it, now);
  }

  lemma OldestFirst(l: seq<Item>, now: Time)
    requires Chronological(l, now)
    ensures forall i, j :: 0 <= i < j < |l| && Expired(l[j], now) ==> Expired(l[i], now)
  {
  }

  lemma ListInOrder(hash: bytes -> Key, evs: seq<(Event, Time)>, now: Time, key: Key)
    requires ClockRuns(evs) && FoundInTime(hash, evs) && (evs != [] ==> evs[|evs| - 1].1 <= now)
    ensures Chronological(ItemsAt(Run(hash, evs), key), now)
  {
    hide Step;
    if evs != [] {
      RunChronological(hash, evs);
    }
  }

  lemma AgeExact(now: Time)
    ensures forall it: Item :: Expired(it, now) <==> (now - it.stamp) % UINT64 >= 30 * 60 * 1000
  {
  }

  /** What an event does to the list of any key: an announce let in and the peers of an answer go to its end if it is the
      list of their key, expiry leaves a suffix, and otherwise the list is as it was. */
  lemma StepItems(d: Db, hash: bytes -> Key, ev: Event, now: Time, key: Key)
    ensures var l, r := ItemsAt(d, key), ItemsAt(Step(d, hash, ev, now), key);
            match ev
            case Announce(token, from, infoHash) =>
              r == l + (if TokenOk(d, hash, token, from) && infoHash == key then [Item(from, now)] else [])
            case PeersFound(infoHash, items) => r == l + (if infoHash == key then items else [])
            case Expiry => |r| <= |l| && r == l[|l| - |r|..]
            case _ => r == l
  {
    hide Token, Expired;
    match ev
    case Expiry => Suffix(ItemsAt(d, key), now);
    case PeersFound(infoHash, items) => StoreAllAppends(d, infoHash, items);
    case _ =>
  }

  lemma {:induction false} Suffix(l: seq<Item>, now: Time)
    ensures var r := DropExpired(l, now); |r| <= |l| && r == l[|l| - |r|..]
  {
    if l != [] && Expired(l[0], now) {
      Suffix(l[1..], now);
    }
  }

  /** Nothing but expiry after half an hour takes a peer out. */
  lemma StepKeepsItem(d: Db, hash: bytes -> Key, ev: Event, now: Time, key: Key, it: Item)
    requires it in ItemsAt(d, key) && (ev.Expiry? ==> (now - it.stamp) % UINT64 < 30 * 60 * 1000)
    ensures it in ItemsAt(Step(d, hash, ev, now), key)
  {
    hide Token, DropExpired, Expired;
    match ev
    case Expiry =>
      AgeExact(now);
      YoungStays(d.items[key], now, it);
    case PeersFound(infoHash, items) => StoreAllAppends(d, infoHash, items);
    case _ =>
  }

  lemma {:induction false} YoungStays(l: seq<Item>, now: Time, it: Item)
    requires it in l && !Expired(it, now)
    ensures it in DropExpired(l, now)
  {
    hide Expired;
    if Expired(l[0], now) {
      YoungStays(l[1..], now, it);
    }
  }

  /** Over every run: a peer that is stored at some time is still stored at the end, unless there was an expiry when it
      was half an hour old or older. */
  lemma {:induction false} RunKeepsItem(hash: bytes -> Key, evs: seq<(Event, Time)>, n: nat, key: Key, it: Item)
    requires n <= |evs| && it in ItemsAt(Run(hash, evs[..n]), key)
    requires forall i :: n <= i < |evs| && evs[i].0.Expiry? ==> (evs[i].1 - it.stamp) % UINT64 < 30 * 60 * 1000
    ensures it in ItemsAt(Run(hash, evs), key)
    decreases |evs|
  {
    hide Step;
    if n == |evs| {
      assert evs[..n] == evs;
    } else {
      var k := |evs| - 1;
      assert evs[..k][..n] == evs[..n];
      RunKeepsItem(hash, evs[..k], n, key, it);
      StepKeepsItem(Run(hash, evs[..k]), hash, evs[k].0, evs[k].1, key, it);
    }
  }

  /** In every such run a sample holds the items stored first, as many as were asked for if there are that many, and
      nobody left out is older than anybody given. */
  lemma SampleOldest(hash: bytes -> Key, evs: seq<(Event, Time)>, key: Key, max: nat)
    requires ClockRuns(evs) && FoundInTime(hash, evs)
    ensures var l := ItemsAt(Run(hash, evs), key);
            var s := Sample(Run(hash, evs), key, max);
            && s <= l && |s| == (if |l| <= max then |l| else max)
            && forall i, j :: 0 <= i < |s| <= j < |l| ==> s[i].stamp <= l[j].stamp
  {
    hide Step;
    var l := ItemsAt(Run(hash, evs), key);
    if evs != [] {
      RunChronological(hash, evs);
    }
    assert forall i, j :: 0 <= i < j < |l| ==> l[i].stamp <= l[j].stamp;
  }

  /** Answers are decoded in the order in which they are handled, each before it is handled, by a clock that does not
      go back: there is one queue of messages. */
  ghost predicate DecodedInOrder(evs: seq<(Event, Time)>) {
    && (forall k :: 0 <= k < |evs| && evs[k].0.PeersFound? ==> Chronological(evs[k].0.items, evs[k].1))
    && (forall j, k :: 0 <= j < k < |evs| && evs[j].0.PeersFound? && evs[k].0.PeersFound? ==>
          NoLater(evs[j].0.items, evs[k].0.items))
  }

  ghost predicate NoLater(a: seq<Item>, b: seq<Item>) {
    forall x, y :: x in a && y in b ==> x.stamp <= y.stamp
  }

  /** The i-th event is an announce that was let in under the same key after the answer in the last event was decoded,
      and its item is still there. */
  ghost predicate Overtakes(hash: bytes -> Key, evs: seq<(Event, Time)>, i: nat)
    requires evs != [] && i < |evs| - 1 && evs[|evs| - 1].0.PeersFound?
  {
    var n := |evs| - 1;
    var key, items := evs[n].0.infoHash, evs[n].0.items;
    && AcceptedAt(hash, evs, i) && evs[i].0.infoHash == key
    && Item(evs[i].0.from, evs[i].1) in ItemsAt(Run(hash, evs[..n]), key)
    && items != [] && items[0].stamp < evs[i].1
  }

  ghost predicate Overtaken(hash: bytes -> Key, evs: seq<(Event, Time)>) {
    evs != [] && evs[|evs| - 1].0.PeersFound? && exists i :: 0 <= i < |evs| - 1 && Overtakes(hash, evs, i)
  }

  /** Found items are out of order exactly if an announce under the same key was handled between decoding and storing
      them, and its item has not been dropped since: an announce is stamped when it is handled. */
  lemma {:induction false} OutOfOrderExact(hash: bytes -> Key, evs: seq<(Event, Time)>)
    requires evs != [] && evs[|evs| - 1].0.PeersFound?
    requires ClockRuns(evs) && DecodedInOrder(evs) && FoundInTime(hash, evs[..|evs| - 1])
    ensures FoundInTime(hash, evs) <==> !Overtaken(hash, evs)
  {
    hide Run, ItemsAt;
    var n := |evs| - 1;
    var front, key, items, now := evs[..n], evs[n].0.infoHash, evs[n].0.items, evs[n].1;
    var l := ItemsAt(Run(hash, front), key);
    if n > 0 {
      RunChronological(hash, front);
      SameList(Run(hash, front), key, front[n - 1].1);
    } else {
      NothingStored(hash, key);
    }
    if !FollowsOn(l, items, now) {
      var i := StoredFrom(hash, front, key, l[|l| - 1]);
      FrontStores(hash, evs, i, key, l[|l| - 1]);
      LastOvertakes(hash, evs, i);
    }
    if Overtaken(hash, evs) {
      var i :| 0 <= i < n && Overtakes(hash, evs, i);
      assert Item(evs[i].0.from, evs[i].1) in l;
    }
  }

  lemma SameList(d: Db, key: Key, now: Time)
    requires AllChronological(d, now)
    ensures Chronological(ItemsAt(d, key), now)
  {
  }

  lemma FrontStores(hash: bytes -> Key, evs: seq<(Event, Time)>, i: nat, key: Key, it: Item)
    requires evs != [] && i < |evs| - 1 && StoredAt(hash, evs[..|evs| - 1], i, key, it)
    ensures StoredAt(hash, evs, i, key, it)
  {
    hide Run;
    assert evs[..|evs| - 1][i] == evs[i] && evs[..|evs| - 1][..i] == evs[..i];
  }

  lemma NothingStored(hash: bytes -> Key, key: Key)
    ensures ItemsAt(Run(hash, []), key) == []
  {
  }

  lemma LastOvertakes(hash: bytes -> Key, evs: seq<(Event, Time)>, i: nat)
    requires evs != [] && i < |evs| - 1 && evs[|evs| - 1].0.PeersFound? && DecodedInOrder(evs)
    requires var key, items := evs[|evs| - 1].0.infoHash, evs[|evs| - 1].0.items;
             var l := ItemsAt(Run(hash, evs[..|evs| - 1]), key);
             l != [] && items != [] && items[0].stamp < l[|l| - 1].stamp && StoredAt(hash, evs, i, key, l[|l| - 1])
    ensures Overtakes(hash, evs, i)
  {
    hide Run, ItemsAt;
  }

  /** So over a whole run in which answers are handled in the order they were decoded: found items are stored before
      anything newer exactly if no announce overtakes an answer. */
  lemma {:induction false} FoundInTimeExact(hash: bytes -> Key, evs: seq<(Event, Time)>)
    requires ClockRuns(evs) && DecodedInOrder(evs)
    ensures FoundInTime(hash, evs) <==> forall n :: 0 <= n <= |evs| ==> !Overtaken(hash, evs[..n])
    decreases |evs|
  {
    hide Overtaken, DecodedInOrder, ClockRuns;
    assert evs[..|evs|] == evs;
    if evs == [] {
      NobodyOvertaken(hash);
    } else {
      var n := |evs| - 1;
      FrontInOrder(evs);
      FoundInTimeExact(hash, evs[..n]);
      forall k | 0 <= k <= n
        ensures evs[..n][..k] == evs[..k]
      {
      }
      if evs[n].0.PeersFound? {
        if FoundInTime(hash, evs[..n]) {
          OutOfOrderExact(hash, evs);
        }
      } else {
        OnlyAnswers(hash, evs);
      }
    }
  }

  lemma NobodyOvertaken(hash: bytes -> Key)
    ensures !Overtaken(hash, [])
  {
  }

  lemma OnlyAnswers(hash: bytes -> Key, evs: seq<(Event, Time)>)
    requires evs != [] && !evs[|evs| - 1].0.PeersFound?
    ensures !Overtaken(hash, evs)
  {
  }

  lemma FrontInOrder(evs: seq<(Event, Time)>)
    requires evs != [] && ClockRuns(evs) && DecodedInOrder(evs)
    ensures ClockRuns(evs[..|evs| - 1]) && DecodedInOrder(evs[..|evs| - 1])
  {
    hide Chronological, NoLater;
  }

  /** The run in which expiry misses an item although the clock does not go back and answers are handled in the order
      decoded: b is named in an answer that is decoded, then a announces itself, and then the answer is handled. */
  function LateEvents(hash: bytes -> Key, key: Key, a: Address, b: Address, t: Time): seq<(Event, Time)>
    requires t >= 2
  {
    [(GetPeers(a), t - 2), (Announce(Token(hash, a, t - 2), a, key), t), (PeersFound(key, [Item(b, t - 1)]), t)]
  }

  lemma FoundLate(hash: bytes -> Key, key: Key, a: Address, b: Address, t: Time)
    requires 2 <= t < 0x1_0000_0000_0000
    ensures var evs := LateEvents(hash, key, a, b, t);
            var l, now := ItemsAt(Run(hash, evs), key), t - 1 + MAX_ITEM_AGE;
            && ClockRuns(evs) && DecodedInOrder(evs) && Overtaken(hash, evs)
            && l == [Item(a, t), Item(b, t - 1)]
            && Expired(l[1], now) && l[1] in Sample(Expire(Run(hash, evs), now), key, 50)
  {
    hide Token;
    var evs := LateEvents(hash, key, a, b, t);
    var token := Token(hash, a, t - 2);
    assert evs[..1] == [evs[0]] && evs[..1][..0] == evs[..0] && evs[..2][..1] == evs[..1];
    var d1 := Run(hash, evs[..1]);
    assert Run(hash, evs[..0]) == EMPTY;
    assert d1 == GenToken(EMPTY, hash, a, t - 2);
    assert TokenOk(d1, hash, token, a);
    var d2 := Run(hash, evs[..2]);
    assert d2 == Store(UseToken(d1, hash, token, a), key, Item(a, t));
    assert ItemsAt(d2, key) == [Item(a, t)];
    assert Overtakes(hash, evs, 1);
    StoreAllAppends(d2, key, [Item(b, t - 1)]);
    assert Run(hash, evs) == StoreAll(d2, key, [Item(b, t - 1)]);
    ListOfTwo(Run(hash, evs), key, a, b, t);
  }

  /** A list in which the second item is the older one. */
  lemma ListOfTwo(d: Db, key: Key, a: Address, b: Address, t: Time)
    requires 2 <= t < 0x1_0000_0000_0000 && ItemsAt(d, key) == [Item(a, t), Item(b, t - 1)]
    ensures var l, now := ItemsAt(d, key), t - 1 + MAX_ITEM_AGE;
            Expired(l[1], now) && l[1] in Sample(Expire(d, now), key, 50)
  {
    var l := ItemsAt(d, key);
    var now: Time := t - 1 + MAX_ITEM_AGE;
    assert DropExpired(l, now) == l;
    assert l[1] in l;
  }

  /** If the clock is set back an hour after a first announce, a second announce lies before it in time and
      behind it in the list, and outlives its age. */
  lemma ClockSetBack(addr: Address, t: Time)
    requires 0x100_0000 <= t < 0x200_0000
    ensures var l := [Item(addr, t), Item(addr, t - 3600 * 1000)];
            Expired(l[1], t) && !Expired(l[0], t) && DropExpired(l, t) == l
  {
  }

  class Database {
    var items: map<Key, seq<Item>>
    var tokens: map<Key, Time>
    const hash: bytes -> Key

    function Abs(): Db
      reads this
    {
      Db(items, tokens)
    }

    constructor (hash: bytes -> Key)
      ensures Abs() == EMPTY && this.hash == hash
    {
      items, tokens := map[], map[];
      this.hash := hash;
    }

    /** The value type of PtrMap is a list that store appends to. */
    method StoreItem(key: Key, dbi: Item)
      modifies this`items
      ensures Abs() == Store(old(Abs()), key, dbi)
    {
      if key !in items {
        items := items[key := []];
      }
      items := items[key := items[key] + [dbi]];
    }

    method SampleInto(key: Key, tdbl: seq<Item>, maxEntries: nat) returns (r: seq<Item>)
      ensures r == tdbl + Sample(Abs(), key, maxEntries)
    {
      r := tdbl;
      if key !in items {
        return;
      }
      var dbl := items[key];
      if |dbl| < maxEntries {
        for i := 0 to |dbl|
          invariant r == tdbl + dbl[..i]
        {
          r := r + [dbl[i]];
        }
      } else {
        var numAdded, i := 0, 0;
        while i != |dbl| && numAdded < maxEntries
          invariant numAdded == i <= maxEntries && r == tdbl + dbl[..i]
          decreases |dbl| - i
        {
          r := r + [dbl[i]];
          numAdded := numAdded + 1;
          i := i + 1;
        }
      }
    }

    method ExpireItems(now: Time)
      modifies this`items
      ensures Abs() == Expire(old(Abs()), now)
    {
      hide Expired;
      var left := items.Keys;
      while left != {}
        invariant left <= items.Keys == old(items).Keys
        invariant forall k :: k in items ==>
                    items[k] == if k in left then old(items)[k] else DropExpired(old(items)[k], now)
        decreases left
      {
        var key :| key in left;
        left := left - {key};
        var dbl := items[key];
        while |dbl| > 0 && Expired(dbl[0], now)
          invariant DropExpired(dbl, now) == DropExpired(old(items)[key], now)
          decreases |dbl|
        {
          dbl := dbl[1..];
        }
        items := items[key := dbl];
      }
    }

    method MakeToken(addr: Address, now: Time) returns (token: Key)
      modifies this`tokens
      ensures token == Token(hash, addr, now) && Abs() == GenToken(old(Abs()), hash, addr, now)
    {
      token := hash(TokenData(addr, now));
      tokens := tokens[token := now];
    }

    method CheckToken(token: Key, addr: Address) returns (ok: bool)
      modifies this`tokens
      ensures ok <==> TokenOk(old(Abs()), hash, token, addr)
      ensures Abs() == UseToken(old(Abs()), hash, token, addr)
    {
      if token !in tokens {
        return false;
      }
      var ts := tokens[token];
      var ct := hash(TokenData(addr, ts));
      if token != ct {
        return false;
      }
      tokens := tokens - {token};
      return true;
    }

    predicate Contains(key: Key)
      reads this
    {
      key in items
    }

    method Insert(key: Key)
      modifies this`items
      ensures Abs() == AddKey(old(Abs()), key) && Contains(key)
    {
      if key !in items {
        items := items[key := []];
      }
    }
  }
}
