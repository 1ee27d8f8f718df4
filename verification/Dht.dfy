/** The handlers of the DHT, which bring the table, the database, the messages and the tasks together (dht.cpp). */
module Dht {
  import opened Bytes
  import opened Keys
  import opened Entries
  import opened Bucket
  import opened Routing
  import opened Krpc
  import opened Pack
  import opened Database
  import C = KClosest
  import D = Database
  import R = Routing
  import Nodes
  import Rpc
  import StdMap
  import Scheduler
  import TaskManagers
  import W = Whole
  import M = Methods

  const MAX_SAMPLE: nat := 50

  function Closest(bs: Slots, target: Key): seq<Entry> {
    C.Values(C.Scan([], target, K, AllEntries(bs)))
  }

  /** The answer to find_node. */
  function NodesReply(bs: Slots, ourId: Key, mtid: byte, target: Key): Msg {
    FindNodeRsp(mtid, ourId, PackAll(Closest(bs, target)))
  }

  function Addresses(items: seq<Item>): (r: seq<Address>)
    ensures |r| == |items| && forall i :: 0 <= i < |r| ==> r[i] == items[i].addr
  {
    seq(|items|, i requires 0 <= i < |items| => items[i].addr)
  }

  /** The answer to get_peers: peers if there are any, and else nodes. */
  function PeersReply(bs: Slots, d: Db, ourId: Key, mtid: byte, infoHash: Key, token: Key): Msg {
    var l := Sample(d, infoHash, MAX_SAMPLE);
    if l == [] then GetPeersRsp(mtid, ourId, token, PackAll(Closest(bs, infoHash)), [])
    else GetPeersRsp(mtid, ourId, token, Container([], []), Addresses(l))
  }

  /** The peers given are the ones stored first, 50 at most. */
  ghost predicate PeersGiven(peers: seq<Address>, l: seq<Item>) {
    |peers| == (if |l| < 50 then |l| else 50) && forall i :: 0 <= i < |peers| ==> peers[i] == l[i].addr
  }

  lemma {:induction false} PackedSmall(es: seq<Entry>)
    ensures |PackAll(es).nodes| <= 26 * |es| && NoShortItem(PackAll(es))
    ensures forall i :: 0 <= i < |PackAll(es).nodes2| ==> |PackAll(es).nodes2[i]| == 38
  {
    if es != [] {
      PackedSmall(es[..|es| - 1]);
    }
  }

  /** A search among at most K never finds more than K. */
  lemma {:induction false} SearchBounded(target: Key, n: nat, es: seq<Entry>)
    requires n > 0
    ensures StdMap.Sorted(C.Scan([], target, n, es)) && |C.Scan([], target, n, es)| <= n
  {
    if es != [] {
      var m := C.Scan([], target, n, es[..|es| - 1]);
      SearchBounded(target, n, es[..|es| - 1]);
      OfferBounded(m, target, n, es[|es| - 1]);
    }
  }

  lemma OfferBounded(m: seq<(nat, Entry)>, target: Key, n: nat, e: Entry)
    requires n > 0 && StdMap.Sorted(m) && |m| <= n
    ensures var r := C.Offer(m, target, n, e); StdMap.Sorted(r) && |r| <= n
  {
    var d := Rank(target, e.id);
    C.OfferRankSorted(m, n, d, e);
    if |m| < n {
      StdMap.InsertInto(m, d, e);
    } else if d < m[|m| - 1].0 {
      C.OfferFull(m, n, d, e);
    }
  }

  /** The nodes in an answer are the closest ones: nearest first within each address family, 20 of the whole table or
      all of them if there are fewer, and nobody left out is nearer than anybody given. */
  ghost predicate ClosestGiven(c: Container, bs: Slots, target: Key, now: Time) {
    var l4, l6 := UnpackNodes(c.nodes, now), UnpackNodes2(c.nodes2, now);
    && C.NearestFirst(target, l4) && C.NearestFirst(target, l6)
    && |l4| + |l6| == Min(K, |AllEntries(bs)|)
    && forall e :: e in AllEntries(bs) ==>
         || Renewed(e, now) in l4 + l6
         || forall x :: x in l4 + l6 ==> Rank(target, x.id) < Rank(target, e.id)
  }

  lemma ClosestPacked(bs: Slots, ourId: Key, target: Key, now: Time)
    requires SlotsInv(bs, ourId) && forall i :: 0 <= i < 160 ==> DistinctIds(EntriesOf(bs[i]))
    ensures ClosestGiven(PackAll(Closest(bs, target)), bs, target, now)
    ensures |Closest(bs, target)| <= K && (Closest(bs, target) == [] <==> AllEntries(bs) == [])
  {
    hide C.Scan, AllEntries, SlotsInv, DistinctIds, PackAll, UnpackNodes, UnpackNodes2, Rank;
    var es := AllEntries(bs);
    TableDistinct(bs, ourId);
    SearchBounded(target, K, es);
    C.PackedSearch(target, K, es, now);
    var c := PackAll(Closest(bs, target));
    forall e | e in es
      ensures var l := UnpackNodes(c.nodes, now) + UnpackNodes2(c.nodes2, now);
              Renewed(e, now) in l || forall x :: x in l ==> Rank(target, x.id) < Rank(target, e.id)
    {
      GivenOrFarther(target, es, e, now);
    }
  }

  /** find_node from end to end. The table is in order and no bucket holds an id twice. Whoever called gets our
      answer off the wire, and in it the nodes closest to the target. */
  lemma FindNodeExchange(bs: Slots, ourId: Key, mtid: byte, target: Key, caller: Rpc.State, now: Time)
    requires SlotsInv(bs, ourId) && forall i :: 0 <= i < 160 ==> DistinctIds(EntriesOf(bs[i]))
    requires Rpc.FindMethod(caller, mtid) == Rpc.FIND_NODE
    ensures var m := NodesReply(bs, ourId, mtid, target);
            Receive(Encode(m), caller) == Made(m) && ClosestGiven(m.nodes, bs, target, now)
  {
    hide AllEntries, SlotsInv, DistinctIds, PackAll, Encode, Receive, NoShortItem, Closest, ClosestGiven;
    ClosestPacked(bs, ourId, target, now);
    AnswerArrives(Closest(bs, target), ourId, mtid, caller, target);
  }

  /** get_peers from end to end, when no peer is stored under the info hash: whoever called gets the nodes closest to
      the info hash. */
  lemma GetPeersExchange(bs: Slots, d: Db, ourId: Key, mtid: byte, infoHash: Key, token: Key, caller: Rpc.State,
                         now: Time)
    requires SlotsInv(bs, ourId) && forall i :: 0 <= i < 160 ==> DistinctIds(EntriesOf(bs[i]))
    requires Rpc.FindMethod(caller, mtid) == Rpc.GET_PEERS && ItemsAt(d, infoHash) == []
    ensures var m := PeersReply(bs, d, ourId, mtid, infoHash, token);
            && Receive(Encode(m), caller) == Made(m) && m.GetPeersRsp? && m.token == token && m.peers == []
            && ClosestGiven(m.nodes, bs, infoHash, now)
  {
    hide AllEntries, SlotsInv, DistinctIds, PackAll, Encode, Receive, NoShortItem, Closest, ClosestGiven;
    ClosestPacked(bs, ourId, infoHash, now);
    PeersReplyArrives(bs, d, ourId, mtid, infoHash, token, caller);
  }

  /** What the answer to a call is read as. The answer to a ping of a bucket is a ping response and that to a request of
      a lookup a find_node response; an announce task has made as many calls whose answers are read as get_peers
      responses, with their token, nodes and peers, as it has sent get_peers. */
  lemma AnswersRead(n: W.Node, ourId: Key, call: byte, id: Key, token: Key, c: Container,
                    peers: seq<Address>, t: Scheduler.Slot)
    requires W.Inv(n, ourId) && M.Typed(n) && call in n.tasks.rpc.active && W.Called(n, call) in n.owner
    requires M.Present(n.tasks, t) && NoShortItem(c) && (ContainsNodes(c) ==> peers == [])
    requires Sized(FindNodeRsp(call, id, c)) && Sized(GetPeersRsp(call, id, token, c, peers))
    ensures var rpc := n.tasks.rpc;
            var owner := n.owner[W.Called(n, call)];
            && (owner.ByBucket? ==> Receive(Encode(PingRsp(call, id)), rpc) == Made(PingRsp(call, id)))
            && (owner == W.ByTask(t.no) && t.job.Find? ==>
                  Receive(Encode(FindNodeRsp(call, id, c)), rpc) == Made(FindNodeRsp(call, id, c)))
            && (owner == W.ByTask(t.no) && t.job.Publish? ==>
                  if Rpc.FindMethod(rpc, call) == Rpc.GET_PEERS then
                    Receive(Encode(GetPeersRsp(call, id, token, c, peers)), rpc)
                    == Made(GetPeersRsp(call, id, token, c, peers))
                  else Receive(Encode(AnnounceRsp(call, id)), rpc) == Made(AnnounceRsp(call, id)))
    ensures t.job.Publish? ==>
              M.MadeBy(n.made, M.Submitted(n.tasks.rpc), t.no, Rpc.GET_PEERS) == |t.job.announce.asked|
  {
    hide W.Inv, M.Typed, Encode, Receive, NoShortItem, Sized, Rpc.FindMethod, M.Present;
    M.ActiveTyped(n, ourId, call);
    M.CallsCounted(n, t, Rpc.GET_PEERS);
    var rpc := n.tasks.rpc;
    SmallResponses(call, id);
    match Rpc.FindMethod(rpc, call)
    case PING => ResponseRoundTrip(PingRsp(call, id), rpc);
    case FIND_NODE => ResponseRoundTrip(FindNodeRsp(call, id, c), rpc);
    case GET_PEERS => ResponseRoundTrip(GetPeersRsp(call, id, token, c, peers), rpc);
    case ANNOUNCE_PEER => ResponseRoundTrip(AnnounceRsp(call, id), rpc);
    case NONE =>
  }

  lemma SmallResponses(call: byte, id: Key)
    ensures Sized(PingRsp(call, id)) && Sized(AnnounceRsp(call, id))
  {
  }

  lemma TableDistinct(bs: Slots, ourId: Key)
    requires SlotsInv(bs, ourId) && forall i :: 0 <= i < 160 ==> DistinctIds(EntriesOf(bs[i]))
    ensures DistinctIds(AllEntries(bs))
  {
    EntryPlaces(bs, ourId);
    DistinctByBucket(bs, ourId);
  }

  lemma AnswerArrives(found: seq<Entry>, ourId: Key, mtid: byte, caller: Rpc.State, target: Key)
    requires |found| <= K && Rpc.FindMethod(caller, mtid) == Rpc.FIND_NODE
    ensures var m := FindNodeRsp(mtid, ourId, PackAll(found));
            Receive(Encode(m), caller) == Made(m)
  {
    PackedSmall(found);
    ResponseRoundTrip(FindNodeRsp(mtid, ourId, PackAll(found)), caller);
  }

  /** What comes out of the packed search is from the search. */
  lemma {:induction false} FamilyFrom(es: seq<Entry>, v4: bool, now: Time)
    ensures forall x :: x in OfFamily(es, v4, now) ==> exists i :: 0 <= i < |es| && es[i].id == x.id
  {
    if es != [] {
      var n := |es| - 1;
      FamilyFrom(es[..n], v4, now);
      forall x | x in OfFamily(es, v4, now)
        ensures exists i :: 0 <= i < |es| && es[i].id == x.id
      {
        if x in OfFamily(es[..n], v4, now) {
          var i :| 0 <= i < n && es[..n][i].id == x.id;
          assert es[i].id == x.id;
        } else {
          assert es[n].id == x.id;
        }
      }
    }
  }

  lemma GivenOrFarther(target: Key, es: seq<Entry>, e: Entry, now: Time)
    requires DistinctIds(es) && e in es
    ensures var c := PackAll(C.Values(C.Scan([], target, K, es)));
            var l := UnpackNodes(c.nodes, now) + UnpackNodes2(c.nodes2, now);
            Renewed(e, now) in l || forall x :: x in l ==> Rank(target, x.id) < Rank(target, e.id)
  {
    hide C.Scan, PackAll, UnpackNodes, UnpackNodes2, DistinctIds, OfFamily, Rank;
    var m := C.Scan([], target, K, es);
    var found := C.Values(m);
    C.PackedSearch(target, K, es, now);
    UnpackAllPacked(found, now);
    C.ScanFromEntries(target, K, es);
    if i :| 0 <= i < |m| && m[i].1 == e {
      assert found[i] == e;
    } else {
      forall x | x in OfFamily(found, true, now) + OfFamily(found, false, now)
        ensures Rank(target, x.id) < Rank(target, e.id)
      {
        FamilyFrom(found, true, now);
        FamilyFrom(found, false, now);
        var i :| 0 <= i < |found| && found[i].id == x.id;
        assert m[i] in m && m[i].0 == Rank(target, x.id);
        KeptOrFarther(target, K, es, e, i);
      }
    }
  }

  /** get_peers and announce_peer from end to end: whoever asked reads our answer with its token off the wire. Then
      anything happens to the database; but no announce is let in with this token, and no token collides with it.
      An announce with it from the same address is still let in, the peer is the newest one under the info hash,
      and the token is spent. */
  lemma TokenExchange(bs: Slots, ourId: Key, hash: bytes -> Key, mtid: byte, infoHash: Key, from: Address, now: Time,
                      before: seq<(D.Event, Time)>, between: seq<(D.Event, Time)>, caller: Rpc.State, later: Time)
    requires Rpc.FindMethod(caller, mtid) == Rpc.GET_PEERS
    requires var evs := before + [(D.GetPeers(from), now)] + between;
             && NoClash(hash, evs, from, now)
             && forall i :: |before| < i < |evs| ==> !UsedAt(hash, evs, i, Token(hash, from, now))
    ensures var token, d := Token(hash, from, now), D.Run(hash, before);
            var m := PeersReply(bs, d, ourId, mtid, infoHash, token);
            && Receive(Encode(m), caller) == Made(m) && m.token == token
            && PeersGiven(m.peers, ItemsAt(d, infoHash))
            && var d1 := D.Run(hash, before + [(D.GetPeers(from), now)] + between);
               var d2 := D.Step(d1, hash, D.Announce(token, from, infoHash), later);
               && TokenOk(d1, hash, token, from) && !TokenOk(d2, hash, token, from)
               && ItemsAt(d2, infoHash) == ItemsAt(d1, infoHash) + [Item(from, later)]
               && (|ItemsAt(d1, infoHash)| < MAX_SAMPLE ==>
                     var l := Sample(d2, infoHash, MAX_SAMPLE); l != [] && l[|l| - 1] == Item(from, later))
  {
    hide Encode, Receive, PeersReply, TokenOk, D.Step, D.Run, Sample, UsedAt, PeersGiven;
    var token := Token(hash, from, now);
    var evs := before + [(D.GetPeers(from), now)] + between;
    PeersReplyArrives(bs, D.Run(hash, before), ourId, mtid, infoHash, token, caller);
    assert evs[|before|] == (D.GetPeers(from), now);
    assert HeldSince(hash, evs, |before|, token) && Held(hash, evs, token);
    GoodUntilUsed(hash, evs, from, now);
    TokenLetsIn(D.Run(hash, evs), hash, infoHash, from, token, later);
  }

  lemma PeersReplyArrives(bs: Slots, d: Db, ourId: Key, mtid: byte, infoHash: Key, token: Key, caller: Rpc.State)
    requires Rpc.FindMethod(caller, mtid) == Rpc.GET_PEERS
    ensures var m := PeersReply(bs, d, ourId, mtid, infoHash, token);
            && Receive(Encode(m), caller) == Made(m) && m.GetPeersRsp? && m.token == token
            && PeersGiven(m.peers, ItemsAt(d, infoHash))
  {
    hide C.Scan, AllEntries, PackAll, Encode, Receive, NoShortItem, Sample, Rpc.FindMethod, PeersGiven;
    SearchBounded(infoHash, K, AllEntries(bs));
    PackedSmall(Closest(bs, infoHash));
    NoItems();
    SampleGiven(d, infoHash);
    ResponseRoundTrip(PeersReply(bs, d, ourId, mtid, infoHash, token), caller);
  }

  lemma SampleGiven(d: Db, infoHash: Key)
    ensures PeersGiven(Addresses(Sample(d, infoHash, MAX_SAMPLE)), ItemsAt(d, infoHash))
    ensures Sample(d, infoHash, MAX_SAMPLE) == [] <==> ItemsAt(d, infoHash) == []
  {
  }

  lemma NoItems()
    ensures NoShortItem(Container([], []))
  {
  }

  lemma TokenLetsIn(d: Db, hash: bytes -> Key, infoHash: Key, from: Address, token: Key, later: Time)
    requires TokenOk(d, hash, token, from)
    ensures var d2 := D.Step(d, hash, D.Announce(token, from, infoHash), later);
            && ItemsAt(d2, infoHash) == ItemsAt(d, infoHash) + [Item(from, later)]
            && !TokenOk(d2, hash, token, from)
            && (|ItemsAt(d, infoHash)| < MAX_SAMPLE ==>
                  var l := Sample(d2, infoHash, MAX_SAMPLE); l != [] && l[|l| - 1] == Item(from, later))
  {
    hide TokenData;
  }

  /** What a message does to the table, the server and the tasks: it is received, a ping may be sent because of it, and
      with the third message the node starts to look for itself, unless it does so already. */
  function Heard(n: W.Node, ourId: Key, from: Address, id: Key, now: Time, lookingUp: bool): W.Node {
    var n1 := W.Hear(n, ourId, from, id, now);
    if n1.table.numReceives == 3 && !lookingUp then W.StartTask(n1, false, Closest(n1.table.buckets, ourId)) else n1
  }

  /** Hearing a message leaves the node as a whole in order. */
  lemma HeardKeeps(n: W.Node, ourId: Key, from: Address, id: Key, now: Time, lookingUp: bool)
    requires W.Inv(n, ourId) && n.tasks.added < UINT32
    ensures W.Inv(Heard(n, ourId, from, id, now, lookingUp), ourId)
  {
    hide W.Inv, W.Hear, W.StartTask, Closest;
    W.HearKeeps(n, ourId, from, id, now);
    var n1 := W.Hear(n, ourId, from, id, now);
    SameAdded(n, ourId, from, id, now);
    W.NextIdFree(n1, ourId);
    W.NewTaskKeeps(n1, ourId, false, Closest(n1.table.buckets, ourId));
  }

  lemma SameAdded(n: W.Node, ourId: Key, from: Address, id: Key, now: Time)
    ensures W.Hear(n, ourId, from, id, now).tasks.added == n.tasks.added
  {
  }

  /** The DHT object. A handler returns the answer it sends, if any. */
  class DHT {
    const node: Nodes.Node
    const db: D.Database
    const tman: TaskManagers.TaskManager
    var rpc: Rpc.State
    var running: bool
    var lookingUp: bool
    ghost var owner: map<nat, W.Owner>
    ghost var made: map<nat, W.Owner>

    ghost predicate Valid()
      reads node.bucket
    {
      node.Valid()
    }

    /** The table, the tasks, the server and the owners of its calls. */
    ghost function All(): W.Node
      requires Valid()
      reads this, tman, node, node.bucket, node.InUse()
    {
      W.Node(node.Abs(), tman.Abs(rpc), owner, made)
    }

    constructor (node: Nodes.Node, db: D.Database, tman: TaskManagers.TaskManager)
      requires node.Valid()
      ensures Valid() && running && !lookingUp && this.node == node && this.db == db && this.tman == tman
      ensures rpc == Rpc.EMPTY && owner == map[] && made == map[]
    {
      this.node, this.db, this.tman, rpc, running := node, db, tman, Rpc.EMPTY, true;
      lookingUp, owner, made := false, map[], map[];
    }

    /** Node::received, with the ping and the lookup of our own id that come of it. */
    method Receive(from: Address, id: Key, now: Time)
      requires Valid() && running && id != node.ourId
      modifies this`rpc, this`owner, this`made, this`lookingUp, node, node.bucket, node.InUse(), tman
      ensures Valid() && All() == Heard(old(All()), node.ourId, from, id, now, old(lookingUp))
      ensures lookingUp <==>
                old(lookingUp) || (node.numReceives == 3 && Closest(node.Slots(), node.ourId) != [])
    {
      hide R.Received, R.Index, R.Pinged, W.StartTask, Closest, Rpc.Submit;
      ghost var n := All();
      ghost var t := node.Abs();
      var own, pinged := node.Received(from, id, now, rpc.issued);
      owner := W.OwnerAfterPing(owner, pinged, rpc.issued, R.Index(id, node.ourId));
      made := W.OwnerAfterPing(made, pinged, rpc.issued, R.Index(id, node.ourId));
      if pinged {
        rpc := Rpc.Submit(rpc, Rpc.PING);
      }
      assert node.Abs() == R.Received(t, node.ourId, from, id, now, n.tasks.rpc.issued);
      assert All() == W.Hear(n, node.ourId, from, id, now);
      if own && !lookingUp {
        lookingUp := LookUp(node.ourId);
      }
    }

    method Ping(r: Msg, from: Address, now: Time) returns (rsp: Option<Msg>)
      requires Valid() && r.PingReq?
      modifies this`rpc, this`owner, this`made, this`lookingUp, node, node.bucket, node.InUse(), tman
      ensures Valid()
      ensures !running || r.id == node.ourId ==> rsp == None && All() == old(All())
      ensures running && r.id != node.ourId ==>
                && rsp == Some(PingRsp(r.mtid, node.ourId))
                && All() == Heard(old(All()), node.ourId, from, r.id, now, old(lookingUp))
    {
      hide Heard;
      if !running || r.id == node.ourId {
        return None;
      }
      rsp := Some(PingRsp(r.mtid, node.ourId));
      Receive(from, r.id, now);
    }

    method FindNode(r: Msg, from: Address, now: Time) returns (rsp: Option<Msg>)
      requires Valid() && r.FindNodeReq?
      modifies this`rpc, this`owner, this`made, this`lookingUp, node, node.bucket, node.InUse(), tman
      ensures Valid()
      ensures !running || r.id == node.ourId ==> rsp == None && All() == old(All())
      ensures running && r.id != node.ourId ==>
                && All() == Heard(old(All()), node.ourId, from, r.id, now, old(lookingUp))
                && rsp == Some(NodesReply(All().table.buckets, node.ourId, r.mtid, r.target))
    {
      hide Heard, Closest;
      if !running || r.id == node.ourId {
        return None;
      }
      Receive(from, r.id, now);
      ghost var n := All();
      var cnt := PackClosest(r.target);
      assert All() == n;
      rsp := Some(FindNodeRsp(r.mtid, node.ourId, cnt));
    }

    method PackClosest(target: Key) returns (cnt: Container)
      requires Valid()
      ensures cnt == PackAll(Closest(node.Slots(), target))
    {
      hide AllEntries, C.Scan;
      ghost var bs := node.Slots();
      var kns := new C.KClosestNodesSearch(target, K);
      node.FindKClosestNodes(kns);
      assert node.Slots() == bs;
      cnt := kns.Pack(Container([], []));
      assert node.Slots() == bs;
    }

    method GetPeers(r: Msg, from: Address, now: Time) returns (rsp: Option<Msg>)
      requires Valid() && r.GetPeersReq?
      modifies this`rpc, this`owner, this`made, this`lookingUp, node, node.bucket, node.InUse(), tman, db`tokens
      ensures Valid()
      ensures !running || r.id == node.ourId ==>
                rsp == None && All() == old(All()) && db.Abs() == old(db.Abs())
      ensures running && r.id != node.ourId ==>
                && All() == Heard(old(All()), node.ourId, from, r.id, now, old(lookingUp))
                && db.Abs() == GenToken(old(db.Abs()), db.hash, from, now)
                && rsp == Some(PeersReply(All().table.buckets, old(db.Abs()), node.ourId, r.mtid, r.infoHash,
                                          Token(db.hash, from, now)))
    {
      hide Heard, Closest, TokenData, Sample;
      if !running || r.id == node.ourId {
        return None;
      }
      Receive(from, r.id, now);
      ghost var n := All();
      var dbl := db.SampleInto(r.infoHash, [], MAX_SAMPLE);
      assert dbl == Sample(db.Abs(), r.infoHash, MAX_SAMPLE);
      var token := db.MakeToken(from, now);
      if |dbl| == 0 {
        var cnt := PackClosest(r.infoHash);
        rsp := Some(GetPeersRsp(r.mtid, node.ourId, token, cnt, []));
      } else {
        rsp := Some(GetPeersRsp(r.mtid, node.ourId, token, Container([], []), Addresses(dbl)));
      }
      assert All() == n;
    }

    /** announce(AnnounceReq*): the peer is stored under the address the message came from; the port in the
        message is not looked at. */
    method Announced(r: Msg, from: Address, now: Time) returns (rsp: Option<Msg>)
      requires Valid() && r.AnnounceReq?
      modifies this`rpc, this`owner, this`made, this`lookingUp, node, node.bucket, node.InUse(), tman, db
      ensures Valid()
      ensures !running || r.id == node.ourId ==>
                rsp == None && All() == old(All()) && db.Abs() == old(db.Abs())
      ensures running && r.id != node.ourId ==>
                && All() == Heard(old(All()), node.ourId, from, r.id, now, old(lookingUp))
                && db.Abs() == D.Step(old(db.Abs()), db.hash, D.Announce(r.token, from, r.infoHash), now)
                && rsp == if TokenOk(old(db.Abs()), db.hash, r.token, from)
                          then Some(AnnounceRsp(r.mtid, node.ourId)) else None
    {
      hide Heard, Token;
      if !running || r.id == node.ourId {
        return None;
      }
      Receive(from, r.id, now);
      ghost var n := All();
      var ok := db.CheckToken(r.token, from);
      if !ok {
        assert All() == n;
        return None;
      }
      db.StoreItem(r.infoHash, Item(from, now));
      assert All() == n;
      rsp := Some(AnnounceRsp(r.mtid, node.ourId));
    }

    /** Starts or queues a task with the nodes found, if any were found. */
    method StartTask(publish: bool, kns: seq<Entry>)
      requires Valid() && kns != []
      modifies this`rpc, this`owner, this`made, tman
      ensures Valid() && All() == W.StartTask(old(All()), publish, kns)
    {
      hide Scheduler.Begin, Scheduler.Calls, W.Assign, Rpc.SubmitAll;
      ghost var n := All();
      var can := tman.CanStartTask(rpc);
      var job := Scheduler.Begin(publish, kns, !can);
      rpc := Rpc.SubmitAll(rpc, Scheduler.Calls(Scheduler.Blank(publish), job));
      assert tman.Abs(rpc) == n.tasks.(rpc := rpc);
      tman.AddTask(job, rpc);
      owner := W.Assign(owner, n.tasks.rpc.issued, rpc.issued, W.ByTask(n.tasks.added));
      made := W.Assign(made, n.tasks.rpc.issued, rpc.issued, W.ByTask(n.tasks.added));
      assert node.Abs() == n.table;
    }

    /** announce(info_hash, port): the key is put into the database so that peers found for it can be stored. */
    method Announce(infoHash: Key) returns (started: bool)
      requires Valid()
      modifies this`rpc, this`owner, this`made, tman, db`items
      ensures Valid() && (started <==> running && Closest(node.Slots(), infoHash) != [])
      ensures if started then
                && All() == W.StartTask(old(All()), true, Closest(old(node.Slots()), infoHash))
                && db.Abs() == D.Step(old(db.Abs()), db.hash, OwnAnnounce(infoHash), 0)
              else All() == old(All()) && db.Abs() == old(db.Abs())
    {
      hide W.StartTask, AllEntries, C.Scan;
      ghost var n := All();
      if !running {
        return false;
      }
      var found := FindClosest(infoHash);
      if |found| == 0 {
        return false;
      }
      StartTask(true, found);
      ghost var r := All();
      assert node.Slots() == n.table.buckets;
      if !db.Contains(infoHash) {
        db.Insert(infoHash);
      }
      assert All() == r;
      return true;
    }

    method FindClosest(target: Key) returns (found: seq<Entry>)
      requires Valid()
      ensures found == Closest(node.Slots(), target) && All() == old(All())
    {
      hide AllEntries, C.Scan;
      ghost var bs := node.Slots();
      var kns := new C.KClosestNodesSearch(target, K);
      node.FindKClosestNodes(kns);
      found := C.Values(kns.emap);
      assert node.Slots() == bs;
    }

    /** findNode(id) */
    method LookUp(id: Key) returns (started: bool)
      requires Valid()
      modifies this`rpc, this`owner, this`made, tman
      ensures Valid() && (started <==> running && Closest(node.Slots(), id) != [])
      ensures running ==> All() == W.StartTask(old(All()), false, Closest(old(node.Slots()), id))
      ensures !running ==> All() == old(All())
    {
      hide W.StartTask, AllEntries, C.Scan;
      ghost var n := All();
      if !running {
        return false;
      }
      var found := FindClosest(id);
      if |found| == 0 {
        NoTask(n, false);
        return false;
      }
      StartTask(false, found);
      assert node.Slots() == n.table.buckets;
      return true;
    }

    /** refreshBucket: only the bucket itself is searched. */
    method RefreshBucket(id: Key, i: nat) returns (started: bool)
      requires Valid() && i < 160 && node.bucket[i] != null
      modifies this`rpc, this`owner, this`made, tman
      ensures Valid()
      ensures var found := C.Values(C.Scan([], id, K, EntriesOf(old(node.Slot(i)))));
              && (started <==> running && found != [])
              && All() == if started then W.StartTask(old(All()), false, found) else old(All())
    {
      hide W.StartTask, C.Scan;
      ghost var n := All();
      if !running {
        return false;
      }
      var kns := new C.KClosestNodesSearch(id, K);
      node.bucket[i].FindKClosestNodes(kns);
      var found := C.Values(kns.emap);
      assert All() == n;
      if |found| == 0 {
        return false;
      }
      StartTask(false, found);
      return true;
    }
  }

  lemma NoTask(n: W.Node, publish: bool)
    ensures W.StartTask(n, publish, []) == n
  {
    W.AssignNothing(n.owner, n.tasks.rpc.issued, W.ByTask(n.tasks.added));
    W.AssignNothing(n.made, n.tasks.rpc.issued, W.ByTask(n.tasks.added));
  }
}
