/** The messages of the DHT protocol and their bencoded form (rpcmsg.cpp, bnode.cpp; the KRPC section of BEP 5). */
module Krpc {
  import opened Bytes
  import opened Keys
  import opened Entries
  import opened Pack
  import opened Bencode
  import Rpc

  /** "t", "q", "r", "y", "a", "e". */
  const TID: bytes := [0x74]
  const REQ: bytes := [0x71]
  const RSP: bytes := [0x72]
  const TYP: bytes := [0x79]
  const ARG: bytes := [0x61]
  const ERR: bytes := [0x65]

  /** "id", "target", "info_hash", "port", "token", "nodes", "nodes2", "values". */
  const ID: bytes := [0x69, 0x64]
  const TARGET: bytes := [0x74, 0x61, 0x72, 0x67, 0x65, 0x74]
  const INFO_HASH: bytes := [0x69, 0x6E, 0x66, 0x6F, 0x5F, 0x68, 0x61, 0x73, 0x68]
  const PORT: bytes := [0x70, 0x6F, 0x72, 0x74]
  const TOKEN: bytes := [0x74, 0x6F, 0x6B, 0x65, 0x6E]
  const NODES: bytes := [0x6E, 0x6F, 0x64, 0x65, 0x73]
  const NODES2: bytes := [0x6E, 0x6F, 0x64, 0x65, 0x73, 0x32]
  const VALUES: bytes := [0x76, 0x61, 0x6C, 0x75, 0x65, 0x73]

  /** "ping", "find_node", "get_peers", "announce_peer". */
  const PING: bytes := [0x70, 0x69, 0x6E, 0x67]
  const FIND_NODE: bytes := [0x66, 0x69, 0x6E, 0x64, 0x5F, 0x6E, 0x6F, 0x64, 0x65]
  const GET_PEERS: bytes := [0x67, 0x65, 0x74, 0x5F, 0x70, 0x65, 0x65, 0x72, 0x73]
  const ANNOUNCE_PEER: bytes := [0x61, 0x6E, 0x6E, 0x6F, 0x75, 0x6E, 0x63, 0x65, 0x5F, 0x70, 0x65, 0x65, 0x72]

  /** The messages, without the time stamps of the peers in a get_peers response. */
  datatype Msg =
    | PingReq(mtid: byte, id: Key)
    | FindNodeReq(mtid: byte, id: Key, target: Key)
    | GetPeersReq(mtid: byte, id: Key, infoHash: Key)
    | AnnounceReq(mtid: byte, id: Key, infoHash: Key, port: Port, token: Key)
    | PingRsp(mtid: byte, id: Key)
    | FindNodeRsp(mtid: byte, id: Key, nodes: Container)
    | GetPeersRsp(mtid: byte, id: Key, token: Key, nodes: Container, peers: seq<Address>)
    | AnnounceRsp(mtid: byte, id: Key)
    | ErrMsg(mtid: byte, id: Key, text: bytes)
  {
    predicate IsRequest() {
      PingReq? || FindNodeReq? || GetPeersReq? || AnnounceReq?
    }

    predicate IsResponse() {
      PingRsp? || FindNodeRsp? || GetPeersRsp? || AnnounceRsp?
    }

    function Method(): Rpc.Method {
      if PingReq? || PingRsp? then Rpc.PING
      else if FindNodeReq? || FindNodeRsp? then Rpc.FIND_NODE
      else if GetPeersReq? || GetPeersRsp? then Rpc.GET_PEERS
      else if AnnounceReq? || AnnounceRsp? then Rpc.ANNOUNCE_PEER
      else Rpc.NONE
    }
  }

  predicate ContainsNodes(c: Container) {
    c.nodes != [] || c.nodes2 != []
  }

  function Strings(ss: seq<bytes>): seq<Tree> {
    seq(|ss|, i requires 0 <= i < |ss| => TStr(ss[i]))
  }

  /** DBItem::pack. */
  function PeerBytes(peers: seq<Address>): seq<bytes> {
    seq(|peers|, i requires 0 <= i < |peers| => AddressBytes(peers[i]))
  }

  /** The arguments of a request and the results of a response, in the order they are written. */
  function Arguments(m: Msg): seq<Member> {
    match m
    case PingReq(_, id) => [Member(ID, TStr(id))]
    case FindNodeReq(_, id, target) => [Member(ID, TStr(id)), Member(TARGET, TStr(target))]
    case GetPeersReq(_, id, hash) => [Member(ID, TStr(id)), Member(INFO_HASH, TStr(hash))]
    case AnnounceReq(_, id, hash, port, token) =>
      [Member(ID, TStr(id)), Member(INFO_HASH, TStr(hash)), Member(PORT, TInt(port)), Member(TOKEN, TStr(token))]
    case PingRsp(_, id) => [Member(ID, TStr(id))]
    case FindNodeRsp(_, id, c) =>
      [Member(ID, TStr(id)), Member(NODES, TStr(c.nodes))]
      + (if c.nodes2 == [] then [] else [Member(NODES2, TList(Strings(c.nodes2)))])
    case GetPeersRsp(_, id, token, c, peers) =>
      if ContainsNodes(c) then
        [Member(ID, TStr(id)), Member(NODES, TStr(c.nodes))]
        + (if c.nodes2 == [] then [] else [Member(NODES2, TList(Strings(c.nodes2)))])
        + [Member(TOKEN, TStr(token))]
      else
        [Member(ID, TStr(id)), Member(TOKEN, TStr(token)), Member(VALUES, TList(Strings(PeerBytes(peers))))]
    case AnnounceRsp(_, id) => [Member(ID, TStr(id))]
    case ErrMsg(_, _, _) => []
  }

  function MethodName(m: Msg): bytes
    requires m.IsRequest()
  {
    match m
    case PingReq(_, _) => PING
    case FindNodeReq(_, _, _) => FIND_NODE
    case GetPeersReq(_, _, _) => GET_PEERS
    case AnnounceReq(_, _, _, _, _) => ANNOUNCE_PEER
  }

  function Fields(m: Msg): seq<Member>
    requires m.IsRequest() || m.IsResponse()
  {
    if m.IsRequest() then
      [Member(ARG, TDict(Arguments(m))), Member(REQ, TStr(MethodName(m))), Member(TID, TStr([m.mtid])),
       Member(TYP, TStr(REQ))]
    else
      [Member(RSP, TDict(Arguments(m))), Member(TID, TStr([m.mtid])), Member(TYP, TStr(RSP))]
  }

  /** The encode methods of all messages. */
  function Encode(m: Msg): bytes
    requires m.IsRequest() || m.IsResponse()
  {
    Emit(TDict(Fields(m)))
  }

  /** BDictNode::getData: the first entry with the key, which may hold no node. */
  function GetData(es: seq<DictEntry>, key: bytes): Option<Node> {
    if es == [] then None else if es[0].key == key then es[0].node else GetData(es[1..], key)
  }

  /** getValue, getDict and getList: the node if it is of that kind. */
  function GetValue(es: seq<DictEntry>, key: bytes): Option<Value> {
    match GetData(es, key)
    case Some(ValueNode(_, _, v)) => Some(v)
    case _ => None
  }

  function GetDict(es: seq<DictEntry>, key: bytes): Option<seq<DictEntry>> {
    match GetData(es, key)
    case Some(DictNode(_, _, entries)) => Some(entries)
    case _ => None
  }

  function GetList(es: seq<DictEntry>, key: bytes): Option<seq<Node>> {
    match GetData(es, key)
    case Some(ListNode(_, _, items)) => Some(items)
    case _ => None
  }

  /** Value::toByteArray: numbers have no bytes. */
  function ToBytes(v: Value): bytes {
    if v.Str? then v.s else []
  }

  /** Value::toInt, converted to 16 bits. The field is not initialised for a 64-bit value; it reads as 0 here. */
  function ToPort(v: Value): Port {
    if v.Int? then v.i % 0x1_0000 else 0
  }

  /** Key(QByteArray): the first 20 bytes, and zeros for those that are missing. */
  function KeyOf(ba: bytes): Key {
    seq(20, i => if 0 <= i < |ba| then ba[i] else 0)
  }

  /** Every item of a list as a byte string; None is the exception of getByteArray. */
  function AllBytes(items: seq<Node>): Option<seq<bytes>> {
    if items == [] then Some([])
    else if !items[0].ValueNode? || !items[0].value.Str? then None
    else
      match AllBytes(items[1..])
      case None => None
      case Some(rest) => Some([items[0].value.s] + rest)
  }

  /** A peer of 6 or 18 bytes; anything else is skipped. */
  function PeerOf(d: bytes): seq<Address> {
    if |d| == 6 then [V4(d[..4], PortAt(d, 4))]
    else if |d| == 18 then [V6(d[..16], PortAt(d, 16))]
    else []
  }

  function PeersOf(ds: seq<bytes>): seq<Address> {
    if ds == [] then [] else PeersOf(ds[..|ds| - 1]) + PeerOf(ds[|ds| - 1])
  }

  function AddNodes(c: Container, items: seq<bytes>): Container {
    if items == [] then c else AddNodes(c, items[..|items| - 1]).AddNode(items[|items| - 1])
  }

  /** An exception, a null message or a message. */
  datatype Outcome = Threw | Null | Made(msg: Msg)

  function ParseReq(d: seq<DictEntry>): Outcome {
    match (GetValue(d, REQ), GetDict(d, ARG), GetValue(d, TID))
    case (Some(q), Some(args), Some(tid)) =>
      (match GetValue(args, ID)
       case None => Null
       case Some(idv) =>
         var t := ToBytes(tid);
         if t == [] then Null
         else
           var id, mtid := KeyOf(ToBytes(idv)), t[0];
           if ToBytes(q) == PING then Made(PingReq(mtid, id))
           else if ToBytes(q) == FIND_NODE then
             match GetValue(args, TARGET)
             case Some(target) => Made(FindNodeReq(mtid, id, KeyOf(ToBytes(target))))
             case None => Null
           else if ToBytes(q) == GET_PEERS then
             match GetValue(args, INFO_HASH)
             case Some(hash) => Made(GetPeersReq(mtid, id, KeyOf(ToBytes(hash))))
             case None => Null
           else if ToBytes(q) == ANNOUNCE_PEER then
             match (GetValue(args, INFO_HASH), GetValue(args, PORT), GetValue(args, TOKEN))
             case (Some(hash), Some(port), Some(token)) =>
               Made(AnnounceReq(mtid, id, KeyOf(ToBytes(hash)), ToPort(port), KeyOf(ToBytes(token))))
             case _ => Null
           else Null)
    case _ => Null
  }

  /** The nodes and nodes2 of a response; None is an exception. */
  function NodesOf(args: seq<DictEntry>): Option<Container> {
    var nodes := match GetValue(args, NODES) case Some(v) => ToBytes(v) case None => [];
    match GetList(args, NODES2)
    case None => Some(Container(nodes, []))
    case Some(l) =>
      match AllBytes(l)
      case None => None
      case Some(items) => Some(AddNodes(Container(nodes, []), items))
  }

  function ParseGetPeersRsp(args: seq<DictEntry>, mtid: byte, id: Key): Outcome {
    match GetValue(args, TOKEN)
    case None => Null
    case Some(tv) =>
      var token := KeyOf(ToBytes(tv));
      match GetList(args, VALUES)
      case Some(l) =>
        (match AllBytes(l)
         case None => Threw
         case Some(ds) => Made(GetPeersRsp(mtid, id, token, Container([], []), PeersOf(ds))))
      case None =>
        if GetValue(args, NODES).None? && GetList(args, NODES2).None? then Null
        else
          match NodesOf(args)
          case None => Threw
          case Some(c) => Made(GetPeersRsp(mtid, id, token, c, []))
  }

  /** ParseRsp with the method of the call. */
  function ParseRspAs(d: seq<DictEntry>, meth: Rpc.Method, mtid: byte): Outcome {
    match GetDict(d, RSP)
    case None => Null
    case Some(args) =>
      match GetValue(args, ID)
      case None => Null
      case Some(idv) =>
        var id := KeyOf(ToBytes(idv));
        match meth
        case PING => Made(PingRsp(mtid, id))
        case FIND_NODE =>
          if GetValue(args, NODES).None? && GetList(args, NODES2).None? then Null
          else
            (match NodesOf(args)
             case None => Threw
             case Some(c) => Made(FindNodeRsp(mtid, id, c)))
        case GET_PEERS => ParseGetPeersRsp(args, mtid, id)
        case ANNOUNCE_PEER => Made(AnnounceRsp(mtid, id))
        case NONE => Null
  }

  /** ParseRsp with the server, which knows the calls. */
  function ParseRsp(d: seq<DictEntry>, srv: Rpc.State): Outcome {
    match (GetDict(d, RSP), GetValue(d, TID))
    case (Some(_), Some(tid)) =>
      var t := ToBytes(tid);
      if t == [] then Null
      else if Rpc.FindMethod(srv, t[0]) == Rpc.NONE then Null
      else ParseRspAs(d, Rpc.FindMethod(srv, t[0]), t[0])
    case _ => Null
  }

  function ParseErr(d: seq<DictEntry>): Outcome {
    match (GetValue(d, RSP), GetDict(d, ARG), GetValue(d, TID))
    case (Some(r), Some(args), Some(tid)) =>
      (match GetValue(args, ID)
       case None => Null
       case Some(idv) =>
         var t := ToBytes(tid);
         if t == [] then Null else Made(ErrMsg(t[0], KeyOf(ToBytes(idv)), ToBytes(r))))
    case _ => Null
  }

  function MakeRPCMsg(d: seq<DictEntry>, srv: Rpc.State): Outcome {
    match GetValue(d, TYP)
    case None => Null
    case Some(y) =>
      if ToBytes(y) == REQ then ParseReq(d)
      else if ToBytes(y) == RSP then ParseRsp(d, srv)
      else if ToBytes(y) == ERR then ParseErr(d)
      else Null
  }

  /** A packet: decoded, and made a message if it is a dictionary (RPCServerThread::handlePacket). */
  function Receive(data: bytes, srv: Rpc.State): Outcome {
    match Decode(data, 0)
    case Done(Some(DictNode(_, _, entries)), _) => MakeRPCMsg(entries, srv)
    case Fail => Threw
    case _ => Null
  }

  /** The first member with a key is found, as the node of its tree. */
  lemma {:induction false} Lookup(es: seq<Member>, off: nat, i: nat) returns (o: nat)
    requires i < |es| && forall j :: 0 <= j < i ==> es[j].key != es[i].key
    ensures GetData(EntriesAt(es, off), es[i].key) == Some(NodeAt(es[i].tree, o))
    decreases i
  {
    o := off + |EmitStr(es[0].key)|;
    var rest := EntriesAt(es[1..], o + |Emit(es[0].tree)|);
    assert EntriesAt(es, off)[1..] == rest;
    if i > 0 {
      o := Lookup(es[1..], o + |Emit(es[0].tree)|, i - 1);
    }
  }

  lemma {:induction false} LookupMissing(es: seq<Member>, off: nat, key: bytes)
    requires forall j :: 0 <= j < |es| ==> es[j].key != key
    ensures GetData(EntriesAt(es, off), key) == None
    decreases |es|
  {
    if es != [] {
      var o := off + |EmitStr(es[0].key)| + |Emit(es[0].tree)|;
      assert EntriesAt(es, off)[1..] == EntriesAt(es[1..], o);
      LookupMissing(es[1..], o, key);
    }
  }

  lemma FieldValue(es: seq<Member>, off: nat, i: nat)
    requires i < |es| && forall j :: 0 <= j < i ==> es[j].key != es[i].key
    ensures es[i].tree.TStr? ==> GetValue(EntriesAt(es, off), es[i].key) == Some(Str(es[i].tree.s))
    ensures es[i].tree.TInt? && es[i].tree.i < INT31 ==>
              GetValue(EntriesAt(es, off), es[i].key) == Some(Int(es[i].tree.i))
    ensures es[i].tree.TList? ==> GetValue(EntriesAt(es, off), es[i].key) == None
  {
    var o := Lookup(es, off, i);
  }

  lemma FieldDict(es: seq<Member>, off: nat, i: nat) returns (o: nat)
    requires i < |es| && forall j :: 0 <= j < i ==> es[j].key != es[i].key
    requires es[i].tree.TDict?
    ensures GetDict(EntriesAt(es, off), es[i].key) == Some(EntriesAt(es[i].tree.es, o))
  {
    o := Lookup(es, off, i);
    o := o + 1;
  }

  lemma FieldStrings(es: seq<Member>, off: nat, i: nat, ss: seq<bytes>) returns (o: nat)
    requires i < |es| && forall j :: 0 <= j < i ==> es[j].key != es[i].key
    requires es[i].tree == TList(Strings(ss))
    ensures GetList(EntriesAt(es, off), es[i].key) == Some(NodesAt(Strings(ss), o))
    ensures AllBytes(NodesAt(Strings(ss), o)) == Some(ss)
  {
    o := Lookup(es, off, i);
    o := o + 1;
    AllBytesOfStrings(ss, o);
  }

  lemma {:induction false} AllBytesOfStrings(ss: seq<bytes>, off: nat)
    ensures AllBytes(NodesAt(Strings(ss), off)) == Some(ss)
    decreases |ss|
  {
    if ss != [] {
      var o := off + |EmitStr(ss[0])|;
      assert Strings(ss)[1..] == Strings(ss[1..]);
      assert NodesAt(Strings(ss), off)[1..] == NodesAt(Strings(ss[1..]), o);
      AllBytesOfStrings(ss[1..], o);
      assert [ss[0]] + ss[1..] == ss;
    }
  }

  lemma KeyOfKey(k: Key)
    ensures KeyOf(k) == k
  {
  }

  lemma PeerOfPacked(a: Address)
    ensures PeerOf(AddressBytes(a)) == [a]
  {
    var d := AddressBytes(a);
    var n := |d| - 2;
    assert d[n..n + 2] == PortBytes(a.port);
    if a.V4? {
      assert d[..4] == a.ip4;
    } else {
      assert d[..16] == a.ip6;
    }
  }

  lemma {:induction false} PeersOfPacked(peers: seq<Address>)
    ensures PeersOf(PeerBytes(peers)) == peers
  {
    hide AddressBytes;
    if peers != [] {
      var n := |peers| - 1;
      PeersOfPacked(peers[..n]);
      PeerOfPacked(peers[n]);
      assert PeerBytes(peers)[..n] == PeerBytes(peers[..n]);
    }
  }

  /** The 26-byte items move to the joined nodes, so the list comes back as it was exactly if there are none. */
  lemma AddNodesExact(nodes: bytes, items: seq<bytes>)
    ensures AddNodes(Container(nodes, []), items) == Container(nodes, items)
            <==> forall i :: 0 <= i < |items| ==> |items[i]| != 26
  {
    AddNodesList(nodes, items);
  }

  lemma {:induction false} AddNodesList(nodes: bytes, items: seq<bytes>)
    ensures var r := AddNodes(Container(nodes, []), items);
            && |r.nodes2| <= |items|
            && (if forall i :: 0 <= i < |items| ==> |items[i]| != 26 then r == Container(nodes, items)
                else |r.nodes2| < |items|)
  {
    if items != [] {
      var front := items[..|items| - 1];
      AddNodesList(nodes, front);
      assert items == front + [items[|items| - 1]];
      if forall i :: 0 <= i < |front| ==> |front[i]| != 26 {
        assert forall i :: 0 <= i < |items| - 1 ==> items[i] == front[i];
      } else {
        var i :| 0 <= i < |front| && |front[i]| == 26;
        assert |items[i]| == 26;
      }
    }
  }

  /** PackedNodeContainer::addNode never puts a 26-byte item into the list. */
  ghost predicate NoShortItem(c: Container) {
    forall i :: 0 <= i < |c.nodes2| ==> |c.nodes2[i]| != 26
  }

  lemma AddNodeKeepsListLong(c: Container, a: bytes)
    requires NoShortItem(c)
    ensures NoShortItem(c.AddNode(a))
  {
  }

  /** However a container is filled, no 26-byte item gets on its list. */
  lemma {:induction false} AddNodesLong(c: Container, items: seq<bytes>)
    requires NoShortItem(c)
    ensures NoShortItem(AddNodes(c, items))
  {
    if items != [] {
      AddNodesLong(c, items[..|items| - 1]);
    }
  }

  /** The sizes fit an int. */
  ghost predicate Sized(m: Msg) {
    (m.FindNodeRsp? || m.GetPeersRsp? ==>
       |m.nodes.nodes| < INT31 && forall i :: 0 <= i < |m.nodes.nodes2| ==> |m.nodes.nodes2[i]| < INT31)
  }

  lemma {:induction false} EncodableMembers(es: seq<Member>)
    requires forall i :: 0 <= i < |es| ==> |es[i].key| < INT31 && Encodable(es[i].tree)
    ensures EncodableDict(es)
    decreases |es|
  {
    if es != [] {
      EncodableMembers(es[1..]);
    }
  }

  lemma {:induction false} EncodableStrings(ss: seq<bytes>)
    requires forall i :: 0 <= i < |ss| ==> |ss[i]| < INT31
    ensures EncodableList(Strings(ss))
    decreases |ss|
  {
    if ss != [] {
      assert Strings(ss)[1..] == Strings(ss[1..]);
      EncodableStrings(ss[1..]);
    }
  }

  lemma FieldsEncodable(m: Msg)
    requires (m.IsRequest() || m.IsResponse()) && Sized(m)
    ensures Encodable(TDict(Fields(m)))
  {
    if m.FindNodeRsp? || m.GetPeersRsp? {
      EncodableStrings(m.nodes.nodes2);
    }
    if m.GetPeersRsp? {
      EncodableStrings(PeerBytes(m.peers));
    }
    EncodableMembers(Arguments(m));
    EncodableMembers(Fields(m));
  }

  /** What arrives is the dictionary that was written. */
  lemma ReceiveEncoded(m: Msg, srv: Rpc.State)
    requires (m.IsRequest() || m.IsResponse()) && Sized(m)
    ensures Receive(Encode(m), srv) == MakeRPCMsg(EntriesAt(Fields(m), 1), srv)
  {
    FieldsEncodable(m);
    RoundTrip(TDict(Fields(m)));
  }

  /** A request comes back as it was sent, whatever calls the receiver has. */
  lemma RequestRoundTrip(m: Msg, srv: Rpc.State)
    requires m.IsRequest()
    ensures Receive(Encode(m), srv) == Made(m)
  {
    hide Encode, Receive, Fields, Arguments, EntriesAt, GetValue, GetDict, ParseReq, MakeRPCMsg;
    ReceiveEncoded(m, srv);
    var d := EntriesAt(Fields(m), 1);
    var o := RequestFields(m);
    TypedAsRequest(d, srv);
    ParsesRequest(m, d, o);
  }

  /** The fields around the arguments of a request. */
  lemma RequestFields(m: Msg) returns (o: nat)
    requires m.IsRequest()
    ensures var d := EntriesAt(Fields(m), 1);
            && GetValue(d, TYP) == Some(Str(REQ)) && GetValue(d, REQ) == Some(Str(MethodName(m)))
            && GetValue(d, TID) == Some(Str([m.mtid]))
            && GetDict(d, ARG) == Some(EntriesAt(Arguments(m), o))
  {
    hide GetValue, GetDict, EntriesAt, Arguments;
    var fs := Fields(m);
    FieldValue(fs, 1, 3);
    FieldValue(fs, 1, 2);
    FieldValue(fs, 1, 1);
    o := FieldDict(fs, 1, 0);
  }

  lemma TypedAsRequest(d: seq<DictEntry>, srv: Rpc.State)
    requires GetValue(d, TYP) == Some(Str(REQ))
    ensures MakeRPCMsg(d, srv) == ParseReq(d)
  {
    hide GetValue, ParseReq;
  }

  lemma ParsesRequest(m: Msg, d: seq<DictEntry>, o: nat)
    requires m.IsRequest()
    requires GetValue(d, REQ) == Some(Str(MethodName(m))) && GetValue(d, TID) == Some(Str([m.mtid]))
    requires GetDict(d, ARG) == Some(EntriesAt(Arguments(m), o))
    ensures ParseReq(d) == Made(m)
  {
    hide GetValue, GetDict, EntriesAt, KeyOf, ToPort;
    FirstArgument(m, o);
    KeyOfKey(m.id);
    ArgumentsRead(m, o);
  }

  lemma FirstArgument(m: Msg, o: nat)
    requires m.IsRequest()
    ensures GetValue(EntriesAt(Arguments(m), o), ID) == Some(Str(m.id))
  {
    hide GetValue, EntriesAt;
    FieldValue(Arguments(m), o, 0);
  }

  lemma ArgumentsRead(m: Msg, o: nat)
    requires m.IsRequest()
    ensures var d := EntriesAt(Arguments(m), o);
            && (m.FindNodeReq? ==> GetValue(d, TARGET) == Some(Str(m.target)) && KeyOf(m.target) == m.target)
            && (m.GetPeersReq? || m.AnnounceReq? ==>
                  GetValue(d, INFO_HASH) == Some(Str(m.infoHash)) && KeyOf(m.infoHash) == m.infoHash)
            && (m.AnnounceReq? ==>
                  GetValue(d, PORT) == Some(Int(m.port)) && ToPort(Int(m.port)) == m.port
                  && GetValue(d, TOKEN) == Some(Str(m.token)) && KeyOf(m.token) == m.token)
  {
    var as_ := Arguments(m);
    if m.FindNodeReq? {
      FieldValue(as_, o, 1);
      KeyOfKey(m.target);
    } else if m.GetPeersReq? {
      FieldValue(as_, o, 1);
      KeyOfKey(m.infoHash);
    } else if m.AnnounceReq? {
      FieldValue(as_, o, 1);
      FieldValue(as_, o, 2);
      FieldValue(as_, o, 3);
      KeyOfKey(m.infoHash);
      KeyOfKey(m.token);
    }
  }

  /** What the reader finds of a find_node response, and of a get_peers response that holds nodes. */
  lemma NodesRead(m: Msg, o: nat)
    requires m.FindNodeRsp? || (m.GetPeersRsp? && ContainsNodes(m.nodes))
    ensures var d := EntriesAt(Arguments(m), o);
            && GetValue(d, ID) == Some(Str(m.id))
            && GetValue(d, NODES) == Some(Str(m.nodes.nodes))
            && NodesOf(d) == Some(AddNodes(Container(m.nodes.nodes, []), m.nodes.nodes2))
            && GetList(d, VALUES) == None
            && (m.GetPeersRsp? ==> GetValue(d, TOKEN) == Some(Str(m.token)))
  {
    var as_ := Arguments(m);
    FieldValue(as_, o, 0);
    FieldValue(as_, o, 1);
    LookupMissing(as_, o, VALUES);
    if m.GetPeersRsp? {
      FieldValue(as_, o, |as_| - 1);
    }
    if m.nodes.nodes2 == [] {
      LookupMissing(as_, o, NODES2);
    } else {
      var o2 := FieldStrings(as_, o, 2, m.nodes.nodes2);
    }
  }

  lemma PeersRead(m: Msg, o: nat)
    requires m.GetPeersRsp? && !ContainsNodes(m.nodes)
    ensures var d := EntriesAt(Arguments(m), o);
            && GetValue(d, ID) == Some(Str(m.id)) && GetValue(d, TOKEN) == Some(Str(m.token))
            && GetList(d, VALUES).Some? && AllBytes(GetList(d, VALUES).value) == Some(PeerBytes(m.peers))
  {
    var as_ := Arguments(m);
    FieldValue(as_, o, 0);
    FieldValue(as_, o, 1);
    var o2 := FieldStrings(as_, o, 2, PeerBytes(m.peers));
  }

  /** What a response is read as: the lists of nodes are sorted again by addNode, and peers that go with nodes
      are not sent. */
  function AsRead(m: Msg): Msg
    requires m.IsResponse()
  {
    match m
    case FindNodeRsp(mtid, id, c) => FindNodeRsp(mtid, id, AddNodes(Container(c.nodes, []), c.nodes2))
    case GetPeersRsp(mtid, id, token, c, _) =>
      if ContainsNodes(c) then GetPeersRsp(mtid, id, token, AddNodes(Container(c.nodes, []), c.nodes2), []) else m
    case _ => m
  }

  lemma ResponseFields(m: Msg, srv: Rpc.State) returns (o: nat)
    requires m.IsResponse()
    ensures var d := EntriesAt(Fields(m), 1);
            && GetDict(d, RSP) == Some(EntriesAt(Arguments(m), o))
            && MakeRPCMsg(d, srv) == if Rpc.FindMethod(srv, m.mtid) == Rpc.NONE then Null
                                     else ParseRspAs(d, Rpc.FindMethod(srv, m.mtid), m.mtid)
  {
    var fs := Fields(m);
    FieldValue(fs, 1, 2);
    FieldValue(fs, 1, 1);
    o := FieldDict(fs, 1, 0);
  }

  /** A response to a call that is active under its id and has its method. */
  lemma ResponseRead(m: Msg, srv: Rpc.State)
    requires m.IsResponse() && Sized(m) && Rpc.FindMethod(srv, m.mtid) == m.Method()
    ensures Receive(Encode(m), srv) == Made(AsRead(m))
  {
    ReceiveEncoded(m, srv);
    var o := ResponseFields(m, srv);
    KeyOfKey(m.id);
    if m.FindNodeRsp? {
      NodesRead(m, o);
    } else if m.GetPeersRsp? {
      KeyOfKey(m.token);
      if ContainsNodes(m.nodes) {
        NodesRead(m, o);
      } else {
        PeersRead(m, o);
        PeersOfPacked(m.peers);
      }
    } else {
      FieldValue(Arguments(m), o, 0);
    }
  }

  /** A response comes back as it was sent exactly if its node list holds no 26-byte item and it does not hold
      peers besides nodes. */
  lemma ResponseRoundTrip(m: Msg, srv: Rpc.State)
    requires m.IsResponse() && Sized(m) && Rpc.FindMethod(srv, m.mtid) == m.Method()
    ensures Receive(Encode(m), srv) == Made(m)
            <==> (m.FindNodeRsp? || m.GetPeersRsp? ==> NoShortItem(m.nodes))
                 && (m.GetPeersRsp? && ContainsNodes(m.nodes) ==> m.peers == [])
  {
    ResponseRead(m, srv);
    if m.FindNodeRsp? || m.GetPeersRsp? {
      AddNodesExact(m.nodes.nodes, m.nodes.nodes2);
    }
  }

  /** A response is typed by the method of the active call with its id, not by what it contains; without such a
      call it is dropped. */
  lemma ResponseTypedByCall(d: seq<DictEntry>, srv: Rpc.State)
    requires GetValue(d, TYP) == Some(Str(RSP))
    ensures match MakeRPCMsg(d, srv)
            case Made(m) => m.IsResponse() && m.mtid in srv.active && m.Method() == srv.active[m.mtid].meth
            case _ => true
  {
  }
}
