/** The messages as they stand on the wire, byte for byte, and what any dictionary that arrives says (rpcmsg.cpp; the
    KRPC section of BEP 5). */
module Wire {
  import opened Bytes
  import opened Keys
  import opened Entries
  import opened Pack
  import opened Bencode
  import opened Krpc
  import Rpc

  function Ascii(s: string): (r: bytes)
    ensures |r| == |s|
  {
    seq(|s|, i requires 0 <= i < |s| => (s[i] as int % 0x100) as byte)
  }

  /** Byte strings with their lengths, one after the other. */
  function Lengthened(ss: seq<bytes>): bytes {
    if ss == [] then [] else Digits(|ss[0]|) + Ascii(":") + ss[0] + Lengthened(ss[1..])
  }

  /** The end of a request: the method, the transaction and the type. */
  function RequestEnd(name: string, mtid: byte): bytes {
    Ascii("e1:q") + Ascii(name) + Ascii("1:t1:") + [mtid] + Ascii("1:y1:qe")
  }

  function ResponseEnd(mtid: byte): bytes {
    Ascii("e1:t1:") + [mtid] + Ascii("1:y1:re")
  }

  function NodesOnWire(c: Container): bytes {
    Ascii("5:nodes") + Digits(|c.nodes|) + Ascii(":") + c.nodes
    + (if c.nodes2 == [] then [] else Ascii("6:nodes2l") + Lengthened(c.nodes2) + Ascii("e"))
  }

  /** What stands behind the id of the sender. */
  function BehindId(m: Msg): bytes
    requires m.IsRequest() || m.IsResponse()
  {
    match m
    case FindNodeReq(_, _, target) => Ascii("6:target20:") + target
    case GetPeersReq(_, _, hash) => Ascii("9:info_hash20:") + hash
    case AnnounceReq(_, _, hash, port, token) =>
      Ascii("9:info_hash20:") + hash + (Ascii("4:porti") + Digits(port) + (Ascii("e5:token20:") + token))
    case FindNodeRsp(_, _, c) => NodesOnWire(c)
    case GetPeersRsp(_, _, token, c, peers) =>
      if ContainsNodes(c) then NodesOnWire(c) + (Ascii("5:token20:") + token)
      else Ascii("5:token20:") + token + (Ascii("6:valuesl") + Lengthened(PeerBytes(peers)) + Ascii("e"))
    case _ => []
  }

  /** What is sent for a message. */
  function OnWire(m: Msg): bytes
    requires m.IsRequest() || m.IsResponse()
  {
    if m.IsResponse() then Ascii("d1:rd2:id20:") + m.id + BehindId(m) + ResponseEnd(m.mtid)
    else
      Ascii("d1:ad2:id20:") + m.id + BehindId(m)
      + match m
        case PingReq(_, _) => RequestEnd("4:ping", m.mtid)
        case FindNodeReq(_, _, _) => RequestEnd("9:find_node", m.mtid)
        case GetPeersReq(_, _, _) => RequestEnd("9:get_peers", m.mtid)
        case AnnounceReq(_, _, _, _, _) => RequestEnd("13:announce_peer", m.mtid)
  }

  lemma KeyLength()
    ensures Digits(20) == Ascii("20") && Digits(1) == Ascii("1") && Digits(2) == Ascii("2") && Digits(4) == Ascii("4")
    ensures Digits(5) == Ascii("5") && Digits(6) == Ascii("6") && Digits(9) == Ascii("9") && Digits(13) == Ascii("13")
  {
    assert Digits(2) == Ascii("2");
    assert Digits(20) == Digits(2) + [0x30];
    assert Digits(1) == Ascii("1");
    assert Digits(13) == Digits(1) + [0x33];
  }

  /** The names of the protocol. */
  lemma Names()
    ensures TID == Ascii("t") && REQ == Ascii("q") && RSP == Ascii("r") && TYP == Ascii("y")
    ensures ARG == Ascii("a") && ERR == Ascii("e")
    ensures ID == Ascii("id") && PORT == Ascii("port") && PING == Ascii("ping")
    ensures TOKEN == Ascii("token") && NODES == Ascii("nodes")
  {
  }

  lemma LongNames()
    ensures TARGET == Ascii("target") && INFO_HASH == Ascii("info_hash")
    ensures NODES2 == Ascii("nodes2") && VALUES == Ascii("values")
    ensures FIND_NODE == Ascii("find_node") && GET_PEERS == Ascii("get_peers")
  {
  }

  lemma LongestName()
    ensures ANNOUNCE_PEER == Ascii("announce_peer")
  {
  }

  lemma RequestOpening()
    ensures Ascii("d1:ad2:id20:") == [LOWER_D] + EmitStr(ARG) + [LOWER_D] + EmitStr(ID) + Digits(20) + [COLON]
  {
    hide Digits;
    KeyLength();
    Names();
  }

  lemma ResponseOpening()
    ensures Ascii("d1:rd2:id20:") == [LOWER_D] + EmitStr(RSP) + [LOWER_D] + EmitStr(ID) + Digits(20) + [COLON]
  {
    hide Digits;
    KeyLength();
    Names();
  }

  lemma Endings()
    ensures Ascii("e1:q") == [LOWER_E] + EmitStr(REQ)
    ensures Ascii("e1:t1:") == [LOWER_E] + EmitStr(TID) + Digits(1) + [COLON]
    ensures Ascii("1:t1:") == EmitStr(TID) + Digits(1) + [COLON]
    ensures Ascii("1:y1:qe") == EmitStr(TYP) + EmitStr(REQ) + [LOWER_E]
    ensures Ascii("1:y1:re") == EmitStr(TYP) + EmitStr(RSP) + [LOWER_E]
  {
    hide Digits;
    KeyLength();
    Names();
  }

  lemma MethodsOnWire()
    ensures Ascii("4:ping") == EmitStr(PING) && Ascii("9:find_node") == EmitStr(FIND_NODE)
    ensures Ascii("9:get_peers") == EmitStr(GET_PEERS) && Ascii("13:announce_peer") == EmitStr(ANNOUNCE_PEER)
  {
    hide Digits;
    KeyLength();
    Names();
    assert Ascii("9:find_node") == EmitStr(FIND_NODE) && Ascii("9:get_peers") == EmitStr(GET_PEERS) by {
      LongNames();
    }
    assert Ascii("13:announce_peer") == EmitStr(ANNOUNCE_PEER) by {
      LongestName();
    }
  }

  lemma KeysOnWire()
    ensures Ascii("6:target20:") == EmitStr(TARGET) + Digits(20) + [COLON]
    ensures Ascii("9:info_hash20:") == EmitStr(INFO_HASH) + Digits(20) + [COLON]
  {
    hide Digits;
    KeyLength();
    LongNames();
  }

  lemma TokenOnWire()
    ensures Ascii("4:porti") == EmitStr(PORT) + [LOWER_I]
    ensures Ascii("e5:token20:") == [LOWER_E] + EmitStr(TOKEN) + Digits(20) + [COLON]
    ensures Ascii("5:token20:") == EmitStr(TOKEN) + Digits(20) + [COLON]
  {
    hide Digits;
    KeyLength();
    Names();
  }

  lemma ListsOnWire()
    ensures Ascii("5:nodes") == EmitStr(NODES) && Ascii(":") == [COLON] && Ascii("e") == [LOWER_E]
    ensures Ascii("6:nodes2l") == EmitStr(NODES2) + [LOWER_L] && Ascii("6:valuesl") == EmitStr(VALUES) + [LOWER_L]
  {
    hide Digits;
    KeyLength();
    Names();
    LongNames();
  }

  lemma EmitOne(a: Member)
    ensures EmitDict([a]) == EmitStr(a.key) + Emit(a.tree)
  {
    assert [a][1..] == [];
    assert EmitDict([]) == [];
  }

  lemma EmitMore(a: Member, rest: seq<Member>)
    ensures EmitDict([a] + rest) == EmitStr(a.key) + Emit(a.tree) + EmitDict(rest)
  {
    assert ([a] + rest)[1..] == rest;
  }

  lemma StrOnWire(s: bytes)
    ensures Emit(TStr(s)) == Digits(|s|) + [COLON] + s
  {
    hide Digits;
  }

  lemma DictOnWire(es: seq<Member>)
    ensures Emit(TDict(es)) == [LOWER_D] + EmitDict(es) + [LOWER_E]
  {
    hide EmitDict;
  }

  /** A list of byte strings. */
  lemma {:induction false} StringsOnWire(ss: seq<bytes>)
    ensures EmitList(Strings(ss)) == Lengthened(ss)
    ensures Emit(TList(Strings(ss))) == [LOWER_L] + Lengthened(ss) + [LOWER_E]
  {
    hide Digits, Ascii;
    ListsOnWire();
    if ss != [] {
      StringsOnWire(ss[1..]);
      StrOnWire(ss[0]);
      assert Strings(ss)[1..] == Strings(ss[1..]);
      assert Strings(ss)[0] == TStr(ss[0]);
    }
  }

  lemma RequestWhole(d: bytes, a: bytes, args: bytes, e: bytes, q: bytes, n: bytes, t: bytes, m: bytes, y: bytes,
                     v: bytes)
    ensures d + (a + (d + args + e) + (q + n + (t + m + (y + v)))) + e
            == d + a + d + args + (e + q + n + (t + m) + (y + v + e))
  {
  }

  /** What is around the arguments of a request. */
  lemma RequestOnWire(m: Msg)
    requires m.IsRequest()
    ensures Encode(m) == [LOWER_D] + EmitStr(ARG) + [LOWER_D] + EmitDict(Arguments(m))
                         + ([LOWER_E] + EmitStr(REQ) + EmitStr(MethodName(m)) + (EmitStr(TID) + EmitStr([m.mtid]))
                            + (EmitStr(TYP) + EmitStr(REQ) + [LOWER_E]))
  {
    hide Digits, Emit, EmitDict, EmitStr, Arguments, MethodName;
    var fa, fq, ft, fy := Member(ARG, TDict(Arguments(m))), Member(REQ, TStr(MethodName(m))),
                          Member(TID, TStr([m.mtid])), Member(TYP, TStr(REQ));
    assert Fields(m) == [fa] + ([fq] + ([ft] + [fy]));
    DictOnWire(Fields(m));
    DictOnWire(Arguments(m));
    EmitMore(fa, [fq] + ([ft] + [fy]));
    EmitMore(fq, [ft] + [fy]);
    EmitMore(ft, [fy]);
    EmitOne(fy);
    TextOnWire(MethodName(m));
    TextOnWire([m.mtid]);
    TextOnWire(REQ);
    RequestWhole([LOWER_D], EmitStr(ARG), EmitDict(Arguments(m)), [LOWER_E], EmitStr(REQ), EmitStr(MethodName(m)),
                 EmitStr(TID), EmitStr([m.mtid]), EmitStr(TYP), EmitStr(REQ));
  }

  lemma TextOnWire(s: bytes)
    ensures Emit(TStr(s)) == EmitStr(s)
  {
    hide EmitStr;
  }

  /** The end of a request as it is written. */
  lemma EndOnWire(m: Msg, name: string)
    requires m.IsRequest() && Ascii(name) == EmitStr(MethodName(m))
    ensures [LOWER_E] + EmitStr(REQ) + EmitStr(MethodName(m)) + (EmitStr(TID) + EmitStr([m.mtid]))
            + (EmitStr(TYP) + EmitStr(REQ) + [LOWER_E]) == RequestEnd(name, m.mtid)
  {
    hide Ascii, Digits, MethodName;
    Endings();
    var t := [m.mtid];
    assert EmitStr(TID) + EmitStr(t) == Ascii("1:t1:") + t;
  }

  lemma KeyArgument(name: bytes, k: Key)
    ensures EmitStr(name) + Emit(TStr(k)) == EmitStr(name) + Digits(20) + [COLON] + k
    ensures EmitDict([Member(name, TStr(k))]) == EmitStr(name) + Digits(20) + [COLON] + k
  {
    hide Digits, EmitStr, Emit;
    StrOnWire(k);
    EmitOne(Member(name, TStr(k)));
  }

  /** The arguments of a request. */
  lemma ArgumentsOnWire(m: Msg)
    requires m.IsRequest()
    ensures EmitDict(Arguments(m)) == EmitStr(ID) + Digits(20) + [COLON] + m.id + BehindId(m)
  {
    hide Ascii, Digits, EmitStr, Emit, EmitDict;
    match m
    case PingReq(_, id) => KeyArgument(ID, id);
    case FindNodeReq(_, id, target) =>
      KeysOnWire();
      TwoKeys(id, TARGET, target);
    case GetPeersReq(_, id, hash) =>
      KeysOnWire();
      TwoKeys(id, INFO_HASH, hash);
    case AnnounceReq(_, _, _, _, _) => AnnounceOnWire(m);
  }

  lemma TwoKeys(id: Key, name: bytes, k: Key)
    ensures EmitDict([Member(ID, TStr(id)), Member(name, TStr(k))])
            == EmitStr(ID) + Digits(20) + [COLON] + id + (EmitStr(name) + Digits(20) + [COLON] + k)
  {
    hide Digits, EmitStr, Emit, EmitDict;
    assert [Member(ID, TStr(id)), Member(name, TStr(k))] == [Member(ID, TStr(id))] + [Member(name, TStr(k))];
    EmitMore(Member(ID, TStr(id)), [Member(name, TStr(k))]);
    KeyArgument(ID, id);
    KeyArgument(name, k);
  }

  lemma AnnounceOnWire(m: Msg)
    requires m.AnnounceReq?
    ensures EmitDict(Arguments(m))
            == EmitStr(ID) + Digits(20) + [COLON] + m.id + BehindId(m)
  {
    hide Ascii, Digits, EmitStr, Emit, EmitDict;
    var fid, fh := Member(ID, TStr(m.id)), Member(INFO_HASH, TStr(m.infoHash));
    var fp, ft := Member(PORT, TInt(m.port)), Member(TOKEN, TStr(m.token));
    assert Arguments(m) == [fid] + ([fh] + ([fp] + [ft]));
    EmitMore(fid, [fh] + ([fp] + [ft]));
    EmitMore(fh, [fp] + [ft]);
    EmitMore(fp, [ft]);
    KeyArgument(ID, m.id);
    KeyArgument(INFO_HASH, m.infoHash);
    KeyArgument(TOKEN, m.token);
    KeysOnWire();
    TokenOnWire();
    IntOnWire(m.port);
    assert EmitStr(PORT) + ([LOWER_I] + Digits(m.port) + [LOWER_E])
           + (EmitStr(TOKEN) + Digits(20) + [COLON] + m.token)
           == EmitStr(PORT) + [LOWER_I] + Digits(m.port)
              + ([LOWER_E] + EmitStr(TOKEN) + Digits(20) + [COLON] + m.token);
  }

  lemma IntOnWire(n: nat)
    ensures Emit(TInt(n)) == [LOWER_I] + Digits(n) + [LOWER_E]
  {
    hide Digits;
  }

  lemma Opened(d: bytes, a: bytes, i: bytes, n: bytes, id: bytes, rest: bytes, end: bytes)
    ensures d + a + d + (i + n + [COLON] + id + rest) + end == d + a + d + i + n + [COLON] + id + rest + end
  {
  }

  /** Every request is sent byte for byte as the protocol has it. */
  lemma RequestBytes(m: Msg)
    requires m.IsRequest()
    ensures Encode(m) == OnWire(m)
  {
    hide Ascii, Digits, EmitStr, EmitDict, Encode, RequestEnd, Arguments, BehindId;
    RequestOnWire(m);
    ArgumentsOnWire(m);
    MethodsOnWire();
    RequestOpening();
    var name := match m
                case PingReq(_, _) => "4:ping"
                case FindNodeReq(_, _, _) => "9:find_node"
                case GetPeersReq(_, _, _) => "9:get_peers"
                case AnnounceReq(_, _, _, _, _) => "13:announce_peer";
    EndOnWire(m, name);
    Opened([LOWER_D], EmitStr(ARG), EmitStr(ID), Digits(20), m.id, BehindId(m), RequestEnd(name, m.mtid));
  }

  lemma ResponseWhole(d: bytes, r: bytes, args: bytes, e: bytes, t: bytes, m: bytes, y: bytes, v: bytes)
    ensures d + (r + (d + args + e) + (t + m + (y + v))) + e == d + r + d + args + (e + (t + m) + (y + v + e))
  {
  }

  /** What is around the results of a response. */
  lemma ResponseOnWire(m: Msg)
    requires m.IsResponse()
    ensures Encode(m) == [LOWER_D] + EmitStr(RSP) + [LOWER_D] + EmitDict(Arguments(m)) + ResponseEnd(m.mtid)
  {
    hide Digits, Emit, EmitDict, EmitStr, Arguments, ResponseEnd;
    var fr, ft, fy := Member(RSP, TDict(Arguments(m))), Member(TID, TStr([m.mtid])), Member(TYP, TStr(RSP));
    assert Fields(m) == [fr] + ([ft] + [fy]);
    DictOnWire(Fields(m));
    DictOnWire(Arguments(m));
    EmitMore(fr, [ft] + [fy]);
    EmitMore(ft, [fy]);
    EmitOne(fy);
    TextOnWire([m.mtid]);
    TextOnWire(RSP);
    ResponseWhole([LOWER_D], EmitStr(RSP), EmitDict(Arguments(m)), [LOWER_E], EmitStr(TID), EmitStr([m.mtid]),
                  EmitStr(TYP), EmitStr(RSP));
    ResponseEndOnWire(m.mtid);
  }

  lemma ResponseEndOnWire(t: byte)
    ensures [LOWER_E] + (EmitStr(TID) + EmitStr([t])) + (EmitStr(TYP) + EmitStr(RSP) + [LOWER_E]) == ResponseEnd(t)
  {
    hide Ascii, Digits;
    Endings();
    assert [LOWER_E] + (EmitStr(TID) + EmitStr([t])) == Ascii("e1:t1:") + [t];
  }

  /** The nodes of a response, and whatever comes behind them. */
  lemma NodesMembers(c: Container, rest: seq<Member>)
    ensures EmitDict([Member(NODES, TStr(c.nodes))]
                     + (if c.nodes2 == [] then [] else [Member(NODES2, TList(Strings(c.nodes2)))]) + rest)
            == NodesOnWire(c) + EmitDict(rest)
  {
    hide Ascii, Digits, EmitStr, Emit, EmitDict;
    ListsOnWire();
    var fn := Member(NODES, TStr(c.nodes));
    StrOnWire(c.nodes);
    if c.nodes2 == [] {
      assert [fn] + [] + rest == [fn] + rest;
      EmitMore(fn, rest);
      assert NodesOnWire(c) == EmitStr(NODES) + Emit(fn.tree);
    } else {
      var f2 := Member(NODES2, TList(Strings(c.nodes2)));
      assert [fn] + [f2] + rest == [fn] + ([f2] + rest);
      EmitMore(fn, [f2] + rest);
      EmitMore(f2, rest);
      StringsOnWire(c.nodes2);
      assert NodesOnWire(c) == EmitStr(NODES) + Emit(fn.tree) + (EmitStr(NODES2) + Emit(f2.tree));
    }
  }

  /** The results of a response behind their opening. */
  lemma ResultsOnWire(m: Msg)
    requires m.IsResponse()
    ensures EmitDict(Arguments(m)) == EmitStr(ID) + Digits(20) + [COLON] + m.id + BehindId(m)
  {
    hide Ascii, Digits, EmitStr, Emit, EmitDict, NodesOnWire, Lengthened, Strings, PeerBytes;
    var fid := Member(ID, TStr(m.id));
    KeyArgument(ID, m.id);
    match m
    case FindNodeRsp(_, _, c) => NodesBehindId(fid, c, Arguments(m), []);
    case GetPeersRsp(_, _, token, c, _) =>
      TokenOnWire();
      var ft := Member(TOKEN, TStr(token));
      KeyArgument(TOKEN, token);
      if ContainsNodes(c) {
        NodesBehindId(fid, c, Arguments(m), [ft]);
      } else {
        PeersOnWire(m);
      }
    case _ =>
  }

  lemma NodesBehindId(fid: Member, c: Container, args: seq<Member>, rest: seq<Member>)
    requires args == [fid, Member(NODES, TStr(c.nodes))]
                     + (if c.nodes2 == [] then [] else [Member(NODES2, TList(Strings(c.nodes2)))]) + rest
    ensures EmitDict(args) == EmitStr(fid.key) + Emit(fid.tree) + (NodesOnWire(c) + EmitDict(rest))
    ensures rest == [] ==> EmitDict(args) == EmitStr(fid.key) + Emit(fid.tree) + NodesOnWire(c)
  {
    hide EmitStr, Emit, EmitDict, NodesOnWire, Strings;
    var ns := [Member(NODES, TStr(c.nodes))]
              + (if c.nodes2 == [] then [] else [Member(NODES2, TList(Strings(c.nodes2)))]);
    assert args == [fid] + (ns + rest);
    EmitMore(fid, ns + rest);
    NodesMembers(c, rest);
    NoMembers();
  }

  lemma PeersOnWire(m: Msg)
    requires m.GetPeersRsp? && !ContainsNodes(m.nodes)
    ensures EmitDict(Arguments(m)) == EmitStr(ID) + Digits(20) + [COLON] + m.id + BehindId(m)
  {
    hide Ascii, Digits, EmitStr, Emit, EmitDict, Lengthened, Strings, PeerBytes;
    var fid, ft := Member(ID, TStr(m.id)), Member(TOKEN, TStr(m.token));
    var fv := Member(VALUES, TList(Strings(PeerBytes(m.peers))));
    assert Arguments(m) == [fid] + ([ft] + [fv]);
    EmitMore(fid, [ft] + [fv]);
    EmitMore(ft, [fv]);
    EmitOne(fv);
    KeyArgument(ID, m.id);
    KeyArgument(TOKEN, m.token);
    TokenOnWire();
    ListsOnWire();
    StringsOnWire(PeerBytes(m.peers));
  }

  lemma NoMembers()
    ensures EmitDict([]) == []
  {
  }

  /** Every response is sent byte for byte as the protocol has it, the nodes of the other family in a list of their
      own. */
  lemma ResponseBytes(m: Msg)
    requires m.IsResponse()
    ensures Encode(m) == OnWire(m)
  {
    hide Ascii, Digits, EmitStr, EmitDict, Encode, ResponseEnd, Arguments, BehindId;
    ResponseOnWire(m);
    ResultsOnWire(m);
    ResponseOpening();
    Opened([LOWER_D], EmitStr(RSP), EmitStr(ID), Digits(20), m.id, BehindId(m), ResponseEnd(m.mtid));
  }

  /** The bytes under a name; a number has none. */
  function TextOf(es: seq<DictEntry>, name: string): Option<bytes> {
    match GetValue(es, Ascii(name))
    case Some(Str(s)) => Some(s)
    case Some(_) => Some([])
    case None => None
  }

  /** A key of 20 bytes: longer byte strings are cut off, shorter ones end with zeros. */
  predicate Padded(ba: Option<bytes>, k: Key) {
    && ba.Some?
    && (if |ba.value| >= 20 then k == ba.value[..20] else k == ba.value + seq(20 - |ba.value|, _ => 0 as byte))
  }

  /** The list holds byte strings, these. */
  ghost predicate Texts(l: seq<Node>, ss: seq<bytes>) {
    |l| == |ss| && forall i :: 0 <= i < |l| ==> l[i].ValueNode? && l[i].value == Str(ss[i])
  }

  /** The peers in a list of byte strings: those of 6 and of 18 bytes, in their order; the others are skipped. */
  ghost predicate SaysPeers(ss: seq<bytes>, peers: seq<Address>)
    decreases |ss|
  {
    if ss == [] then peers == []
    else if |ss[0]| == 6 || |ss[0]| == 18 then
      peers != [] && AddressBytes(peers[0]) == ss[0] && SaysPeers(ss[1..], peers[1..])
    else SaysPeers(ss[1..], peers)
  }

  lemma {:induction false} PeersExact(ss: seq<bytes>, peers: seq<Address>)
    ensures SaysPeers(ss, peers) <==> peers == PeersOf(ss)
    decreases |ss|
  {
    hide AddressBytes, PeerOf, PeersOf;
    FirstPeer(ss);
    if ss != [] {
      PeerExact(ss[0]);
      if |ss[0]| == 6 || |ss[0]| == 18 {
        var a := PeerOf(ss[0])[0];
        if peers != [] {
          PeersExact(ss[1..], peers[1..]);
          assert peers == [peers[0]] + peers[1..];
          if AddressBytes(peers[0]) == ss[0] {
            PeerOfPacked(peers[0]);
          }
        }
      } else {
        PeersExact(ss[1..], peers);
      }
    }
  }

  lemma PeerExact(d: bytes)
    ensures if |d| == 6 || |d| == 18 then |PeerOf(d)| == 1 && AddressBytes(PeerOf(d)[0]) == d else PeerOf(d) == []
  {
    if |d| == 6 || |d| == 18 {
      var n := |d| - 2;
      PortReadBack(d, n);
      assert d == d[..n] + d[n..n + 2];
    }
  }

  lemma {:induction false} FirstPeer(ss: seq<bytes>)
    ensures PeersOf(ss) == if ss == [] then [] else PeerOf(ss[0]) + PeersOf(ss[1..])
    decreases |ss|
  {
    hide PeerOf;
    if |ss| > 1 {
      FirstPeer(ss[..|ss| - 1]);
      assert ss[..|ss| - 1][1..] == ss[1..][..|ss| - 2];
    }
  }

  /** There are nodes of one family or the other: joined under "nodes", or in a list under "nodes2", which is to hold
      nothing but byte strings. */
  ghost predicate SaysNodes(args: seq<DictEntry>, c: Container) {
    var joined := match TextOf(args, "nodes") case Some(s) => s case None => [];
    match GetList(args, Ascii("nodes2"))
    case None => TextOf(args, "nodes").Some? && c == Container(joined, [])
    case Some(l) => exists ss :: Texts(l, ss) && c == AddNodes(Container(joined, []), ss)
  }

  /** What a dictionary has to hold to be a certain message for a server with certain calls. */
  ghost predicate Says(d: seq<DictEntry>, srv: Rpc.State, m: Msg) {
    && TextOf(d, "y") == Some(Ascii(if m.IsRequest() then "q" else if m.IsResponse() then "r" else "e"))
    && TextOf(d, "t").Some? && |TextOf(d, "t").value| > 0 && TextOf(d, "t").value[0] == m.mtid
    && var args := GetDict(d, Ascii(if m.IsResponse() then "r" else "a"));
       && args.Some? && Padded(TextOf(args.value, "id"), m.id)
       && if m.IsRequest() then SaysRequest(d, args.value, m)
          else if m.IsResponse() then
            Rpc.FindMethod(srv, m.mtid) == m.Method() && SaysResponse(args.value, m)
          else TextOf(d, "r") == Some(m.text)
  }

  ghost predicate SaysRequest(d: seq<DictEntry>, args: seq<DictEntry>, m: Msg)
    requires m.IsRequest()
  {
    match m
    case PingReq(_, _) => TextOf(d, "q") == Some(Ascii("ping"))
    case FindNodeReq(_, _, target) =>
      TextOf(d, "q") == Some(Ascii("find_node")) && Padded(TextOf(args, "target"), target)
    case GetPeersReq(_, _, hash) =>
      TextOf(d, "q") == Some(Ascii("get_peers")) && Padded(TextOf(args, "info_hash"), hash)
    case AnnounceReq(_, _, hash, port, token) =>
      && TextOf(d, "q") == Some(Ascii("announce_peer"))
      && Padded(TextOf(args, "info_hash"), hash) && Padded(TextOf(args, "token"), token)
      && match GetValue(args, Ascii("port"))
         case Some(Int(i)) => port == i % 0x1_0000
         case Some(_) => port == 0
         case None => false
  }

  ghost predicate SaysResponse(args: seq<DictEntry>, m: Msg)
    requires m.IsResponse()
  {
    match m
    case FindNodeRsp(_, _, c) => SaysNodes(args, c)
    case GetPeersRsp(_, _, token, c, peers) =>
      && Padded(TextOf(args, "token"), token)
      && (match GetList(args, Ascii("values"))
          case Some(l) => c == Container([], []) && exists ss :: Texts(l, ss) && SaysPeers(ss, peers)
          case None => peers == [] && SaysNodes(args, c))
    case _ => true
  }

  lemma PaddedExact(ba: bytes, k: Key)
    ensures Padded(Some(ba), k) <==> k == KeyOf(ba)
  {
    var z := seq(20, _ => 0 as byte);
    if |ba| >= 20 {
      assert KeyOf(ba) == ba[..20];
    } else {
      assert KeyOf(ba) == ba + seq(20 - |ba|, _ => 0 as byte);
    }
  }

  lemma {:induction false} TextsExact(l: seq<Node>, ss: seq<bytes>)
    ensures AllBytes(l) == Some(ss) <==> Texts(l, ss)
    decreases |l|
  {
    if l == [] {
      assert Texts(l, ss) <==> ss == [];
    } else if ss == [] {
      assert !Texts(l, ss);
    } else {
      TextsExact(l[1..], ss[1..]);
      assert ss == [ss[0]] + ss[1..];
      if Texts(l, ss) {
        assert Texts(l[1..], ss[1..]);
      } else if l[0].ValueNode? && l[0].value == Str(ss[0]) {
        assert !Texts(l[1..], ss[1..]);
      }
    }
  }

  lemma TextsUnique(l: seq<Node>)
    ensures forall ss :: AllBytes(l) == Some(ss) <==> Texts(l, ss)
  {
    forall ss
      ensures AllBytes(l) == Some(ss) <==> Texts(l, ss)
    {
      TextsExact(l, ss);
    }
  }

  lemma NodesExact(args: seq<DictEntry>, c: Container)
    ensures SaysNodes(args, c)
            <==> (GetValue(args, NODES).Some? || GetList(args, NODES2).Some?) && NodesOf(args) == Some(c)
  {
    hide GetValue, GetList, AllBytes, AddNodes, Texts, Ascii;
    Names();
    LongNames();
    match GetList(args, NODES2)
    case None =>
    case Some(l) => TextsUnique(l);
  }

  lemma AllPadded()
    ensures forall ba, k :: Padded(Some(ba), k) <==> k == KeyOf(ba)
    ensures forall k :: !Padded(None, k)
  {
    forall ba, k
      ensures Padded(Some(ba), k) <==> k == KeyOf(ba)
    {
      PaddedExact(ba, k);
    }
  }

  /** A dictionary is read as a request exactly if it says so. */
  lemma RequestRead(d: seq<DictEntry>, srv: Rpc.State, m: Msg)
    requires m.IsRequest()
    ensures MakeRPCMsg(d, srv) == Made(m) <==> Says(d, srv, m)
  {
    hide GetValue, GetDict, GetList, ParseReq, ParseRsp, SaysRequest, Padded, Ascii;
    Names();
    AllPadded();
    RequestTyped(d, srv);
    if GetValue(d, TYP).Some? && ToBytes(GetValue(d, TYP).value) == REQ {
      RequestParsed(d, m);
    }
  }

  /** Only what is typed as a request is read as one. */
  lemma RequestTyped(d: seq<DictEntry>, srv: Rpc.State)
    ensures match MakeRPCMsg(d, srv)
            case Made(m) =>
              && GetValue(d, TYP).Some?
              && var y := ToBytes(GetValue(d, TYP).value);
                 y == (if m.IsRequest() then REQ else if m.IsResponse() then RSP else ERR)
            case _ => true
  {
    hide GetValue, GetDict, GetList, NodesOf, AllBytes;
  }

  lemma RequestParsed(d: seq<DictEntry>, m: Msg)
    requires m.IsRequest()
    ensures ParseReq(d) == Made(m)
            <==> && TextOf(d, "t").Some? && |TextOf(d, "t").value| > 0 && TextOf(d, "t").value[0] == m.mtid
                 && GetDict(d, Ascii("a")).Some? && Padded(TextOf(GetDict(d, Ascii("a")).value, "id"), m.id)
                 && SaysRequest(d, GetDict(d, Ascii("a")).value, m)
  {
    hide GetValue, GetDict, GetList, KeyOf, Padded, Ascii;
    Names();
    LongNames();
    LongestName();
    AllPadded();
    assert |PING| == 4 && |FIND_NODE| == 9 && |GET_PEERS| == 9 && |ANNOUNCE_PEER| == 13;
    assert FIND_NODE[0] != GET_PEERS[0];
  }

  /** A dictionary is read as a response exactly if it says so and answers an active call of its method. */
  lemma ResponseExact(d: seq<DictEntry>, srv: Rpc.State, m: Msg)
    requires m.IsResponse()
    ensures MakeRPCMsg(d, srv) == Made(m) <==> Says(d, srv, m)
  {
    hide GetValue, GetDict, GetList, ParseReq, ParseRspAs, SaysResponse, Padded, Ascii, Rpc.FindMethod;
    Names();
    AllPadded();
    RequestTyped(d, srv);
    if GetDict(d, RSP).Some? {
      ResponseParsed(d, Rpc.FindMethod(srv, m.mtid), m);
      MtidKept(d, Rpc.FindMethod(srv, m.mtid), m.mtid);
      if GetValue(d, TID).Some? && ToBytes(GetValue(d, TID).value) != [] {
        var t := ToBytes(GetValue(d, TID).value)[0];
        MtidKept(d, Rpc.FindMethod(srv, t), t);
      }
    }
  }

  lemma MtidKept(d: seq<DictEntry>, meth: Rpc.Method, mtid: byte)
    ensures match ParseRspAs(d, meth, mtid)
            case Made(m) => m.mtid == mtid && m.IsResponse() && m.Method() == meth
            case _ => true
  {
    hide GetValue, GetDict, GetList, NodesOf, AllBytes;
  }

  lemma ResponseParsed(d: seq<DictEntry>, meth: Rpc.Method, m: Msg)
    requires m.IsResponse() && GetDict(d, RSP).Some?
    ensures var args := GetDict(d, RSP).value;
            ParseRspAs(d, meth, m.mtid) == Made(m)
            <==> meth == m.Method() && Padded(TextOf(args, "id"), m.id) && SaysResponse(args, m)
  {
    hide GetValue, GetDict, GetList, NodesOf, AllBytes, PeersOf, KeyOf, Padded, Ascii, SaysNodes, Texts, SaysPeers;
    Names();
    AllPadded();
    var args := GetDict(d, RSP).value;
    if m.FindNodeRsp? {
      NodesExact(args, m.nodes);
    } else if m.GetPeersRsp? {
      assert VALUES == Ascii("values") by { LongNames(); }
      NodesExact(args, m.nodes);
      if GetList(args, VALUES).Some? {
        TextsUnique(GetList(args, VALUES).value);
        forall ss
          ensures SaysPeers(ss, m.peers) <==> m.peers == PeersOf(ss)
        {
          PeersExact(ss, m.peers);
        }
      }
    }
  }

  /** A dictionary is read as an error message exactly if it says so. */
  lemma ErrorRead(d: seq<DictEntry>, srv: Rpc.State, m: Msg)
    requires m.ErrMsg?
    ensures MakeRPCMsg(d, srv) == Made(m) <==> Says(d, srv, m)
  {
    hide GetValue, GetDict, ParseReq, ParseRsp, KeyOf, Padded, Ascii;
    Names();
    AllPadded();
    RequestTyped(d, srv);
  }
}
