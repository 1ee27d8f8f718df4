/** The encode methods and the reading loops of rpcmsg.cpp. */
module KrpcIo {
  import opened Bytes
  import opened Entries
  import opened Pack
  import opened Bencode
  import opened Bcodec
  import opened Krpc
  import Rpc

  lemma {:induction false} EmitDictCat(a: seq<Member>, b: seq<Member>)
    ensures EmitDict(a + b) == EmitDict(a) + EmitDict(b)
    decreases |a|
  {
    hide Emit, EmitStr;
    if a == [] {
      assert a + b == b;
    } else {
      EmitDictCat(a[1..], b);
      assert (a + b)[1..] == a[1..] + b;
    }
  }

  lemma {:induction false} EmitListCat(a: seq<Tree>, b: seq<Tree>)
    ensures EmitList(a + b) == EmitList(a) + EmitList(b)
    decreases |a|
  {
    hide Emit;
    if a == [] {
      assert a + b == b;
    } else {
      EmitListCat(a[1..], b);
      assert (a + b)[1..] == a[1..] + b;
    }
  }

  lemma EmitDictSnoc(done: seq<Member>, m: Member)
    ensures EmitDict(done + [m]) == EmitDict(done) + EmitStr(m.key) + Emit(m.tree)
  {
    EmitDictCat(done, [m]);
    assert EmitDict([m]) == EmitStr(m.key) + Emit(m.tree) + EmitDict([]);
  }

  lemma EmitStringsSnoc(items: seq<bytes>, i: nat)
    requires i < |items|
    ensures EmitList(Strings(items[..i + 1])) == EmitList(Strings(items[..i])) + EmitStr(items[i])
  {
    assert Strings(items[..i + 1]) == Strings(items[..i]) + [TStr(items[i])];
    EmitListCat(Strings(items[..i]), [TStr(items[i])]);
    assert EmitList([TStr(items[i])]) == EmitStr(items[i]) + EmitList([]);
  }

  /** A dictionary being written: everything after base is the members so far. */
  class DictWriter {
    const enc: BEncoder
    ghost const base: bytes
    ghost var members: seq<Member>

    ghost predicate Valid()
      reads this, enc, enc.out
    {
      enc.Valid() && enc.out.data == base + EmitDict(members)
    }

    constructor (enc: BEncoder, ghost base: bytes, ghost members: seq<Member>)
      requires enc.Valid() && enc.out.data == base + EmitDict(members)
      ensures Valid() && this.enc == enc && this.base == base && this.members == members
    {
      this.enc, this.base, this.members := enc, base, members;
    }

    /** enc.write(key); enc.write(value). */
    method Put(key: bytes, value: bytes)
      requires Valid()
      modifies this, enc.out
      ensures Valid() && members == old(members) + [Member(key, TStr(value))]
    {
      hide EmitDict, EmitStr;
      EmitDictSnoc(members, Member(key, TStr(value)));
      enc.WriteBytes(key);
      enc.WriteBytes(value);
      members := members + [Member(key, TStr(value))];
    }

    method PutNumber(key: bytes, value: nat)
      requires Valid()
      modifies this, enc.out
      ensures Valid() && members == old(members) + [Member(key, TInt(value))]
    {
      hide EmitDict, EmitStr, EmitInt;
      EmitDictSnoc(members, Member(key, TInt(value)));
      enc.WriteBytes(key);
      enc.WriteNumber(value);
      members := members + [Member(key, TInt(value))];
    }

    /** A key and a list of byte strings, written item by item. */
    method PutList(key: bytes, items: seq<bytes>)
      requires Valid()
      modifies this, enc.out
      ensures Valid() && members == old(members) + [Member(key, TList(Strings(items)))]
    {
      hide EmitDict, EmitStr, EmitList;
      EmitDictSnoc(members, Member(key, TList(Strings(items))));
      enc.WriteBytes(key);
      enc.BeginList();
      WriteItems(items);
      enc.End();
      members := members + [Member(key, TList(Strings(items)))];
    }

    method WriteItems(items: seq<bytes>)
      requires enc.Valid()
      modifies enc.out
      ensures enc.Valid() && enc.out.data == old(enc.out.data) + EmitList(Strings(items))
    {
      for i := 0 to |items|
        invariant enc.Valid() && enc.out.data == old(enc.out.data) + EmitList(Strings(items[..i]))
      {
        hide EmitList, EmitStr;
        EmitStringsSnoc(items, i);
        enc.WriteBytes(items[i]);
      }
      assert items[..|items|] == items;
    }

    method PutNodes(c: Container)
      requires Valid()
      modifies this, enc.out
      ensures Valid() && members == old(members) + NodeMembers(c)
    {
      hide EmitDict;
      Put(NODES, c.nodes);
      if c.nodes2 != [] {
        PutList(NODES2, c.nodes2);
      }
    }

    /** The nested dictionary of a message. */
    method PutArguments(m: Msg)
      requires Valid() && members == [] && (m.IsRequest() || m.IsResponse())
      modifies this, enc.out
      ensures Valid() && members == Arguments(m)
    {
      hide EmitDict;
      Put(ID, m.id);
      match m
      case PingReq(_, _) =>
      case PingRsp(_, _) =>
      case AnnounceRsp(_, _) =>
      case FindNodeReq(_, _, target) =>
        Put(TARGET, target);
      case GetPeersReq(_, _, hash) =>
        Put(INFO_HASH, hash);
      case AnnounceReq(_, _, hash, port, token) =>
        Put(INFO_HASH, hash);
        PutNumber(PORT, port);
        Put(TOKEN, token);
      case FindNodeRsp(_, _, c) =>
        PutNodes(c);
      case GetPeersRsp(_, _, token, c, peers) =>
        if ContainsNodes(c) {
          PutNodes(c);
          Put(TOKEN, token);
        } else {
          Put(TOKEN, token);
          PutList(VALUES, PeerBytes(peers));
        }
    }

    /** The fields that follow the arguments. */
    method PutFields(m: Msg)
      requires m.IsRequest() || m.IsResponse()
      requires Valid() && members == [Member(if m.IsRequest() then ARG else RSP, TDict(Arguments(m)))]
      modifies this, enc.out
      ensures Valid() && members == Fields(m)
    {
      hide EmitDict, Arguments;
      if m.IsRequest() {
        Put(REQ, MethodName(m));
      }
      Put(TID, [m.mtid]);
      Put(TYP, if m.IsRequest() then REQ else RSP);
    }
  }

  function NodeMembers(c: Container): seq<Member> {
    [Member(NODES, TStr(c.nodes))] + (if c.nodes2 == [] then [] else [Member(NODES2, TList(Strings(c.nodes2)))])
  }

  /** The encode methods: the arguments first, then the other fields. */
  method EncodeMsg(m: Msg) returns (data: bytes)
    requires m.IsRequest() || m.IsResponse()
    ensures data == Encode(m)
  {
    hide EmitDict, EmitStr, Fields, Arguments;
    var out := new BufferOutput();
    var enc := new BEncoder(out);
    var key := if m.IsRequest() then ARG else RSP;
    ghost var first := Member(key, TDict(Arguments(m)));
    enc.BeginDict();
    enc.WriteBytes(key);
    enc.BeginDict();
    EmptyDict();
    var inner := new DictWriter(enc, out.data, []);
    inner.PutArguments(m);
    enc.End();
    EmitDictSnoc([], first);
    assert [] + [first] == [first];
    var outer := new DictWriter(enc, [LOWER_D], [first]);
    outer.PutFields(m);
    enc.End();
    data := out.data;
  }

  lemma EmptyDict()
    ensures EmitDict([]) == []
  {
  }

  ghost function CatBytes(done: seq<bytes>, rest: Option<seq<bytes>>): Option<seq<bytes>> {
    match rest
    case None => None
    case Some(ds) => Some(done + ds)
  }

  lemma AllBytesStep(l: seq<Node>, i: nat, done: seq<bytes>)
    requires i < |l|
    ensures if l[i].ValueNode? && l[i].value.Str?
            then CatBytes(done, AllBytes(l[i..])) == CatBytes(done + [l[i].value.s], AllBytes(l[i + 1..]))
            else AllBytes(l[i..]) == None
  {
    assert l[i..][1..] == l[i + 1..];
    if l[i].ValueNode? && l[i].value.Str? && AllBytes(l[i + 1..]).Some? {
      assert done + ([l[i].value.s] + AllBytes(l[i + 1..]).value)
             == (done + [l[i].value.s]) + AllBytes(l[i + 1..]).value;
    }
  }

  lemma CatNothing(r: Option<seq<bytes>>)
    ensures CatBytes([], r) == r
  {
    if r.Some? {
      assert [] + r.value == r.value;
    }
  }

  /** The loop over a nodes2 list; getByteArray throws at the first item that is no string. */
  method ReadNodes2(nodes: bytes, l: seq<Node>) returns (c: Option<Container>)
    ensures c == match AllBytes(l)
                 case None => None
                 case Some(items) => Some(AddNodes(Container(nodes, []), items))
  {
    var r := Container(nodes, []);
    ghost var done: seq<bytes> := [];
    CatNothing(AllBytes(l));
    assert l[0..] == l;
    for i := 0 to |l|
      invariant r == AddNodes(Container(nodes, []), done)
      invariant AllBytes(l) == CatBytes(done, AllBytes(l[i..]))
    {
      AllBytesStep(l, i, done);
      if !l[i].ValueNode? || !l[i].value.Str? {
        return None;
      }
      r := r.AddNode(l[i].value.s);
      done := done + [l[i].value.s];
      assert done[..|done| - 1] + [l[i].value.s] == done;
    }
    assert done + [] == done;
    c := Some(r);
  }

  /** The loop over a values list. */
  method ReadValues(l: seq<Node>) returns (peers: Option<seq<Address>>)
    ensures peers == match AllBytes(l) case None => None case Some(ds) => Some(PeersOf(ds))
  {
    var r: seq<Address> := [];
    ghost var done: seq<bytes> := [];
    CatNothing(AllBytes(l));
    assert l[0..] == l;
    for i := 0 to |l|
      invariant r == PeersOf(done)
      invariant AllBytes(l) == CatBytes(done, AllBytes(l[i..]))
    {
      AllBytesStep(l, i, done);
      if !l[i].ValueNode? || !l[i].value.Str? {
        return None;
      }
      r := r + PeerOf(l[i].value.s);
      done := done + [l[i].value.s];
      assert done[..|done| - 1] + [l[i].value.s] == done;
    }
    assert done + [] == done;
    peers := Some(r);
  }

  /** A message written by the encoder object and read by the decoder object on the other side. */
  method SendAndReceive(m: Msg, srv: Rpc.State) returns (r: Krpc.Outcome)
    requires (m.IsRequest() || m.IsResponse()) && Sized(m)
    requires m.IsResponse() ==> Rpc.FindMethod(srv, m.mtid) == m.Method()
    ensures m.IsRequest() ==> r == Made(m)
    ensures m.IsResponse() ==> r == Made(AsRead(m))
  {
    var data := EncodeMsg(m);
    var dec := new BDecoder(data, 0);
    var n := dec.DecodeNext();
    if m.IsRequest() {
      RequestRoundTrip(m, srv);
    } else {
      ResponseRead(m, srv);
    }
    match n
    case Returned(Some(DictNode(_, _, entries))) => r := MakeRPCMsg(entries, srv);
    case Thrown => r := Threw;
    case _ => r := Null;
  }
}
