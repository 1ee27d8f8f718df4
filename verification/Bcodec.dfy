/** The decoder and encoder objects, with their cursors and loops (bdecoder.cpp, bencoder.cpp). */
module Bcodec {
  import opened Bytes
  import opened Bencode

  /** An exception, or a node or null. */
  datatype Outcome = Thrown | Returned(node: Option<Node>)

  /** What the rest of a loop adds to what is there already. */
  ghost function CatItems(done: seq<Node>, rest: Items): Items {
    match rest
    case NoItems => NoItems
    case Items(ns, p) => Items(done + ns, p)
  }

  ghost function CatEntries(done: seq<DictEntry>, rest: Entries): Entries {
    match rest
    case NoEntries => NoEntries
    case Entries(es, p) => Entries(done + es, p)
  }

  class BDecoder {
    const data: bytes
    var pos: nat

    constructor (data: bytes, off: nat)
      ensures this.data == data && pos == off
    {
      this.data, pos := data, off;
    }

    /** The outcome and the new cursor are those of Decode; after an exception the cursor does not matter. */
    ghost predicate Agrees(r: Outcome, p: Parsed)
      reads this
    {
      match p
      case Fail => r == Thrown
      case Done(n, q) => r == Returned(n) && pos == q
    }

    method DecodeNext() returns (r: Outcome)
      modifies this`pos
      ensures Agrees(r, Decode(data, old(pos)))
      decreases Left(data, pos), 2
    {
      if pos >= |data| {
        return Returned(None);
      }
      if data[pos] == LOWER_D {
        r := ParseDict();
      } else if data[pos] == LOWER_L {
        r := ParseList();
      } else if data[pos] == LOWER_I {
        r := ParseIntNode();
      } else if IsDigit(data[pos]) {
        r := ParseStringNode();
      } else {
        r := Thrown;
      }
    }

    method ParseDict() returns (r: Outcome)
      requires pos < |data| && data[pos] == LOWER_D
      modifies this`pos
      ensures Agrees(r, Decode(data, old(pos)))
      decreases Left(data, pos), 1
    {
      hide ListLoop, DictLoop, Decode;
      var off := pos;
      var curr: seq<DictEntry> := [];
      pos := pos + 1;
      while pos < |data| && data[pos] != LOWER_E
        invariant pos > off && DictLoop(data, off + 1) == CatEntries(curr, DictLoop(data, pos))
        decreases Left(data, pos)
      {
        ghost var start := pos;
        DictLoopUnfolds(data, pos);
        var kn := DecodeNext();
        if kn.Thrown? || !kn.node.value.ValueNode? || !kn.node.value.value.Str? {
          DictDecodes(data, off);
          return Thrown;
        }
        var key := kn.node.value.value.s;
        var child := DecodeNext();
        if child.Thrown? {
          DictDecodes(data, off);
          return Thrown;
        }
        CatEntriesStep(curr, DictEntry(key, child.node), DictLoop(data, pos));
        curr := curr + [DictEntry(key, child.node)];
      }
      DictEnds(data, pos, curr);
      DictDecodes(data, off);
      pos := pos + 1;
      r := Returned(Some(DictNode(off, pos - off, curr)));
    }

    method ParseList() returns (r: Outcome)
      requires pos < |data| && data[pos] == LOWER_L
      modifies this`pos
      ensures Agrees(r, Decode(data, old(pos)))
      decreases Left(data, pos), 1
    {
      var off := pos;
      var curr: seq<Node> := [];
      pos := pos + 1;
      while pos < |data| && data[pos] != LOWER_E
        invariant pos > off && ListLoop(data, off + 1) == CatItems(curr, ListLoop(data, pos))
        decreases Left(data, pos)
      {
        var n := DecodeNext();
        if n.Thrown? {
          return Thrown;
        }
        CatItemsStep(curr, n.node.value, ListLoop(data, pos));
        curr := curr + [n.node.value];
      }
      assert curr + [] == curr;
      pos := pos + 1;
      r := Returned(Some(ListNode(off, pos - off, curr)));
    }

    method ParseIntNode() returns (r: Outcome)
      requires pos < |data|
      modifies this`pos
      ensures Agrees(r, ParseInt(data, old(pos)))
    {
      var off := pos;
      pos := pos + 1;
      var n: bytes := [];
      while pos < |data| && data[pos] != LOWER_E
        invariant off < pos <= |data| && n == data[off + 1..pos]
        invariant Find(data, off + 1, LOWER_E) == Find(data, pos, LOWER_E)
      {
        n := n + [data[pos]];
        pos := pos + 1;
      }
      if pos >= |data| {
        return Thrown;
      }
      var small := ToInt(n);
      if small.Some? {
        pos := pos + 1;
        return Returned(Some(ValueNode(off, pos - off, Int(small.value))));
      }
      var big := ToLongLong(n);
      if big.None? {
        return Thrown;
      }
      pos := pos + 1;
      r := Returned(Some(ValueNode(off, pos - off, Int64(big.value))));
    }

    method ParseStringNode() returns (r: Outcome)
      requires pos < |data|
      modifies this`pos
      ensures Agrees(r, ParseString(data, old(pos)))
    {
      var off := pos;
      var n: bytes := [];
      while pos < |data| && data[pos] != COLON
        invariant off <= pos <= |data| && n == data[off..pos]
        invariant Find(data, off, COLON) == Find(data, pos, COLON)
      {
        n := n + [data[pos]];
        pos := pos + 1;
      }
      if pos >= |data| {
        return Thrown;
      }
      var len := ToInt(n);
      if len.None? || len.value < 0 {
        return Thrown;
      }
      pos := pos + 1;
      if pos + len.value > |data| {
        return Thrown;
      }
      var arr := data[pos..pos + len.value];
      pos := pos + len.value;
      r := Returned(Some(ValueNode(off, pos - off, Str(arr))));
    }
  }

  lemma CatItemsStep(done: seq<Node>, n: Node, rest: Items)
    ensures CatItems(done + [n], rest) == CatItems(done, CatItems([n], rest))
  {
    if rest.Items? {
      assert (done + [n]) + rest.items == done + ([n] + rest.items);
    }
  }

  lemma CatEntriesStep(done: seq<DictEntry>, e: DictEntry, rest: Entries)
    ensures CatEntries(done + [e], rest) == CatEntries(done, CatEntries([e], rest))
  {
    if rest.Entries? {
      assert (done + [e]) + rest.entries == done + ([e] + rest.entries);
    }
  }

  lemma DictLoopUnfolds(data: bytes, pos: nat)
    requires pos < |data| && data[pos] != LOWER_E
    ensures var k := Decode(data, pos);
            if k.Fail? || !IsKey(k) then DictLoop(data, pos).NoEntries?
            else
              var v := Decode(data, k.pos);
              if v.Fail? then DictLoop(data, pos).NoEntries?
              else DictLoop(data, pos) == CatEntries([DictEntry(k.node.value.value.s, v.node)], DictLoop(data, v.pos))
  {
  }

  lemma DictDecodes(data: bytes, off: nat)
    requires off < |data| && data[off] == LOWER_D
    ensures Decode(data, off) ==
            match DictLoop(data, off + 1)
            case NoEntries => Fail
            case Entries(es, p) => Done(Some(DictNode(off, p + 1 - off, es)), p + 1)
  {
    hide DictLoop;
  }

  lemma DictEnds(data: bytes, pos: nat, done: seq<DictEntry>)
    requires pos >= |data| || data[pos] == LOWER_E
    ensures CatEntries(done, DictLoop(data, pos)) == Entries(done, pos)
  {
    assert done + [] == done;
  }

  /** BEncoderBufferOutput: writes over the buffer from ptr on, and grows it when it is too short. */
  class BufferOutput {
    var data: bytes
    var ptr: nat

    ghost predicate Valid()
      reads this
    {
      ptr <= |data|
    }

    constructor ()
      ensures Valid() && data == [] && ptr == 0
    {
      data, ptr := [], 0;
    }

    method Write(str: bytes)
      requires Valid()
      modifies this
      ensures Valid() && ptr == old(ptr) + |str|
      ensures data == old(data)[..old(ptr)] + str + (if |old(data)| > ptr then old(data)[ptr..] else [])
    {
      var start := ptr;
      if start + |str| > |data| {
        data := data + seq(start + |str| - |data|, _ => 0 as byte);
      }
      ghost var base := data;
      for i := 0 to |str|
        invariant |data| == |base| >= start + |str| && ptr == start + i
        invariant data == base[..start] + str[..i] + base[start + i..]
      {
        data := data[ptr := str[i]];
        ptr := ptr + 1;
        assert base[..start] + str[..i + 1] + base[start + i + 1..]
               == (base[..start] + str[..i] + base[start + i..])[start + i := str[i]];
      }
      assert str[..|str|] == str;
    }
  }

  /** BEncoder. The bytes written so far are those before the cursor of the output. */
  class BEncoder {
    const out: BufferOutput

    constructor (out: BufferOutput)
      ensures this.out == out
    {
      this.out := out;
    }

    ghost predicate Valid()
      reads this, out
    {
      out.Valid() && out.ptr == |out.data|
    }

    method BeginDict()
      requires Valid()
      modifies out
      ensures Valid() && out.data == old(out.data) + [LOWER_D]
    {
      out.Write([LOWER_D]);
    }

    method BeginList()
      requires Valid()
      modifies out
      ensures Valid() && out.data == old(out.data) + [LOWER_L]
    {
      out.Write([LOWER_L]);
    }

    method End()
      requires Valid()
      modifies out
      ensures Valid() && out.data == old(out.data) + [LOWER_E]
    {
      out.Write([LOWER_E]);
    }

    method WriteNumber(n: nat)
      requires Valid()
      modifies out
      ensures Valid() && out.data == old(out.data) + EmitInt(n)
    {
      out.Write([LOWER_I] + Digits(n) + [LOWER_E]);
    }

    method WriteBytes(s: bytes)
      requires Valid()
      modifies out
      ensures Valid() && out.data == old(out.data) + EmitStr(s)
    {
      out.Write(Digits(|s|));
      out.Write([COLON]);
      out.Write(s);
      assert out.data == old(out.data) + (Digits(|s|) + [COLON] + s);
    }

    /** The sequence of begin, write and end calls for a whole tree. */
    method WriteTree(t: Tree)
      requires Valid()
      modifies out
      ensures Valid() && out.data == old(out.data) + Emit(t)
      decreases t, 0
    {
      match t
      case TStr(s) => WriteBytes(s);
      case TInt(n) => WriteNumber(n);
      case TList(ts) =>
        BeginList();
        WriteTrees(ts);
        End();
        assert out.data == old(out.data) + ([LOWER_L] + EmitList(ts) + [LOWER_E]);
      case TDict(es) =>
        BeginDict();
        WriteMembers(es);
        End();
        assert out.data == old(out.data) + ([LOWER_D] + EmitDict(es) + [LOWER_E]);
    }

    method WriteTrees(ts: seq<Tree>)
      requires Valid()
      modifies out
      ensures Valid() && out.data == old(out.data) + EmitList(ts)
      decreases ts
    {
      if ts != [] {
        WriteTree(ts[0]);
        WriteTrees(ts[1..]);
        assert out.data == old(out.data) + (Emit(ts[0]) + EmitList(ts[1..]));
      }
    }

    method WriteMembers(es: seq<Member>)
      requires Valid()
      modifies out
      ensures Valid() && out.data == old(out.data) + EmitDict(es)
      decreases es
    {
      if es != [] {
        WriteBytes(es[0].key);
        WriteTree(es[0].tree);
        WriteMembers(es[1..]);
        assert out.data == old(out.data) + (EmitStr(es[0].key) + Emit(es[0].tree) + EmitDict(es[1..]));
      }
    }
  }

  /** Writing a tree and reading it back through the objects. */
  method WriteThenRead(t: Tree) returns (r: Outcome, read: nat)
    requires Encodable(t)
    ensures r == Returned(Some(NodeAt(t, 0))) && read == |Emit(t)|
  {
    var out := new BufferOutput();
    var enc := new BEncoder(out);
    enc.WriteTree(t);
    assert out.data == Emit(t);
    RoundTrip(t);
    var dec := new BDecoder(out.data, 0);
    r := dec.DecodeNext();
    read := dec.pos;
  }
}
