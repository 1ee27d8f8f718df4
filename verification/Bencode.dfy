/** Bencoded data: what the decoder makes of a byte string and what the encoder writes (bdecoder.cpp,
    bencoder.cpp, bnode.cpp; the bencoding section of BEP 3). */
module Bencode {
  import opened Bytes

  const LOWER_D: byte := 0x64
  const LOWER_E: byte := 0x65
  const LOWER_I: byte := 0x69
  const LOWER_L: byte := 0x6C
  const COLON: byte := 0x3A
  const MINUS: byte := 0x2D
  const PLUS: byte := 0x2B
  const ZERO: byte := 0x30
  const NINE: byte := 0x39

  const INT31 := 0x8000_0000
  const INT63 := 0x8000_0000_0000_0000

  datatype Value = Str(s: bytes) | Int(i: int) | Int64(i: int)

  /** A node with the offset and the length of the bytes it came from. A dictionary at the very end of its
      input can hold a key without a node. */
  datatype Node =
    | ValueNode(off: nat, len: nat, value: Value)
    | ListNode(off: nat, len: nat, items: seq<Node>)
    | DictNode(off: nat, len: nat, entries: seq<DictEntry>)

  datatype DictEntry = DictEntry(key: bytes, node: Option<Node>)

  /** The outcome of decode: an exception, or a node or null together with the new position. */
  datatype Parsed = Fail | Done(node: Option<Node>, pos: nat)

  datatype Items = NoItems | Items(items: seq<Node>, pos: nat)

  datatype Entries = NoEntries | Entries(entries: seq<DictEntry>, pos: nat)

  predicate IsDigit(c: byte) {
    ZERO <= c <= NINE
  }

  function DigitVal(c: byte): nat
    requires IsDigit(c)
  {
    c as nat - 0x30
  }

  /** The position of the first c at or after pos, or the end of the data. */
  function Find(data: bytes, pos: nat, c: byte): (q: nat)
    requires pos <= |data|
    ensures pos <= q <= |data|
    ensures q < |data| ==> data[q] == c
    decreases |data| - pos
  {
    if pos == |data| || data[pos] == c then pos else Find(data, pos + 1, c)
  }

  function ParseDigits(s: bytes): Option<nat> {
    if s == [] || !IsDigit(s[|s| - 1]) then None
    else if |s| == 1 then Some(DigitVal(s[0]))
    else
      match ParseDigits(s[..|s| - 1])
      case Some(n) => Some(10 * n + DigitVal(s[|s| - 1]))
      case None => None
  }

  /** A decimal number with an optional sign. */
  function ParseDecimal(s: bytes): Option<int> {
    if s == [] then None
    else if s[0] == MINUS then Signed(ParseDigits(s[1..]), -1)
    else if s[0] == PLUS then Signed(ParseDigits(s[1..]), 1)
    else Signed(ParseDigits(s), 1)
  }

  function Signed(n: Option<nat>, sign: int): Option<int> {
    match n
    case Some(m) => Option<int>.Some(sign * m)
    case None => None
  }

  /** QString::toInt and QString::toLongLong: the number if it fits. */
  function ToInt(s: bytes): Option<int> {
    match ParseDecimal(s)
    case Some(n) => if -INT31 <= n < INT31 then Some(n) else None
    case None => None
  }

  function ToLongLong(s: bytes): Option<int> {
    match ParseDecimal(s)
    case Some(n) => if -INT63 <= n < INT63 then Some(n) else None
    case None => None
  }

  function ParseInt(data: bytes, pos: nat): Parsed
    requires pos < |data|
  {
    var q := Find(data, pos + 1, LOWER_E);
    if q >= |data| then Fail
    else
      var text := data[pos + 1..q];
      match ToInt(text)
      case Some(n) => Done(Some(ValueNode(pos, q + 1 - pos, Int(n))), q + 1)
      case None =>
        match ToLongLong(text)
        case Some(n) => Done(Some(ValueNode(pos, q + 1 - pos, Int64(n))), q + 1)
        case None => Fail
  }

  function ParseString(data: bytes, pos: nat): Parsed
    requires pos < |data|
  {
    var q := Find(data, pos, COLON);
    if q >= |data| then Fail
    else
      match ToInt(data[pos..q])
      case None => Fail
      case Some(len) =>
        if len < 0 || q + 1 + len > |data| then Fail
        else Done(Some(ValueNode(pos, q + 1 + len - pos, Str(data[q + 1..q + 1 + len]))), q + 1 + len)
  }

  function Left(data: bytes, pos: nat): nat {
    if pos < |data| then |data| - pos else 0
  }

  /** BDecoder::decode. It returns null exactly at the end of the data, and whenever it returns a node it has
      moved on by the length of the node. */
  function Decode(data: bytes, pos: nat): (r: Parsed)
    ensures r.Done? ==> (r.node.Some? <==> pos < |data|)
    ensures r.Done? && r.node.None? ==> r.pos == pos
    ensures r.Done? && r.node.Some? ==>
              r.pos > pos && r.node.value.off == pos && r.node.value.len == r.pos - pos && r.pos <= 2 * |data| - pos
    decreases Left(data, pos), 0
  {
    if pos >= |data| then Done(None, pos)
    else if data[pos] == LOWER_D then
      match DictLoop(data, pos + 1)
      case NoEntries => Fail
      case Entries(es, p) => Done(Some(DictNode(pos, p + 1 - pos, es)), p + 1)
    else if data[pos] == LOWER_L then
      match ListLoop(data, pos + 1)
      case NoItems => Fail
      case Items(ns, p) => Done(Some(ListNode(pos, p + 1 - pos, ns)), p + 1)
    else if data[pos] == LOWER_I then ParseInt(data, pos)
    else if IsDigit(data[pos]) then ParseString(data, pos)
    else Fail
  }

  /** The loop of parseList. */
  function ListLoop(data: bytes, pos: nat): (r: Items)
    ensures r.Items? ==> pos <= r.pos
    ensures r.Items? && pos <= |data| ==> r.pos <= 2 * |data| - pos
    ensures r.Items? && pos > |data| ==> r.pos == pos
    decreases Left(data, pos), 1
  {
    if pos < |data| && data[pos] != LOWER_E then
      match Decode(data, pos)
      case Fail => NoItems
      case Done(n, p) =>
        (match ListLoop(data, p)
         case NoItems => NoItems
         case Items(ns, p2) => Items([n.value] + ns, p2))
    else Items([], pos)
  }

  /** The loop of parseDict. */
  function DictLoop(data: bytes, pos: nat): (r: Entries)
    ensures r.Entries? ==> pos <= r.pos
    ensures r.Entries? && pos <= |data| ==> r.pos <= 2 * |data| - pos
    ensures r.Entries? && pos > |data| ==> r.pos == pos
    decreases Left(data, pos), 1
  {
    if pos < |data| && data[pos] != LOWER_E then
      match Decode(data, pos)
      case Fail => NoEntries
      case Done(k, p) =>
        if !k.value.ValueNode? || !k.value.value.Str? then NoEntries
        else
          (match Decode(data, p)
           case Fail => NoEntries
           case Done(v, p2) =>
             (match DictLoop(data, p2)
              case NoEntries => NoEntries
              case Entries(es, p3) => Entries([DictEntry(k.value.value.s, v)] + es, p3)))
    else Entries([], pos)
  }

  /** What the encoder is asked to write: nested dictionaries and lists of byte strings and numbers. */
  datatype Tree =
    | TStr(s: bytes)
    | TInt(i: nat)
    | TList(ts: seq<Tree>)
    | TDict(es: seq<Member>)

  datatype Member = Member(key: bytes, tree: Tree)

  function Digits(n: nat): (r: bytes)
    ensures r != []
    ensures forall i :: 0 <= i < |r| ==> IsDigit(r[i])
  {
    if n < 10 then [(0x30 + n) as byte] else Digits(n / 10) + [(0x30 + n % 10) as byte]
  }

  function EmitStr(s: bytes): bytes {
    Digits(|s|) + [COLON] + s
  }

  function EmitInt(n: nat): bytes {
    [LOWER_I] + Digits(n) + [LOWER_E]
  }

  function Emit(t: Tree): (r: bytes)
    ensures r != [] && r[0] != LOWER_E
    decreases t, 0
  {
    match t
    case TStr(s) => EmitStr(s)
    case TInt(n) => EmitInt(n)
    case TList(ts) => [LOWER_L] + EmitList(ts) + [LOWER_E]
    case TDict(es) => [LOWER_D] + EmitDict(es) + [LOWER_E]
  }

  function EmitList(ts: seq<Tree>): bytes
    decreases ts
  {
    if ts == [] then [] else Emit(ts[0]) + EmitList(ts[1..])
  }

  function EmitDict(es: seq<Member>): bytes
    decreases es
  {
    if es == [] then [] else EmitStr(es[0].key) + Emit(es[0].tree) + EmitDict(es[1..])
  }

  /** The widths of the source: lengths are ints, and numbers are read back as signed 64-bit numbers. */
  predicate Encodable(t: Tree)
    decreases t, 0
  {
    match t
    case TStr(s) => |s| < INT31
    case TInt(n) => n < INT63
    case TList(ts) => EncodableList(ts)
    case TDict(es) => EncodableDict(es)
  }

  predicate EncodableList(ts: seq<Tree>)
    decreases ts
  {
    ts == [] || (Encodable(ts[0]) && EncodableList(ts[1..]))
  }

  predicate EncodableDict(es: seq<Member>)
    decreases es
  {
    es == [] || (|es[0].key| < INT31 && Encodable(es[0].tree) && EncodableDict(es[1..]))
  }

  /** The node that stands for a tree written at a given offset. */
  function NodeAt(t: Tree, off: nat): Node
    decreases t, 0
  {
    var len := |Emit(t)|;
    match t
    case TStr(s) => ValueNode(off, len, Str(s))
    case TInt(n) => ValueNode(off, len, if n < INT31 then Int(n) else Int64(n))
    case TList(ts) => ListNode(off, len, NodesAt(ts, off + 1))
    case TDict(es) => DictNode(off, len, EntriesAt(es, off + 1))
  }

  function NodesAt(ts: seq<Tree>, off: nat): seq<Node>
    decreases ts
  {
    if ts == [] then [] else [NodeAt(ts[0], off)] + NodesAt(ts[1..], off + |Emit(ts[0])|)
  }

  function EntriesAt(es: seq<Member>, off: nat): seq<DictEntry>
    decreases es
  {
    if es == [] then []
    else
      var v := off + |EmitStr(es[0].key)|;
      [DictEntry(es[0].key, Some(NodeAt(es[0].tree, v)))] + EntriesAt(es[1..], v + |Emit(es[0].tree)|)
  }

  lemma {:induction false} ParseOfDigits(n: nat)
    ensures ParseDigits(Digits(n)) == Some(n)
  {
    if n >= 10 {
      ParseOfDigits(n / 10);
      var r := Digits(n);
      assert r[..|r| - 1] == Digits(n / 10);
    }
  }

  lemma ParseDecimalOfDigits(n: nat)
    ensures ParseDecimal(Digits(n)) == Some(n)
  {
    ParseOfDigits(n);
    assert IsDigit(Digits(n)[0]);
  }

  /** s lies at position pos of the data. */
  predicate At(data: bytes, pos: nat, s: bytes) {
    pos + |s| <= |data| && data[pos..pos + |s|] == s
  }

  lemma AtSplit(data: bytes, pos: nat, a: bytes, b: bytes)
    ensures At(data, pos, a + b) <==> At(data, pos, a) && At(data, pos + |a|, b)
  {
    if At(data, pos, a + b) {
      assert data[pos..pos + |a|] == data[pos..pos + |a + b|][..|a|] == (a + b)[..|a|];
      assert data[pos + |a|..pos + |a| + |b|] == data[pos..pos + |a + b|][|a|..] == (a + b)[|a|..];
    }
    if At(data, pos, a) && At(data, pos + |a|, b) {
      assert data[pos..pos + |a + b|] == data[pos..pos + |a|] + data[pos + |a|..pos + |a| + |b|];
    }
  }

  lemma AtByte(data: bytes, pos: nat, c: byte)
    ensures At(data, pos, [c]) <==> pos < |data| && data[pos] == c
  {
    if pos < |data| {
      assert data[pos..pos + 1] == [data[pos]];
    }
  }

  lemma AtIndex(data: bytes, pos: nat, s: bytes, i: nat)
    requires At(data, pos, s) && i < |s|
    ensures data[pos + i] == s[i]
  {
    assert data[pos..pos + |s|][i] == s[i];
  }

  lemma {:induction false} FindAt(data: bytes, pos: nat, q: nat, c: byte)
    requires pos <= q < |data| && data[q] == c
    requires forall i :: pos <= i < q ==> data[i] != c
    ensures Find(data, pos, c) == q
    decreases q - pos
  {
    if pos < q {
      FindAt(data, pos + 1, q, c);
    }
  }

  /** Digits followed by a byte that is no digit are found as a whole. */
  lemma FindAfterDigits(data: bytes, pos: nat, n: nat, c: byte)
    requires At(data, pos, Digits(n) + [c]) && !IsDigit(c)
    ensures var q := pos + |Digits(n)|;
            q < |data| && Find(data, pos, c) == q && data[pos..q] == Digits(n)
  {
    var q := pos + |Digits(n)|;
    AtSplit(data, pos, Digits(n), [c]);
    AtByte(data, q, c);
    forall i | pos <= i < q
      ensures data[i] != c
    {
      AtIndex(data, pos, Digits(n), i - pos);
    }
    FindAt(data, pos, q, c);
  }

  lemma DecodeStr(data: bytes, pos: nat, s: bytes)
    requires At(data, pos, EmitStr(s)) && |s| < INT31
    ensures Decode(data, pos) == Done(Some(ValueNode(pos, |EmitStr(s)|, Str(s))), pos + |EmitStr(s)|)
  {
    hide Decode, Find, Digits, ToInt, IsDigit, ParseString;
    var q := pos + |Digits(|s|)|;
    AtSplit(data, pos, Digits(|s|) + [COLON], s);
    FindAfterDigits(data, pos, |s|, COLON) by { NoDigits(); }
    FirstDigit(|s|);
    AtIndex(data, pos, EmitStr(s), 0);
    NumberOfDigits(|s|);
    assert data[q + 1..q + 1 + |s|] == s;
    StringDispatch(data, pos);
    StringAt(data, pos, q, |s|);
  }

  lemma NoDigits()
    ensures !IsDigit(COLON) && !IsDigit(LOWER_E)
  {
  }

  lemma FirstDigit(n: nat)
    ensures var d := Digits(n)[0]; IsDigit(d) && d != LOWER_D && d != LOWER_L && d != LOWER_I
  {
    ParseOfDigits(n);
  }

  lemma StringAt(data: bytes, pos: nat, q: nat, len: nat)
    requires pos <= q < |data| && pos < |data| && Find(data, pos, COLON) == q
    requires ToInt(data[pos..q]) == Some(len) && q + 1 + len <= |data|
    ensures ParseString(data, pos)
            == Done(Some(ValueNode(pos, q + 1 + len - pos, Str(data[q + 1..q + 1 + len]))), q + 1 + len)
  {
    hide Find, ToInt;
  }

  /** A number written by the encoder is read back exactly if it fits 63 bits; and the kind of the value tells
      whether it fits 31. */
  lemma DecodeInt(data: bytes, pos: nat, n: nat)
    requires At(data, pos, EmitInt(n))
    ensures Decode(data, pos)
            == if n < INT63
               then Done(Some(ValueNode(pos, |EmitInt(n)|, if n < INT31 then Int(n) else Int64(n))), pos + |EmitInt(n)|)
               else Fail
  {
    hide Decode, Find, Digits, ToInt, ToLongLong;
    var ds := Digits(n);
    assert EmitInt(n) == [LOWER_I] + (ds + [LOWER_E]);
    AtSplit(data, pos, [LOWER_I], ds + [LOWER_E]);
    AtByte(data, pos, LOWER_I);
    FindAfterDigits(data, pos + 1, n, LOWER_E);
    NumberOfDigits(n);
    IntDispatch(data, pos);
  }

  lemma NumberOfDigits(n: nat)
    ensures ToInt(Digits(n)) == if n < INT31 then Some(n) else None
    ensures ToLongLong(Digits(n)) == if n < INT63 then Some(n) else None
  {
    ParseDecimalOfDigits(n);
  }

  lemma IntDispatch(data: bytes, pos: nat)
    requires pos < |data| && data[pos] == LOWER_I
    ensures Decode(data, pos) == ParseInt(data, pos)
  {
    hide ParseInt;
  }

  /** Decoding what the encoder wrote gives the tree back, with the order and the repetitions of dictionary
      keys, and stops right behind it, whatever comes next. */
  lemma {:induction false} DecodeEmitted(data: bytes, pos: nat, t: Tree)
    requires At(data, pos, Emit(t)) && Encodable(t)
    ensures Decode(data, pos) == Done(Some(NodeAt(t, pos)), pos + |Emit(t)|)
    decreases t, 0
  {
    hide Decode, ListLoop, DictLoop, EmitList, EmitDict, EmitStr, EmitInt, EncodableList, EncodableDict;
    match t
    case TStr(s) => DecodeStr(data, pos, s);
    case TInt(n) => DecodeInt(data, pos, n);
    case TList(ts) =>
      Bracketed(data, pos, LOWER_L, EmitList(ts));
      DecodeEmittedList(data, pos + 1, ts);
      CloseList(data, pos, NodesAt(ts, pos + 1), pos + 1 + |EmitList(ts)|);
    case TDict(es) =>
      Bracketed(data, pos, LOWER_D, EmitDict(es));
      DecodeEmittedDict(data, pos + 1, es);
      CloseDict(data, pos, EntriesAt(es, pos + 1), pos + 1 + |EmitDict(es)|);
  }

  lemma CloseList(data: bytes, pos: nat, items: seq<Node>, p: nat)
    requires pos < |data| && data[pos] == LOWER_L && ListLoop(data, pos + 1) == Items(items, p)
    ensures Decode(data, pos) == Done(Some(ListNode(pos, p + 1 - pos, items)), p + 1)
  {
  }

  lemma CloseDict(data: bytes, pos: nat, entries: seq<DictEntry>, p: nat)
    requires pos < |data| && data[pos] == LOWER_D && DictLoop(data, pos + 1) == Entries(entries, p)
    ensures Decode(data, pos) == Done(Some(DictNode(pos, p + 1 - pos, entries)), p + 1)
  {
    hide DictLoop, ListLoop;
  }

  lemma Bracketed(data: bytes, pos: nat, c: byte, inner: bytes)
    requires At(data, pos, [c] + inner + [LOWER_E])
    ensures pos < |data| && data[pos] == c && At(data, pos + 1, inner)
    ensures var q := pos + 1 + |inner|; q < |data| && data[q] == LOWER_E
  {
    AtSplit(data, pos, [c] + inner, [LOWER_E]);
    AtSplit(data, pos, [c], inner);
    AtByte(data, pos, c);
    AtByte(data, pos + 1 + |inner|, LOWER_E);
  }

  lemma {:induction false} DecodeEmittedList(data: bytes, pos: nat, ts: seq<Tree>)
    requires At(data, pos, EmitList(ts)) && EncodableList(ts)
    requires pos + |EmitList(ts)| < |data| && data[pos + |EmitList(ts)|] == LOWER_E
    ensures ListLoop(data, pos) == Items(NodesAt(ts, pos), pos + |EmitList(ts)|)
    decreases ts
  {
    hide Decode, ListLoop, Emit, NodeAt, Encodable;
    if ts == [] {
      LoopsEnd(data, pos);
    } else {
      var p := pos + |Emit(ts[0])|;
      AtSplit(data, pos, Emit(ts[0]), EmitList(ts[1..]));
      AtIndex(data, pos, Emit(ts[0]), 0);
      DecodeEmitted(data, pos, ts[0]);
      DecodeEmittedList(data, p, ts[1..]);
      ListLoopStep(data, pos, NodeAt(ts[0], pos), p, ListLoop(data, p));
    }
  }

  lemma LoopsEnd(data: bytes, pos: nat)
    requires pos < |data| && data[pos] == LOWER_E
    ensures ListLoop(data, pos) == Items([], pos) && DictLoop(data, pos) == Entries([], pos)
  {
  }

  /** One round of the loop of parseList. */
  lemma ListLoopStep(data: bytes, pos: nat, n: Node, p: nat, rest: Items)
    requires pos < |data| && data[pos] != LOWER_E
    requires Decode(data, pos) == Done(Some(n), p)
    requires ListLoop(data, p) == rest && rest.Items?
    ensures ListLoop(data, pos) == Items([n] + rest.items, rest.pos)
  {
  }

  /** One round of the loop of parseDict. */
  lemma DictLoopStep(data: bytes, pos: nat, k: Node, p: nat, v: Option<Node>, p2: nat, rest: Entries)
    requires pos < |data| && data[pos] != LOWER_E
    requires Decode(data, pos) == Done(Some(k), p) && k.ValueNode? && k.value.Str?
    requires Decode(data, p) == Done(v, p2)
    requires DictLoop(data, p2) == rest && rest.Entries?
    ensures DictLoop(data, pos) == Entries([DictEntry(k.value.s, v)] + rest.entries, rest.pos)
  {
  }

  lemma {:induction false} DecodeEmittedDict(data: bytes, pos: nat, es: seq<Member>)
    requires At(data, pos, EmitDict(es)) && EncodableDict(es)
    requires pos + |EmitDict(es)| < |data| && data[pos + |EmitDict(es)|] == LOWER_E
    ensures DictLoop(data, pos) == Entries(EntriesAt(es, pos), pos + |EmitDict(es)|)
    decreases es
  {
    hide Decode, DictLoop, Emit, EmitStr, NodeAt, Encodable;
    if es == [] {
      LoopsEnd(data, pos);
    } else {
      var p, p2 := EmittedDictSplits(data, pos, es);
      DecodeStr(data, pos, es[0].key);
      DecodeEmitted(data, p, es[0].tree);
      DecodeEmittedDict(data, p2, es[1..]);
      DictLoopStep(data, pos, ValueNode(pos, p - pos, Str(es[0].key)), p, Some(NodeAt(es[0].tree, p)), p2,
                   DictLoop(data, p2));
    }
  }

  lemma EmittedDictSplits(data: bytes, pos: nat, es: seq<Member>) returns (p: nat, p2: nat)
    requires es != [] && At(data, pos, EmitDict(es))
    ensures var k, v := EmitStr(es[0].key), Emit(es[0].tree);
            && p == pos + |k| && p2 == p + |v|
            && At(data, pos, k) && At(data, p, v) && At(data, p2, EmitDict(es[1..]))
            && p2 + |EmitDict(es[1..])| == pos + |EmitDict(es)|
            && data[pos] != LOWER_E
  {
    var k, v, rest := EmitStr(es[0].key), Emit(es[0].tree), EmitDict(es[1..]);
    AtSplit(data, pos, k + v, rest);
    AtSplit(data, pos, k, v);
    AtIndex(data, pos, k, 0);
    p, p2 := pos + |k|, pos + |k| + |v|;
  }

  /** The whole output of the encoder, read from its beginning. */
  lemma RoundTrip(t: Tree)
    requires Encodable(t)
    ensures Decode(Emit(t), 0) == Done(Some(NodeAt(t, 0)), |Emit(t)|)
  {
    assert Emit(t)[0..|Emit(t)|] == Emit(t);
    DecodeEmitted(Emit(t), 0, t);
  }

  /** The list children lie side by side between two positions, each decodes to itself at its own offset, and
      so do their own parts. */
  ghost predicate Tiled(data: bytes, items: seq<Node>, from: nat, to: nat)
    decreases items
  {
    if items == [] then from == to
    else
      && Decode(data, from) == Done(Some(items[0]), from + items[0].len)
      && Spanned(data, items[0])
      && Tiled(data, items[1..], from + items[0].len, to)
  }

  /** The same for a dictionary, whose keys lie between the values. */
  ghost predicate TiledDict(data: bytes, entries: seq<DictEntry>, from: nat, to: nat)
    decreases entries
  {
    if entries == [] then from == to
    else
      var DictEntry(key, child) := entries[0];
      && IsKeyAt(data, from, key)
      && child.Some? && child.value.off > from
      && Decode(data, from).pos == child.value.off
      && Decode(data, child.value.off) == Done(child, child.value.off + child.value.len)
      && Spanned(data, child.value)
      && TiledDict(data, entries[1..], child.value.off + child.value.len, to)
  }

  /** A string token with this content begins here. */
  ghost predicate IsKeyAt(data: bytes, from: nat, key: bytes) {
    var r := Decode(data, from);
    r.Done? && r.node.Some? && r.node.value.ValueNode? && r.node.value.value == Str(key)
  }

  /** The bytes of a node: within the data, delimited by its marker and an 'e', and tiled by its parts. */
  ghost predicate Spanned(data: bytes, n: Node)
    decreases n
  {
    && n.off + n.len <= |data|
    && match n
       case ValueNode(_, _, _) => true
       case ListNode(off, len, items) =>
         len >= 2 && data[off] == LOWER_L && data[off + len - 1] == LOWER_E
         && Tiled(data, items, off + 1, off + len - 1)
       case DictNode(off, len, entries) =>
         len >= 2 && data[off] == LOWER_D && data[off + len - 1] == LOWER_E
         && TiledDict(data, entries, off + 1, off + len - 1)
  }

  /** The parts of a decoded node tile its bytes exactly when the decoder has not run past the end of the data. */
  lemma {:induction false} DecodeSpans(data: bytes, pos: nat)
    requires var r := Decode(data, pos); r.Done? && r.node.Some?
    ensures var r := Decode(data, pos); Spanned(data, r.node.value) <==> r.pos <= |data|
    decreases Left(data, pos), 0
  {
    hide Decode, ListLoop, DictLoop, Tiled, TiledDict;
    DecodeKinds(data, pos);
    var r := Decode(data, pos);
    var n := r.node.value;
    if r.pos <= |data| {
      if data[pos] == LOWER_D {
        DictLoopTiles(data, pos + 1);
      } else if data[pos] == LOWER_L {
        ListLoopTiles(data, pos + 1);
      }
      assert Spanned(data, n);
    }
  }

  /** Which parser a node came from. */
  lemma DecodeKinds(data: bytes, pos: nat)
    requires var r := Decode(data, pos); r.Done? && r.node.Some?
    ensures var n, p := Decode(data, pos).node.value, Decode(data, pos).pos;
            if data[pos] == LOWER_D then n.DictNode? && DictLoop(data, pos + 1) == Entries(n.entries, p - 1)
            else if data[pos] == LOWER_L then n.ListNode? && ListLoop(data, pos + 1) == Items(n.items, p - 1)
            else n.ValueNode?
  {
  }

  lemma {:induction false} ListLoopTiles(data: bytes, pos: nat)
    requires var r := ListLoop(data, pos); r.Items? && r.pos < |data|
    ensures var r := ListLoop(data, pos); data[r.pos] == LOWER_E && Tiled(data, r.items, pos, r.pos)
    decreases Left(data, pos), 1
  {
    var r := ListLoop(data, pos);
    if data[pos] != LOWER_E {
      var d := Decode(data, pos);
      ListLoopTiles(data, d.pos);
      DecodeSpans(data, pos);
      assert r.items[1..] == ListLoop(data, d.pos).items;
    }
  }

  lemma {:induction false} DictLoopTiles(data: bytes, pos: nat)
    requires var r := DictLoop(data, pos); r.Entries? && r.pos < |data|
    ensures var r := DictLoop(data, pos); data[r.pos] == LOWER_E && TiledDict(data, r.entries, pos, r.pos)
    decreases Left(data, pos), 1
  {
    hide Decode, Spanned, TiledDict, DictLoop;
    if data[pos] == LOWER_E {
      DictLoopEmpty(data, pos);
    } else {
      DictLoopParts(data, pos);
      var k := Decode(data, pos);
      var v := Decode(data, k.pos);
      DictLoopTiles(data, v.pos);
      DecodeSpans(data, k.pos);
      TileDictEntry(data, pos, k.node.value.value.s, v.node.value, DictLoop(data, v.pos));
      assert TiledDict(data, DictLoop(data, pos).entries, pos, DictLoop(data, pos).pos);
    }
  }

  lemma DictLoopEmpty(data: bytes, pos: nat)
    requires pos < |data| && data[pos] == LOWER_E
    ensures DictLoop(data, pos) == Entries([], pos) && TiledDict(data, [], pos, pos)
  {
  }

  lemma DictLoopParts(data: bytes, pos: nat)
    requires pos < |data| && data[pos] != LOWER_E && DictLoop(data, pos).Entries?
    requires DictLoop(data, pos).pos < |data|
    ensures var k := Decode(data, pos);
            && IsKey(k)
            && var v := Decode(data, k.pos);
               && v.Done? && v.node.Some?
               && var rest := DictLoop(data, v.pos);
                  && rest.Entries?
                  && DictLoop(data, pos) == Entries([DictEntry(k.node.value.value.s, v.node)] + rest.entries, rest.pos)
  {
  }

  predicate IsKey(r: Parsed) {
    r.Done? && r.node.Some? && r.node.value.ValueNode? && r.node.value.value.Str?
  }

  lemma TileDictEntry(data: bytes, pos: nat, key: bytes, child: Node, rest: Entries)
    requires rest.Entries? && IsKeyAt(data, pos, key) && child.off > pos
    requires Decode(data, pos).pos == child.off
    requires Decode(data, child.off) == Done(Some(child), child.off + child.len)
    requires Spanned(data, child) && TiledDict(data, rest.entries, child.off + child.len, rest.pos)
    ensures TiledDict(data, [DictEntry(key, Some(child))] + rest.entries, pos, rest.pos)
  {
    hide Decode, Spanned;
    assert ([DictEntry(key, Some(child))] + rest.entries)[1..] == rest.entries;
  }

  /** Where the number or string that begins here ends, going by its own marks. */
  function TokenEnd(data: bytes, pos: nat): (r: Option<nat>)
    requires pos < |data|
    ensures r.Some? ==> pos < r.value <= |data|
  {
    if data[pos] == LOWER_I then
      var q := Find(data, pos + 1, LOWER_E);
      if q < |data| then Some(q + 1) else None
    else
      var q := Find(data, pos, COLON);
      if q == |data| then None
      else
        match ToInt(data[pos..q])
        case None => None
        case Some(len) => if 0 <= len && q + 1 + len <= |data| then Some(q + 1 + len) else None
  }

  /** A walk over the tokens from here on, with this many containers open, meets enough closing marks before the data
      end. Nothing is built and nothing is remembered but the number of open containers. */
  predicate Closes(data: bytes, pos: nat, depth: nat)
    decreases Left(data, pos)
  {
    if depth == 0 then pos <= |data|
    else if pos >= |data| then false
    else if data[pos] == LOWER_E then Closes(data, pos + 1, depth - 1)
    else if data[pos] == LOWER_D || data[pos] == LOWER_L then Closes(data, pos + 1, depth + 1)
    else TokenEnd(data, pos).Some? && Closes(data, TokenEnd(data, pos).value, depth)
  }

  /** The token here is a number or a string, or a container whose closing mark lies within the data. */
  predicate Closed(data: bytes, pos: nat)
    requires pos < |data|
  {
    data[pos] == LOWER_D || data[pos] == LOWER_L ==> Closes(data, pos + 1, 1)
  }

  lemma ScalarEnd(data: bytes, pos: nat)
    requires pos < |data| && data[pos] != LOWER_D && data[pos] != LOWER_L && Decode(data, pos).Done?
    ensures data[pos] != LOWER_E && TokenEnd(data, pos) == Some(Decode(data, pos).pos)
  {
    hide Decode, ParseInt, ParseString, TokenEnd;
    if data[pos] == LOWER_I {
      IntDispatch(data, pos);
      IntEnd(data, pos);
    } else {
      StringDispatch(data, pos);
      StringEnd(data, pos);
    }
  }

  lemma StringDispatch(data: bytes, pos: nat)
    requires pos < |data| && data[pos] != LOWER_D && data[pos] != LOWER_L && data[pos] != LOWER_I
    ensures Decode(data, pos) == if IsDigit(data[pos]) then ParseString(data, pos) else Fail
    ensures IsDigit(data[pos]) ==> data[pos] != LOWER_E
  {
    hide ParseString;
  }

  lemma IntEnd(data: bytes, pos: nat)
    requires pos < |data| && data[pos] == LOWER_I && ParseInt(data, pos).Done?
    ensures TokenEnd(data, pos) == Some(ParseInt(data, pos).pos)
  {
    hide Find, ToInt, ToLongLong;
  }

  lemma StringEnd(data: bytes, pos: nat)
    requires pos < |data| && data[pos] != LOWER_I && ParseString(data, pos).Done?
    ensures TokenEnd(data, pos) == Some(ParseString(data, pos).pos)
  {
    hide Find, ToInt;
  }

  lemma {:induction false} DecodeCloses(data: bytes, pos: nat, depth: nat)
    requires depth > 0 && pos < |data| && Decode(data, pos).Done?
    ensures Closes(data, pos, depth) <==> Closes(data, Decode(data, pos).pos, depth)
    decreases Left(data, pos), 0
  {
    hide Decode, ListLoop, DictLoop, TokenEnd;
    DecodeKinds(data, pos);
    if data[pos] == LOWER_D {
      DictCloses(data, pos + 1, depth);
    } else if data[pos] == LOWER_L {
      ListCloses(data, pos + 1, depth);
    } else {
      ScalarEnd(data, pos);
    }
  }

  lemma {:induction false} ListCloses(data: bytes, pos: nat, depth: nat)
    requires ListLoop(data, pos).Items?
    ensures var p := ListLoop(data, pos).pos;
            Closes(data, pos, depth + 1) <==> p < |data| && Closes(data, p + 1, depth)
    decreases Left(data, pos), 1
  {
    hide Decode, TokenEnd;
    if pos < |data| && data[pos] != LOWER_E {
      DecodeCloses(data, pos, depth + 1);
      ListCloses(data, Decode(data, pos).pos, depth);
    }
  }

  lemma {:induction false} DictCloses(data: bytes, pos: nat, depth: nat)
    requires DictLoop(data, pos).Entries?
    ensures var p := DictLoop(data, pos).pos;
            Closes(data, pos, depth + 1) <==> p < |data| && Closes(data, p + 1, depth)
    decreases Left(data, pos), 1
  {
    hide Decode, TokenEnd;
    if pos < |data| && data[pos] != LOWER_E {
      var k := Decode(data, pos);
      DecodeCloses(data, pos, depth + 1);
      if k.pos < |data| {
        DecodeCloses(data, k.pos, depth + 1);
      }
      DictCloses(data, Decode(data, k.pos).pos, depth);
    }
  }

  /** A decoded node is tiled by its parts exactly if it is closed in the data. */
  lemma SpannedIfClosed(data: bytes, pos: nat)
    requires pos < |data| && Decode(data, pos).Done?
    ensures Spanned(data, Decode(data, pos).node.value) <==> Closed(data, pos)
  {
    hide Decode, ListLoop, DictLoop, TokenEnd, Spanned;
    DecodeSpans(data, pos);
    DecodeKinds(data, pos);
    var r := Decode(data, pos);
    if data[pos] == LOWER_D {
      DictCloses(data, pos + 1, 0);
    } else if data[pos] == LOWER_L {
      ListCloses(data, pos + 1, 0);
    } else {
      ScalarEnd(data, pos);
    }
  }

  /** Unclosed input is accepted: a lone 'l' is an empty list of two bytes. */
  lemma UnclosedList()
    ensures Decode([LOWER_L], 0) == Done(Some(ListNode(0, 2, [])), 2)
    ensures !Spanned([LOWER_L], ListNode(0, 2, []))
  {
  }

  /** So is a dictionary that ends behind a key, which then has no node: "d1:a". */
  lemma UnclosedDict()
    ensures Decode([LOWER_D, 0x31, COLON, 0x61], 0) == Done(Some(DictNode(0, 5, [DictEntry([0x61], None)])), 5)
  {
    hide ToInt, Decode, DictLoop, ListLoop;
    var data := [LOWER_D, 0x31, COLON, 0x61];
    assert data[1..2] == [0x31];
    assert ToInt([0x31]) == Some(1) by { OneDigit(); }
    assert Find(data, 2, COLON) == 2;
    assert Find(data, 1, COLON) == 2;
    StringAt(data, 1, 2, 1);
    assert data[3..4] == [0x61];
    assert Decode(data, 1) == ParseString(data, 1) by { StringDispatch(data, 1); }
    LastKey(data);
  }

  lemma OneDigit()
    ensures ToInt([0x31]) == Some(1)
  {
    assert ParseDigits([0x31]) == Some(1);
  }

  lemma LastKey(data: bytes)
    requires |data| == 4 && data[0] == LOWER_D && data[1] != LOWER_E
    requires Decode(data, 1) == Done(Some(ValueNode(1, 3, Str([data[3]]))), 4)
    ensures Decode(data, 0) == Done(Some(DictNode(0, 5, [DictEntry([data[3]], None)])), 5)
  {
    assert DictLoop(data, 4) == Entries([], 4);
    assert Decode(data, 4) == Done(None, 4);
    assert DictLoop(data, 1) == Entries([DictEntry([data[3]], None)], 4);
  }
}
