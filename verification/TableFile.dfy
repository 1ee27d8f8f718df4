/** The routing table on disk (KBucket::save, KBucket::load, Node::saveTable, Node::loadTable). */
module TableFile {
  import opened Bytes
  import opened Keys
  import opened Entries
  import opened Bucket
  import B = Bucket
  import opened Pack
  import opened Routing

  /** BUCKET_MAGIC_NUMBER + 1. */
  const MAGIC: nat := 0xB0C4B0C5

  /** A header is written as it lies in memory, so its words have the byte order of the machine: here the
      least significant byte first. */
  function Word(n: nat): (r: bytes)
    requires n < UINT32
    ensures |r| == 4
  {
    Pow2Wide();
    var b := BigEndian(n, 4);
    [b[3], b[2], b[1], b[0]]
  }

  function WordAt(f: bytes, pos: nat): nat
    requires pos + 4 <= |f|
  {
    Val([f[pos + 3], f[pos + 2], f[pos + 1], f[pos]])
  }

  lemma WordRead(before: bytes, n: nat, after: bytes)
    requires n < UINT32
    ensures WordAt(before + Word(n) + after, |before|) == n
  {
    Pow2Wide();
    var f, pos := before + Word(n) + after, |before|;
    assert f[pos..pos + 4] == Word(n);
    var w := f[pos..pos + 4];
    assert [f[pos + 3], f[pos + 2], f[pos + 1], f[pos]] == [w[3], w[2], w[1], w[0]] == BigEndian(n, 4);
  }

  /** An IPv4 address is written as the number it is in memory, most significant byte first, and so, on this machine,
      back to front. */
  function Reversed(ip: Ip4): Ip4 {
    [ip[3], ip[2], ip[1], ip[0]]
  }

  function FileAddress(a: Address): bytes {
    match a
    case V4(ip, port) => Reversed(ip) + PortBytes(port)
    case V6(ip, port) => ip + PortBytes(port)
  }

  /** 27 bytes for an IPv4 entry and 39 for an IPv6 one. */
  function Record(e: Entry): (r: bytes)
    ensures |r| == if e.addr.V4? then 27 else 39
  {
    [if e.addr.V4? then 4 else 6] + FileAddress(e.addr) + e.id
  }

  /** The bytes of a record: the tag, the address, back to front if it is an IPv4 one, the port with its high byte
      first, and the id. */
  lemma RecordBytes(e: Entry)
    ensures match e.addr
            case V4(ip, port) =>
              Record(e) == [4, ip[3], ip[2], ip[1], ip[0], (port / 256) as byte, (port % 256) as byte] + e.id
            case V6(ip, port) => Record(e) == [6] + ip + [(port / 256) as byte, (port % 256) as byte] + e.id
  {
    PortHighFirst(e.addr.port);
  }

  lemma PortHighFirst(p: Port)
    ensures PortBytes(p) == [(p / 256) as byte, (p % 256) as byte]
  {
    BytePowers();
    var r := PortBytes(p);
    assert r == [r[0], r[1]];
    assert r[1..][1..] == [];
    assert Val(r[1..]) == r[1] as nat;
    assert Val(r) == r[0] as nat * 256 + r[1] as nat;
  }

  function Records(es: seq<Entry>): bytes {
    if es == [] then [] else Record(es[0]) + Records(es[1..])
  }

  datatype Read = Read(e: Entry, next: nat)

  /** One record, or None if the file ends within it. Every tag but 6 means IPv4. */
  function ReadRecord(f: bytes, pos: nat, now: Time): (r: Option<Read>)
    ensures r.Some? ==> pos < r.value.next <= |f|
  {
    if pos + 27 > |f| then None
    else if f[pos] != 6 then
      Some(Read(Fresh(V4(Reversed(f[pos + 1..pos + 5]), PortAt(f, pos + 5)), f[pos + 7..pos + 27], now), pos + 27))
    else if pos + 39 > |f| then None
    else
      Some(Read(Fresh(V6(f[pos + 1..pos + 17], PortAt(f, pos + 17)), f[pos + 19..pos + 39], now), pos + 39))
  }

  datatype Chunk = Chunk(entries: seq<Entry>, next: nat, short: bool)

  /** load: n records, or as many as the file holds. */
  function ReadEntries(f: bytes, pos: nat, n: nat, now: Time): (c: Chunk)
    requires pos <= |f|
    ensures |c.entries| <= n && pos <= c.next <= |f| && (c.short ==> c.next == |f|)
    decreases n
  {
    if n == 0 then Chunk([], pos, false)
    else
      match ReadRecord(f, pos, now)
      case None => Chunk([], |f|, true)
      case Some(r) =>
        var rest := ReadEntries(f, r.next, n - 1, now);
        Chunk([r.e] + rest.entries, rest.next, rest.short)
  }

  /** One round of the loop of load, after some entries have been read. */
  lemma ReadStep(f: bytes, pos: nat, n: nat, now: Time, read: seq<Entry>)
    requires pos <= |f| && n > 0
    ensures var c := ReadEntries(f, pos, n, now);
            match ReadRecord(f, pos, now)
            case None => c == Chunk([], |f|, true) && read + c.entries == read
            case Some(r) =>
              var rest := ReadEntries(f, r.next, n - 1, now);
              && c.next == rest.next && c.short == rest.short
              && read + c.entries == read + [r.e] + rest.entries
  {
    hide ReadRecord;
  }

  lemma ReadDone(f: bytes, pos: nat, now: Time, read: seq<Entry>)
    requires pos <= |f|
    ensures ReadEntries(f, pos, 0, now) == Chunk([], pos, false) && read + [] == read
  {
  }

  function Header(index: nat, count: nat): (r: bytes)
    requires index < UINT32 && count < UINT32
    ensures |r| == 12
  {
    Word(MAGIC) + Word(index) + Word(count)
  }

  /** The bytes of a header, the least significant byte of every word first. */
  lemma HeaderBytes(index: byte, count: byte)
    ensures Header(index as nat, count as nat)
            == [0xC5, 0xB0, 0xC4, 0xB0, index, 0, 0, 0, count, 0, 0, 0]
  {
    SmallWord(index);
    SmallWord(count);
    WordOf([0xB0, 0xC4, 0xB0, 0xC5], MAGIC);
  }

  lemma SmallWord(n: byte)
    ensures Word(n as nat) == [n, 0, 0, 0]
  {
    WordOf([0, 0, 0, n], n as nat);
  }

  lemma WordOf(b: bytes, n: nat)
    requires |b| == 4 && n < UINT32
    requires n == 0x100_0000 * b[0] as nat + 0x1_0000 * b[1] as nat + 0x100 * b[2] as nat + b[3] as nat
    ensures Word(n) == [b[3], b[2], b[1], b[0]]
  {
    hide Val, BigEndian;
    Pow2Wide();
    FourBytes(b);
    ValInjective(BigEndian(n, 4), b);
  }

  lemma FourBytes(b: bytes)
    requires |b| == 4
    ensures Val(b) == 0x100_0000 * b[0] as nat + 0x1_0000 * b[1] as nat + 0x100 * b[2] as nat + b[3] as nat
  {
    BytePowers();
    assert b[1..][1..] == b[2..] && b[2..][1..] == b[3..] && b[3..][1..] == [];
    assert Val(b[3..]) == b[3] as nat;
    assert Val(b[2..]) == b[2] as nat * 0x100 + Val(b[3..]);
    assert Val(b[1..]) == b[1] as nat * 0x1_0000 + Val(b[2..]);
    assert Val(b) == b[0] as nat * 0x100_0000 + Val(b[1..]);
  }

  lemma BytePowers()
    ensures Pow2(0) == 1 && Pow2(8) == 0x100 && Pow2(16) == 0x1_0000 && Pow2(24) == 0x100_0000
  {
    Pow2Small();
    Pow2Add(8, 8);
    Pow2Add(16, 8);
  }

  /** save; the number of entries fits a 32-bit word. */
  function Saved(i: nat, b: Option<Bucket>): bytes
    requires i < 160
  {
    if b.None? then [] else Header(i, |b.value.entries| % UINT32) + Records(b.value.entries)
  }

  /** saveTable: the buckets from the i-th on. */
  function SavedFrom(bs: Slots, i: nat): bytes
    requires i <= 160
    decreases |bs| - i
  {
    if i >= |bs| then [] else Saved(i, bs[i]) + SavedFrom(bs, i + 1)
  }

  lemma SavedStep(file: bytes, bs: Slots, i: nat)
    requires i < 160
    ensures file + SavedFrom(bs, i) == file + Saved(i, bs[i]) + SavedFrom(bs, i + 1)
    ensures bs[i].None? ==> file + SavedFrom(bs, i) == file + SavedFrom(bs, i + 1)
  {
    hide Saved;
    if bs[i].None? {
      NoneSaved(i, bs[i]);
    }
  }

  lemma NoneSaved(i: nat, b: Option<Bucket>)
    requires i < 160 && b.None?
    ensures Saved(i, b) == []
  {
  }

  lemma SavedEnd(file: bytes, bs: Slots)
    ensures file + SavedFrom(bs, 160) == file
  {
  }

  /** Outside stands for a header that names bucket 160, which the check lets pass and the table does not have. */
  datatype Loading = Loading(buckets: Slots, count: nat) | Outside

  /** loadTable from a position on, with the table and the count so far. */
  function LoadFrom(f: bytes, pos: nat, bs: Slots, count: nat, now: Time): Loading
    requires pos <= |f|
    decreases |f| - pos
  {
    if pos + 12 > |f| then Loading(bs, count)
    else
      var magic, index, n := WordAt(f, pos), WordAt(f, pos + 4), WordAt(f, pos + 8);
      if magic != MAGIC || n > K || index > 160 then Loading(bs, count)
      else if n == 0 then LoadFrom(f, pos + 12, bs, count, now)
      else if index == 160 then Outside
      else
        var c := ReadEntries(f, pos + 12, n, now);
        LoadFrom(f, c.next, bs[index := Some(Bucket(c.entries, [], map[]))], count + |c.entries|, now)
  }

  function RenewedAll(es: seq<Entry>, now: Time): (r: seq<Entry>)
    ensures |r| == |es| && forall i :: 0 <= i < |es| ==> r[i] == Renewed(es[i], now)
  {
    if es == [] then [] else [Renewed(es[0], now)] + RenewedAll(es[1..], now)
  }

  /** What a trip to the disk makes of a bucket. */
  function Restored(b: Option<Bucket>, now: Time): Option<Bucket> {
    if EntriesOf(b) == [] then None else Some(Bucket(RenewedAll(b.value.entries, now), [], map[]))
  }

  lemma ReversedTwice(ip: Ip4)
    ensures Reversed(Reversed(ip)) == ip
  {
  }

  lemma RecordRead(before: bytes, e: Entry, after: bytes, now: Time)
    ensures ReadRecord(before + Record(e) + after, |before|, now)
            == Some(Read(Renewed(e, now), |before| + |Record(e)|))
  {
    hide Val, BigEndian, Reversed, ReadRecord;
    var f, pos := before + Record(e) + after, |before|;
    match e.addr
    case V4(ip, port) =>
      Pieces(before, [4], Reversed(ip), PortBytes(port), e.id, after);
      ReversedTwice(ip);
      ReadsV4(f, pos, Reversed(ip), port, e.id, now);
    case V6(ip, port) =>
      Pieces(before, [6], ip, PortBytes(port), e.id, after);
      ReadsV6(f, pos, ip, port, e.id, now);
  }

  lemma ReadsV4(f: bytes, pos: nat, ip: Ip4, port: Port, id: Key, now: Time)
    requires pos + 27 <= |f| && f[pos..pos + 1] == [4] && f[pos + 1..pos + 5] == ip
    requires f[pos + 5..pos + 7] == PortBytes(port) && f[pos + 7..pos + 27] == id
    ensures ReadRecord(f, pos, now) == Some(Read(Fresh(V4(Reversed(ip), port), id, now), pos + 27))
  {
    hide Val, BigEndian, Reversed;
    assert f[pos] == f[pos..pos + 1][0];
  }

  lemma ReadsV6(f: bytes, pos: nat, ip: Ip6, port: Port, id: Key, now: Time)
    requires pos + 39 <= |f| && f[pos..pos + 1] == [6] && f[pos + 1..pos + 17] == ip
    requires f[pos + 17..pos + 19] == PortBytes(port) && f[pos + 19..pos + 39] == id
    ensures ReadRecord(f, pos, now) == Some(Read(Fresh(V6(ip, port), id, now), pos + 39))
  {
    hide Val, BigEndian;
    assert f[pos] == f[pos..pos + 1][0];
  }

  /** The parts of a joined record lie where their lengths say. */
  lemma Pieces(before: bytes, tag: bytes, ip: bytes, port: bytes, id: bytes, after: bytes)
    requires |tag| == 1 && |port| == 2 && |id| == 20
    ensures var f, p, n := before + (tag + ip + port + id) + after, |before|, |ip|;
            && f[p..p + 1] == tag && f[p + 1..p + 1 + n] == ip
            && f[p + 1 + n..p + 3 + n] == port && f[p + 3 + n..p + 23 + n] == id
  {
    var f, p, n := before + (tag + ip + port + id) + after, |before|, |ip|;
    assert f == before + tag + ip + port + id + after;
  }

  lemma {:induction false} EntriesRead(before: bytes, es: seq<Entry>, after: bytes, now: Time)
    ensures ReadEntries(before + Records(es) + after, |before|, |es|, now)
            == Chunk(RenewedAll(es, now), |before| + |Records(es)|, false)
    decreases |es|
  {
    hide Record, ReadRecord, Renewed;
    var f := before + Records(es) + after;
    if es != [] {
      assert f == before + Record(es[0]) + (Records(es[1..]) + after);
      RecordRead(before, es[0], Records(es[1..]) + after, now);
      assert f == (before + Record(es[0])) + Records(es[1..]) + after;
      EntriesRead(before + Record(es[0]), es[1..], after, now);
    }
  }

  /** Reading a saved bucket back takes up exactly what saving it wrote. */
  lemma BucketRead(before: bytes, i: nat, b: Bucket, after: bytes, bs: Slots, count: nat, now: Time)
    requires i < 160 && |b.entries| <= K && (b.entries == [] ==> bs[i].None?)
    ensures var f := before + Saved(i, Some(b)) + after;
            var next := |before| + |Saved(i, Some(b))|;
            LoadFrom(f, |before|, bs, count, now)
            == LoadFrom(f, next, bs[i := Restored(Some(b), now)], count + |b.entries|, now)
  {
    hide Header, Records, WordAt, LoadFrom, ReadEntries, RenewedAll;
    var es := b.entries;
    var f, pos := before + Saved(i, Some(b)) + after, |before|;
    HeaderRead(before, i, |es|, Records(es) + after);
    assert f == before + Header(i, |es|) + (Records(es) + after);
    LoadStep(f, pos, bs, count, now);
    if es == [] {
      NoRecords();
      assert bs[i := None] == bs;
    } else {
      assert f == (before + Header(i, |es|)) + Records(es) + after;
      EntriesRead(before + Header(i, |es|), es, after, now);
      assert bs[i := Restored(Some(b), now)] == bs[i := Some(Bucket(RenewedAll(es, now), [], map[]))];
    }
  }

  lemma NoRecords()
    ensures Records([]) == []
  {
  }

  lemma LoadStep(f: bytes, pos: nat, bs: Slots, count: nat, now: Time)
    requires pos + 12 <= |f| && WordAt(f, pos) == MAGIC && WordAt(f, pos + 4) <= 160 && WordAt(f, pos + 8) <= K
    requires WordAt(f, pos + 4) == 160 ==> WordAt(f, pos + 8) == 0
    ensures var index, n := WordAt(f, pos + 4), WordAt(f, pos + 8);
            LoadFrom(f, pos, bs, count, now) ==
            if n == 0 then LoadFrom(f, pos + 12, bs, count, now)
            else
              var c := ReadEntries(f, pos + 12, n, now);
              LoadFrom(f, c.next, bs[index := Some(Bucket(c.entries, [], map[]))], count + |c.entries|, now)
  {
    hide WordAt, ReadEntries;
  }

  lemma LoadStops(f: bytes, pos: nat, bs: Slots, count: nat, now: Time)
    requires pos <= |f|
    requires pos + 12 <= |f| ==> WordAt(f, pos) != MAGIC || WordAt(f, pos + 8) > K || WordAt(f, pos + 4) >= 160
    requires pos + 12 <= |f| && WordAt(f, pos) == MAGIC && WordAt(f, pos + 4) == 160 ==> WordAt(f, pos + 8) != 0
    ensures var overrun := pos + 12 <= |f| && WordAt(f, pos) == MAGIC && WordAt(f, pos + 8) <= K &&
                           WordAt(f, pos + 4) == 160;
            LoadFrom(f, pos, bs, count, now) == if overrun then Outside else Loading(bs, count)
  {
    hide WordAt, ReadEntries;
  }

  lemma HeaderRead(before: bytes, i: nat, n: nat, after: bytes)
    requires i < UINT32 && n < UINT32
    ensures var f, pos := before + Header(i, n) + after, |before|;
            WordAt(f, pos) == MAGIC && WordAt(f, pos + 4) == i && WordAt(f, pos + 8) == n
  {
    hide Word, WordAt;
    var f, pos := before + Header(i, n) + after, |before|;
    assert f == before + Word(MAGIC) + (Word(i) + Word(n) + after);
    WordRead(before, MAGIC, Word(i) + Word(n) + after);
    assert f == (before + Word(MAGIC)) + Word(i) + (Word(n) + after);
    WordRead(before + Word(MAGIC), i, Word(n) + after);
    assert f == (before + Word(MAGIC) + Word(i)) + Word(n) + after;
    WordRead(before + Word(MAGIC) + Word(i), n, after);
  }

  /** A table in which the first i buckets have been restored. */
  function RestoredUpTo(bs: Slots, i: nat, now: Time): Slots {
    seq(160, j requires 0 <= j < 160 => if j < i then Restored(bs[j], now) else None)
  }

  lemma {:induction false} LoadsRest(before: bytes, bs: Slots, i: nat, now: Time)
    requires i <= 160 && forall j :: 0 <= j < 160 ==> |EntriesOf(bs[j])| <= K
    ensures LoadFrom(before + SavedFrom(bs, i), |before|, RestoredUpTo(bs, i, now), |AllEntries(bs[..i])|, now)
            == Loading(RestoredUpTo(bs, 160, now), |AllEntries(bs)|)
    decreases 160 - i
  {
    hide LoadFrom, Restored, Saved;
    if i == 160 {
      assert bs[..i] == bs;
      NothingLeft(before, RestoredUpTo(bs, 160, now), |AllEntries(bs)|, now);
      assert before + SavedFrom(bs, i) == before;
    } else {
      var so, rest := RestoredUpTo(bs, i, now), SavedFrom(bs, i + 1);
      assert so[i := Restored(bs[i], now)] == RestoredUpTo(bs, i + 1, now);
      assert bs[..i + 1][..i] == bs[..i];
      assert before + SavedFrom(bs, i) == (before + Saved(i, bs[i])) + rest;
      LoadsRest(before + Saved(i, bs[i]), bs, i + 1, now);
      SlotRead(before, i, bs[i], rest, so, |AllEntries(bs[..i])|, now);
    }
  }

  lemma NothingLeft(f: bytes, bs: Slots, count: nat, now: Time)
    ensures LoadFrom(f, |f|, bs, count, now) == Loading(bs, count)
  {
  }

  lemma SlotRead(before: bytes, i: nat, b: Option<Bucket>, after: bytes, bs: Slots, count: nat, now: Time)
    requires i < 160 && |EntriesOf(b)| <= K && bs[i].None?
    ensures var f := before + Saved(i, b) + after;
            LoadFrom(f, |before|, bs, count, now)
            == LoadFrom(f, |before| + |Saved(i, b)|, bs[i := Restored(b, now)], count + |EntriesOf(b)|, now)
  {
    hide LoadFrom, Header, Records;
    if b.None? {
      assert bs[i := None] == bs;
      assert before + Saved(i, b) + after == before + after;
    } else {
      BucketRead(before, i, b.value, after, bs, count, now);
    }
  }

  lemma LoadsSaved(bs: Slots, now: Time)
    requires forall j :: 0 <= j < 160 ==> |EntriesOf(bs[j])| <= K
    ensures LoadFrom(SavedFrom(bs, 0), 0, NO_BUCKETS, 0, now)
            == Loading(RestoredUpTo(bs, 160, now), |AllEntries(bs)|)
  {
    hide LoadFrom, Restored, Saved, SavedFrom;
    LoadsRest([], bs, 0, now);
    assert [] + SavedFrom(bs, 0) == SavedFrom(bs, 0);
    assert RestoredUpTo(bs, 0, now) == NO_BUCKETS;
    assert bs[..0] == [];
  }

  /** Loading a saved table into an empty one restores, in order, the address and the id of every entry of
      every bucket that is not empty, and counts them all. */
  lemma TableRoundTrip(bs: Slots, now: Time)
    requires forall j :: 0 <= j < 160 ==> |EntriesOf(bs[j])| <= K
    ensures var l := LoadFrom(SavedFrom(bs, 0), 0, NO_BUCKETS, 0, now);
            && l.Loading? && l.count == |AllEntries(bs)|
            && (forall i :: 0 <= i < 160 ==> EntriesOf(l.buckets[i]) == RenewedAll(EntriesOf(bs[i]), now))
            && (forall i :: 0 <= i < 160 ==> (l.buckets[i].None? <==> EntriesOf(bs[i]) == []))
  {
    hide LoadFrom, SavedFrom, AllEntries;
    LoadsSaved(bs, now);
  }

  /** A table restored under the same id is in order again. */
  lemma RestoredInOrder(bs: Slots, ourId: Key, now: Time, n: nat)
    requires SlotsInv(bs, ourId)
    ensures var l := LoadFrom(SavedFrom(bs, 0), 0, NO_BUCKETS, 0, now);
            l.Loading? && Routing.Inv(Table(l.buckets, n, l.count), ourId)
  {
    hide LoadFrom, SavedFrom, BucketInv, AllEntries, RenewedAll;
    Bounded(bs, ourId);
    LoadsSaved(bs, now);
    var r := RestoredUpTo(bs, 160, now);
    forall i | 0 <= i < 160 && r[i].Some?
      ensures BucketInv(r[i].value, i, ourId)
    {
      RestoredBucketInv(bs[i].value, i, ourId, now);
    }
    SameCounts(r, bs);
  }

  lemma Bounded(bs: Slots, ourId: Key)
    requires SlotsInv(bs, ourId)
    ensures forall j :: 0 <= j < 160 ==> |EntriesOf(bs[j])| <= K
  {
    forall j | 0 <= j < 160
      ensures |EntriesOf(bs[j])| <= K
    {
      assert bs[j].Some? ==> BucketInv(bs[j].value, j, ourId);
    }
  }

  lemma RestoredBucketInv(b: Bucket, i: nat, ourId: Key, now: Time)
    requires BucketInv(b, i, ourId) && b.entries != []
    ensures BucketInv(Restored(Some(b), now).value, i, ourId)
  {
    var p := InSlot(i, ourId);
    assert forall j :: 0 <= j < |b.entries| ==> p(b.entries[j]);
  }

  lemma {:induction false} SameCounts(a: seq<Option<Bucket>>, b: seq<Option<Bucket>>)
    requires |a| == |b| && forall i :: 0 <= i < |a| ==> |EntriesOf(a[i])| == |EntriesOf(b[i])|
    ensures |AllEntries(a)| == |AllEntries(b)|
  {
    if a != [] {
      SameCounts(a[..|a| - 1], b[..|b| - 1]);
    }
  }

  ghost predicate Sound(bs: Slots) {
    forall i :: 0 <= i < 160 && bs[i].Some? ==> B.Inv(bs[i].value)
  }

  /** Whatever the file holds, no bucket is overfilled, nothing is pending, and the count is at least the number
      of entries. */
  lemma {:induction false} LoadAnything(f: bytes, pos: nat, bs: Slots, count: nat, now: Time)
    requires pos <= |f| && count >= |AllEntries(bs)| && Sound(bs)
    ensures var l := LoadFrom(f, pos, bs, count, now);
            l.Loading? ==> l.count >= |AllEntries(l.buckets)| && Sound(l.buckets)
    decreases |f| - pos
  {
    hide AllEntries, ReadEntries, WordAt, Sound;
    if pos + 12 <= |f| {
      var magic, index, n := WordAt(f, pos), WordAt(f, pos + 4), WordAt(f, pos + 8);
      if magic == MAGIC && n <= K && index <= 160 {
        if n == 0 {
          LoadAnything(f, pos + 12, bs, count, now);
        } else if index < 160 {
          var c := ReadEntries(f, pos + 12, n, now);
          SlotLoaded(bs, index, c.entries);
          LoadAnything(f, c.next, bs[index := Some(Bucket(c.entries, [], map[]))], count + |c.entries|, now);
        }
      }
    }
  }

  lemma SlotLoaded(bs: Slots, i: nat, es: seq<Entry>)
    requires Sound(bs) && i < 160 && |es| <= K
    ensures var r := bs[i := Some(Bucket(es, [], map[]))];
            Sound(r) && |AllEntries(r)| <= |AllEntries(bs)| + |es|
  {
    hide AllEntries;
    CountUpdate(bs, i, Some(Bucket(es, [], map[])));
  }

  /** Where n records end, going by their tags; the end of the file if it ends before they do. */
  function RecordsEnd(f: bytes, pos: nat, n: nat): (r: nat)
    requires pos <= |f|
    ensures pos <= r <= |f|
    decreases n
  {
    if n == 0 then pos
    else if pos + 27 > |f| then |f|
    else if f[pos] == 6 then (if pos + 39 > |f| then |f| else RecordsEnd(f, pos + 39, n - 1))
    else RecordsEnd(f, pos + 27, n - 1)
  }

  /** Headers follow each other, with their records in between, up to one that names bucket 160 and promises an
      entry; none before it ends the file, has another magic number, or promises too much. */
  predicate NamesBucket160(f: bytes, pos: nat)
    requires pos <= |f|
    decreases |f| - pos
  {
    && pos + 12 <= |f|
    && var magic, index, n := WordAt(f, pos), WordAt(f, pos + 4), WordAt(f, pos + 8);
       && magic == MAGIC && n <= K && index <= 160
       && if n > 0 && index == 160 then true else NamesBucket160(f, RecordsEnd(f, pos + 12, n))
  }

  lemma {:induction false} ReadEntriesEnd(f: bytes, pos: nat, n: nat, now: Time)
    requires pos <= |f|
    ensures ReadEntries(f, pos, n, now).next == RecordsEnd(f, pos, n)
    decreases n
  {
    if n > 0 {
      match ReadRecord(f, pos, now)
      case None =>
      case Some(r) => ReadEntriesEnd(f, r.next, n - 1, now);
    }
  }

  /** Loading goes outside the table exactly if the file names bucket 160 in a header that is reached. */
  lemma {:induction false} OutsideExact(f: bytes, pos: nat, bs: Slots, count: nat, now: Time)
    requires pos <= |f|
    ensures LoadFrom(f, pos, bs, count, now) == Outside <==> NamesBucket160(f, pos)
    decreases |f| - pos
  {
    hide ReadEntries, RecordsEnd, WordAt;
    if pos + 12 <= |f| {
      var magic, index, n := WordAt(f, pos), WordAt(f, pos + 4), WordAt(f, pos + 8);
      if magic == MAGIC && n <= K && index <= 160 && !(n > 0 && index == 160) {
        ReadEntriesEnd(f, pos + 12, n, now);
        if n == 0 {
          NoRecordsEnd(f, pos + 12);
          OutsideExact(f, pos + 12, bs, count, now);
        } else {
          var c := ReadEntries(f, pos + 12, n, now);
          OutsideExact(f, c.next, bs[index := Some(Bucket(c.entries, [], map[]))], count + |c.entries|, now);
        }
      }
    }
  }

  lemma NoRecordsEnd(f: bytes, pos: nat)
    requires pos <= |f|
    ensures RecordsEnd(f, pos, 0) == pos
  {
  }

  /** The check of the header lets bucket 160 pass, whatever table is loaded into and whatever follows. */
  lemma Bucket160Passes(n: nat, rest: bytes, bs: Slots, now: Time)
    requires 0 < n <= K
    ensures LoadFrom(Header(160, n) + rest, 0, bs, 0, now) == Outside
  {
    hide WordAt, Header, RecordsEnd, LoadFrom;
    HeaderRead([], 160, n, rest);
    assert [] + Header(160, n) + rest == Header(160, n) + rest;
    OutsideExact(Header(160, n) + rest, 0, bs, 0, now);
  }

  /** A file written by saveTable never leads outside. */
  lemma SavedStaysInside(bs: Slots)
    requires forall j :: 0 <= j < 160 ==> |EntriesOf(bs[j])| <= K
    ensures !NamesBucket160(SavedFrom(bs, 0), 0)
  {
    hide LoadFrom, SavedFrom, NamesBucket160;
    LoadsSaved(bs, 0);
    OutsideExact(SavedFrom(bs, 0), 0, NO_BUCKETS, 0, 0);
  }

  /** Headers follow each other as in NamesBucket160, up to one that promises entries for a bucket that has some. */
  predicate NamesFilled(f: bytes, pos: nat, filled: set<nat>)
    requires pos <= |f|
    decreases |f| - pos
  {
    && pos + 12 <= |f|
    && var magic, index, n := WordAt(f, pos), WordAt(f, pos + 4), WordAt(f, pos + 8);
       && magic == MAGIC && n <= K && index <= 160
       && if n == 0 then NamesFilled(f, pos + 12, filled)
          else index < 160 && (index in filled || NamesFilled(f, RecordsEnd(f, pos + 12, n), filled + {index}))
  }

  predicate Fills(bs: Slots, filled: set<nat>) {
    forall i :: 0 <= i < 160 ==> (i in filled <==> EntriesOf(bs[i]) != [])
  }

  lemma {:induction false} ReadAllOrShort(f: bytes, pos: nat, n: nat, now: Time)
    requires pos <= |f|
    ensures var c := ReadEntries(f, pos, n, now); if c.short then c.next == |f| else |c.entries| == n
    decreases n
  {
    hide ReadRecord;
    if n > 0 {
      match ReadRecord(f, pos, now)
      case None =>
      case Some(r) => ReadAllOrShort(f, r.next, n - 1, now);
    }
  }

  /** The entries are counted right exactly if they were before and no bucket that has entries is read again. */
  lemma {:induction false} CountExact(f: bytes, pos: nat, bs: Slots, count: nat, filled: set<nat>, now: Time)
    requires pos <= |f| && count >= |AllEntries(bs)| && Sound(bs)
    requires pos + 12 <= |f| ==> Fills(bs, filled)
    requires LoadFrom(f, pos, bs, count, now).Loading?
    ensures var l := LoadFrom(f, pos, bs, count, now);
            l.count == |AllEntries(l.buckets)| <==> count == |AllEntries(bs)| && !NamesFilled(f, pos, filled)
    decreases |f| - pos
  {
    hide AllEntries, ReadEntries, RecordsEnd, WordAt, Sound, Fills;
    if pos + 12 <= |f| {
      var magic, index, n := WordAt(f, pos), WordAt(f, pos + 4), WordAt(f, pos + 8);
      if magic == MAGIC && n <= K && index <= 160 {
        if n == 0 {
          CountExact(f, pos + 12, bs, count, filled, now);
        } else if index < 160 {
          var c := ReadEntries(f, pos + 12, n, now);
          ReadAllOrShort(f, pos + 12, n, now);
          ReadEntriesEnd(f, pos + 12, n, now);
          SlotLoaded(bs, index, c.entries);
          SlotCounted(bs, index, c.entries, filled);
          CountExact(f, c.next, bs[index := Some(Bucket(c.entries, [], map[]))], count + |c.entries|,
                     filled + {index}, now);
        }
      }
    }
  }

  lemma SlotCounted(bs: Slots, i: nat, es: seq<Entry>, filled: set<nat>)
    requires i < 160 && Fills(bs, filled)
    ensures var r := bs[i := Some(Bucket(es, [], map[]))];
            && (es != [] ==> Fills(r, filled + {i}))
            && (|AllEntries(r)| == |AllEntries(bs)| + |es| <==> i !in filled)
            && |AllEntries(r)| <= |AllEntries(bs)| + |es|
  {
    hide AllEntries;
    CountUpdate(bs, i, Some(Bucket(es, [], map[])));
  }

  /** So for a table that was empty the count is right exactly if no two headers promise entries for one bucket. */
  lemma FreshCountExact(f: bytes, now: Time)
    requires !NamesBucket160(f, 0)
    ensures var l := LoadFrom(f, 0, NO_BUCKETS, 0, now);
            l.Loading? && (l.count == |AllEntries(l.buckets)| <==> !NamesFilled(f, 0, {}))
  {
    hide LoadFrom, NamesFilled, NamesBucket160;
    OutsideExact(f, 0, NO_BUCKETS, 0, now);
    NothingInNothing(NO_BUCKETS);
    CountExact(f, 0, NO_BUCKETS, 0, {}, now);
  }

  /** A file with one bucket twice: both are counted and the second one stays. */
  lemma CountedTwice(i: nat, a: Bucket, b: Bucket, now: Time)
    requires i < 160 && 0 < |a.entries| <= K && 0 < |b.entries| <= K
    ensures var f := Saved(i, Some(a)) + Saved(i, Some(b));
            var l := LoadFrom(f, 0, NO_BUCKETS, 0, now);
            l.Loading? && l.count == |a.entries| + |b.entries| && |AllEntries(l.buckets)| == |b.entries|
  {
    hide LoadFrom, Saved, AllEntries;
    var first, second := Saved(i, Some(a)), Saved(i, Some(b));
    var f := first + second;
    assert [] + first + second == f && first + second + [] == f;
    BucketRead([], i, a, second, NO_BUCKETS, 0, now);
    var bs := NO_BUCKETS[i := Restored(Some(a), now)];
    BucketRead(first, i, b, [], bs, |a.entries|, now);
    NothingLeft(f, bs[i := Restored(Some(b), now)], |a.entries| + |b.entries|, now);
    NothingInNothing(NO_BUCKETS);
    CountUpdate(NO_BUCKETS, i, Restored(Some(a), now));
    CountUpdate(bs, i, Restored(Some(b), now));
  }
}
