/** A file of the disk cache: opened when needed, grown when needed, closed again (diskio/cachefile.cpp). The
    file on the disk is part of the state; what the operating system answers is a parameter. */
module CacheFile {
  import opened Bytes

  datatype Mode = READ | WRITE | RW

  /** How the file can be opened. */
  datatype Access = ReadWriteOk | ReadOnlyOk | NoAccess

  /** The answers of the operating system: how the file opens, whether it can be resized, how many bytes a write
      writes, and where a mapping is put. */
  datatype Os = Os(access: Access, canResize: bool, written: nat, mapped: Option<nat>)

  /** What was mapped, and at which address: a mapping that does not begin on a page begins diff bytes before it, and
      is filed under the address diff bytes behind ptr. */
  datatype Mapping = Mapping(ptr: nat, off: nat, size: nat, diff: nat, mode: Mode)

  datatype File = File(
    disk: bytes,
    isOpen: bool,
    readOnly: bool,
    maxSize: nat,
    fileSize: nat,
    mappings: map<nat, Mapping>)

  function Fresh(disk: bytes, maxSize: nat): File {
    File(disk, false, false, maxSize, 0, map[])
  }

  function Max(a: nat, b: nat): nat {
    if a >= b then a else b
  }

  function Zeros(n: nat): (r: bytes)
    ensures |r| == n && forall i :: 0 <= i < n ==> r[i] == 0
  {
    seq(n, _ => 0)
  }

  /** The file with n bytes: cut off, or filled up with zeros. */
  function Resize(disk: bytes, n: nat): (r: bytes)
    ensures |r| == n
    ensures forall i :: 0 <= i < n ==> r[i] == if i < |disk| then disk[i] else 0
  {
    if n <= |disk| then disk[..n] else disk + Zeros(n - |disk|)
  }

  /** The file with data written at an offset; a gap before it is filled with zeros. */
  function Overwrite(disk: bytes, off: nat, data: bytes): (r: bytes)
    ensures |r| == Max(Max(|disk|, off), off + |data|)
    ensures forall i :: 0 <= i < |r| ==>
              r[i] == if off <= i < off + |data| then data[i - off] else if i < |disk| then disk[i] else 0
  {
    var d := if off <= |disk| then disk else Resize(disk, off);
    d[..off] + data + (if off + |data| <= |d| then d[off + |data|..] else [])
  }

  /** openFile: read and write if possible, or else read only if that is enough. Once a file was opened read
      only it is treated as such for good. */
  function OpenFile(f: File, mode: Mode, access: Access): (r: Option<File>)
    ensures r.Some? <==> access == ReadWriteOk || (access == ReadOnlyOk && mode == READ)
  {
    match access
    case ReadWriteOk => Some(f.(isOpen := true, fileSize := |f.disk|))
    case ReadOnlyOk => if mode == READ then Some(f.(isOpen := true, readOnly := true, fileSize := |f.disk|)) else None
    case NoAccess => None
  }

  function Reopen(f: File, mode: Mode, access: Access): Option<File> {
    if f.isOpen then Some(f) else OpenFile(f, mode, access)
  }

  function CloseTemporary(f: File): File {
    if f.mappings != map[] then f else f.(isOpen := false)
  }

  function CloseAgain(f: File, again: bool): File {
    if again then CloseTemporary(f) else f
  }

  datatype Done<T> = Done(file: File, result: Option<T>)

  /** read: an offset past the end is an error that leaves the file open. */
  function Read(f: File, os: Os, size: nat, off: nat): Done<bytes> {
    match Reopen(f, READ, os.access)
    case None => Done(f, None)
    case Some(f1) =>
      if off >= f1.fileSize || off >= f1.maxSize then Done(f1, None)
      else
        var data := if off <= |f1.disk| then f1.disk[off..Min(off + size, |f1.disk|)] else [];
        Done(CloseAgain(f1, !f.isOpen), if |data| != size then None else Some(data))
  }

  /** growFile: going past the limit is only warned of. */
  function GrowFile(f: File, os: Os, more: nat): Done<()> {
    match Reopen(f, RW, os.access)
    case None => Done(f, None)
    case Some(f1) =>
      if f1.readOnly || !os.canResize then Done(f1, None)
      else Done(f1.(disk := Resize(f1.disk, f1.fileSize + more), fileSize := f1.fileSize + more), Some(()))
  }

  /** write: a failure leaves the file open. */
  function Write(f: File, os: Os, data: bytes, off: nat): Done<()> {
    match Reopen(f, RW, os.access)
    case None => Done(f, None)
    case Some(f1) =>
      if f1.readOnly then Done(f1, None)
      else
        var g := if f1.fileSize < off then GrowFile(f1, os, off - f1.fileSize) else Done(f1, Some(()));
        if g.result.None? then Done(g.file, None)
        else
          var n := Min(os.written, |data|);
          var f2 := g.file.(disk := Overwrite(g.file.disk, off, data[..n]));
          if n != |data| then Done(f2, None)
          else
            var f3 := CloseAgain(f2, !f.isOpen);
            Done(f3.(fileSize := Max(f3.fileSize, off + |data|)), Some(()))
  }

  /** The write gets as far as writing. */
  predicate Reached(f: File, os: Os, off: nat) {
    match Reopen(f, RW, os.access)
    case None => false
    case Some(f1) => !f1.readOnly && (f1.fileSize < off ==> os.canResize)
  }

  /** The sum of an offset and a size, in 64 bits. */
  function Sum64(off: nat, size: nat): nat {
    (off + size) % UINT64
  }

  /** map, up to the system call; the pages of the system have a given size. */
  function Map(f: File, os: Os, off: nat, size: nat, mode: Mode, page: nat): Done<nat>
    requires page > 0
  {
    match Reopen(f, mode, os.access)
    case None => Done(f, None)
    case Some(f1) =>
      if f1.readOnly && mode != READ then Done(f1, None)
      else if Sum64(off, size) > f1.maxSize then Done(f1, None)
      else
        var g := if Sum64(off, size) > f1.fileSize then GrowFile(f1, os, Sum64(off, size) - f1.fileSize)
                 else Done(f1, Some(()));
        if g.result.None? || os.mapped.None? then Done(g.file, None)
        else
          var diff := off % page;
          var ptr := os.mapped.value;
          Done(g.file.(mappings := g.file.mappings[ptr + diff := Mapping(ptr, off, size + diff, diff, mode)]),
               Some(ptr + diff))
  }

  /** unmap: without mappings the file is closed. */
  function Unmap(f: File, ptr: nat): File {
    if ptr !in f.mappings then f else CloseTemporary(f.(mappings := f.mappings - {ptr}))
  }

  /** unmapAll takes out what is filed under the address of a mapping, which is the mapping itself only if it begins
      on a page. */
  function UnmapAll(m: map<nat, Mapping>): map<nat, Mapping> {
    m - set k | k in m :: m[k].ptr
  }

  function Close(f: File): File {
    if !f.isOpen then f else f.(isOpen := false, mappings := UnmapAll(f.mappings))
  }

  datatype Event =
    | DoRead(size: nat, off: nat)
    | DoWrite(data: bytes, off: nat)
    | DoMap(off: nat, size: nat, mode: Mode, page: nat)
    | DoUnmap(ptr: nat)
    | DoClose
    | Foreign(disk: bytes)

  /** Somebody else may change the file while it is not open here; and page sizes are positive. */
  predicate Legal(f: File, ev: Event) {
    (ev.Foreign? ==> !f.isOpen) && (ev.DoMap? ==> ev.page > 0)
  }

  function Step(f: File, ev: Event, os: Os): File
    requires Legal(f, ev)
  {
    match ev
    case DoRead(size, off) => Read(f, os, size, off).file
    case DoWrite(data, off) => Write(f, os, data, off).file
    case DoMap(off, size, mode, page) => Map(f, os, off, size, mode, page).file
    case DoUnmap(ptr) => Unmap(f, ptr)
    case DoClose => Close(f)
    case Foreign(disk) => f.(disk := disk)
  }

  /** While the file is open its size is known. */
  ghost predicate Inv(f: File) {
    f.isOpen ==> f.fileSize == |f.disk|
  }

  /** Mappings begin on pages and are filed under the address asked for. */
  ghost predicate Filed(f: File, page: nat)
    requires page > 0
  {
    forall k :: k in f.mappings ==>
      var m := f.mappings[k]; m.ptr % page == 0 && 0 <= m.diff < page && k == m.ptr + m.diff
  }

  lemma FiledKeeps(f: File, ev: Event, os: Os, page: nat)
    requires page > 0 && Legal(f, ev) && Filed(f, page)
    requires ev.DoMap? ==> ev.page == page && (os.mapped.Some? ==> os.mapped.value % page == 0)
    ensures Filed(Step(f, ev, os), page)
  {
    hide Write, Read;
    match ev
    case DoRead(size, off) => SameMappings(f, os, size, off, []);
    case DoWrite(data, off) => SameMappings(f, os, 0, off, data);
    case _ =>
  }

  lemma SameMappings(f: File, os: Os, size: nat, off: nat, data: bytes)
    ensures Read(f, os, size, off).file.mappings == f.mappings
    ensures Write(f, os, data, off).file.mappings == f.mappings
  {
  }

  /** Closing forgets the mappings that begin on a page and keeps all others; so nothing stays on the list exactly if
      every mapping began on a page. */
  lemma CloseExact(f: File, page: nat)
    requires page > 0 && Filed(f, page) && f.isOpen
    ensures Close(f).mappings == map k | k in f.mappings && f.mappings[k].diff > 0 :: f.mappings[k]
    ensures Close(f).mappings == map[] <==> forall k :: k in f.mappings ==> f.mappings[k].diff == 0
  {
    var r := Close(f).mappings;
    forall k | k in f.mappings
      ensures k in r <==> f.mappings[k].diff > 0
    {
      if f.mappings[k].diff > 0 {
        OffPage(f.mappings[k].ptr, f.mappings[k].diff, page);
        assert forall h :: h in f.mappings ==> f.mappings[h].ptr != k;
      } else {
        assert f.mappings[k].ptr == k;
      }
    }
    if forall k :: k in f.mappings ==> f.mappings[k].diff == 0 {
      assert forall k :: k !in r;
    } else {
      var k :| k in f.mappings && f.mappings[k].diff > 0;
      assert k in r;
    }
  }

  lemma OffPage(ptr: nat, diff: nat, page: nat)
    requires page > 0 && ptr % page == 0 && 0 < diff < page
    ensures (ptr + diff) % page != 0
  {
    if (ptr + diff) % page == 0 {
      WholePages(ptr, page);
      WholePages(ptr + diff, page);
      BetweenPages(page, ptr / page, (ptr + diff) / page, diff);
    }
  }

  lemma WholePages(x: nat, page: nat)
    requires page > 0 && x % page == 0
    ensures x == (x / page) * page
  {
  }

  lemma BetweenPages(page: nat, a: nat, b: nat, diff: nat)
    requires b * page == a * page + diff
    ensures !(0 < diff < page)
  {
    if b <= a {
      MulLe(b, a, page);
    } else {
      MulLe(a + 1, b, page);
      assert (a + 1) * page == a * page + page;
    }
  }

  /** A mapping that begins in the middle of a page, and a close: the file is closed, the mapping is still on the list,
      and from then on a read leaves the file open. */
  lemma CloseForgetsNot(disk: bytes, os: Os, ptr: nat)
    requires |disk| >= 2 && os.access == ReadWriteOk && os.mapped == Some(ptr) && ptr % 4096 == 0
    ensures var m := Map(Fresh(disk, |disk|), os, 1, 1, READ, 4096);
            var f := Close(m.file);
            && m.result == Some(ptr + 1)
            && !f.isOpen && f.mappings != map[]
            && var r := Read(f, os, 1, 0); r.result == Some(disk[..1]) && r.file.isOpen
  {
    var m := Map(Fresh(disk, |disk|), os, 1, 1, READ, 4096).file;
    assert Filed(m, 4096) by {
      assert m.mappings == map[ptr + 1 := Mapping(ptr, 1, 2, 1, READ)];
    }
    CloseExact(m, 4096);
    assert m.mappings[ptr + 1].diff == 1;
  }

  /** A write that stopped part way did not get past the end of the file. */
  predicate StopsInside(f: File, ev: Event, os: Os) {
    ev.DoWrite? && os.written < |ev.data| && os.written > 0 ==>
      var size := if f.isOpen then f.fileSize else |f.disk|;
      ev.off + os.written <= size || !Reached(f, os, ev.off)
  }

  /** One step keeps the invariants exactly if it is not a write that stopped part way past the end: such a
      write leaves the file longer than its recorded size. */
  lemma StepKeeps(f: File, ev: Event, os: Os)
    requires Inv(f) && Legal(f, ev)
    ensures Inv(Step(f, ev, os)) <==> StopsInside(f, ev, os)
  {
    match ev
    case DoWrite(data, off) => WriteKeeps(f, os, data, off);
    case _ =>
  }

  lemma WriteKeeps(f: File, os: Os, data: bytes, off: nat)
    requires Inv(f)
    ensures Inv(Write(f, os, data, off).file) <==> StopsInside(f, DoWrite(data, off), os)
  {
  }

  /** What follows from a write that stopped: three of four bytes are written to an empty file, whose size stays
      recorded as zero; the next write lets the file be grown to one byte, which cuts off the other two. */
  lemma StoppedWriteLoses(a: byte, b: byte, c: byte, d: byte, x: byte, os: Os)
    requires os.access == ReadWriteOk && os.canResize && os.written == 3
    ensures var first := Write(Fresh([], 4), os, [a, b, c, d], 0);
            var second := Write(first.file, os, [x], 1);
            && first.result.None? && first.file.disk == [a, b, c] && first.file.isOpen && first.file.fileSize == 0
            && !StopsInside(Fresh([], 4), DoWrite([a, b, c, d], 0), os)
            && second.result.Some? && second.file.disk == [a, x]
  {
    var first := Write(Fresh([], 4), os, [a, b, c, d], 0).file;
    assert [a, b, c, d][..3] == [a, b, c];
    assert first.disk == [a, b, c];
    assert [x][..1] == [x];
    assert Resize([a, b, c], 1) == [a];
    assert Overwrite([a], 1, [x]) == [a, x];
  }

  /** A read succeeds exactly if it starts below both limits and ends within the file, and then yields that part
      of the file; it never changes the file. */
  lemma ReadOutcome(f: File, os: Os, size: nat, off: nat)
    requires Inv(f) && (f.isOpen || os.access != NoAccess)
    ensures var r := Read(f, os, size, off);
            && r.file.disk == f.disk
            && (r.result.Some? <==> off < Min(|f.disk|, f.maxSize) && off + size <= |f.disk|)
            && (r.result.Some? ==>
                  && r.result.value == f.disk[off..off + size]
                  && (r.file.isOpen <==> f.isOpen || f.mappings != map[]))
  {
  }

  /** A write succeeds exactly if the file may be written, can be grown if it has to, and takes all the bytes.
      Then the file is the old one, filled up with zeros to the offset if it was shorter, with the data over
      it; and its size is recorded even if it is closed again. */
  lemma WriteOutcome(f: File, os: Os, data: bytes, off: nat)
    requires Inv(f)
    ensures var r := Write(f, os, data, off);
            && (r.result.Some? <==>
                  && (f.isOpen || os.access == ReadWriteOk) && !f.readOnly
                  && (|f.disk| < off ==> os.canResize) && os.written >= |data|)
            && (r.result.Some? ==>
                  && r.file.disk == Overwrite(f.disk, off, data)
                  && r.file.fileSize == |r.file.disk|
                  && (r.file.isOpen <==> f.isOpen || f.mappings != map[]))
  {
    var whole := data[..|data|];
    assert whole == data;
    if |f.disk| >= off {
      assert Resize(f.disk, |f.disk|) == f.disk;
    }
  }

  /** A write keeps the file within its limit exactly if it does not get as far as writing or the bytes it writes end
      within the limit: the limit itself stops nothing. */
  lemma WriteLimitExact(f: File, os: Os, data: bytes, off: nat)
    requires Inv(f) && |f.disk| <= f.maxSize
    ensures |Write(f, os, data, off).file.disk| <= f.maxSize
            <==> !Reached(f, os, off) || off + Min(os.written, |data|) <= f.maxSize
  {
    hide Write, Reached;
    WriteDisk(f, os, data, off);
  }

  /** One byte into a file that should stay empty. */
  lemma LimitIgnored(b: byte, os: Os)
    requires os.access == ReadWriteOk && os.written >= 1
    ensures var r := Write(Fresh([], 0), os, [b], 0); r.result.Some? && r.file.disk == [b] && r.file.maxSize == 0
  {
    assert [b][..1] == [b];
  }

  /** map never makes the file longer than the limit, unless it was so before. */
  lemma MapBounded(f: File, os: Os, off: nat, size: nat, mode: Mode, page: nat)
    requires Inv(f) && page > 0
    ensures var r := Map(f, os, off, size, mode, page);
            && |f.disk| <= |r.file.disk| <= Max(|f.disk|, f.maxSize)
            && r.file.disk == Resize(f.disk, |r.file.disk|)
            && (r.result.Some? ==> r.file.isOpen && Sum64(off, size) <= Min(|r.file.disk|, f.maxSize))
  {
  }

  /** Whether the file is read only once it is open. */
  predicate ReadOnlyOnce(f: File, os: Os) {
    f.readOnly || (!f.isOpen && os.access == ReadOnlyOk)
  }

  /** map succeeds exactly if the file opens for the mode, the part ends within the limit, the file holds it or can be
      grown to hold it, and the system maps it. Then the address it gives is as far behind the start of a page as the
      offset is, and what was mapped begins on a page of the file; all other mappings stay. If it fails they all do. */
  lemma MapOutcome(f: File, os: Os, off: nat, size: nat, mode: Mode, page: nat)
    requires Inv(f) && page > 0
    ensures var r, end := Map(f, os, off, size, mode, page), (off + size) % UINT64;
            && (r.result.Some? <==>
                  && (f.isOpen || os.access == ReadWriteOk || (os.access == ReadOnlyOk && mode == READ))
                  && (ReadOnlyOnce(f, os) ==> mode == READ && end <= |f.disk|)
                  && end <= f.maxSize && (end > |f.disk| ==> os.canResize) && os.mapped.Some?)
            && (r.result.None? ==> r.file.mappings == f.mappings)
            && (r.result.Some? ==>
                  var p := r.result.value;
                  && p in r.file.mappings
                  && r.file.disk == Resize(f.disk, Max(|f.disk|, end))
                  && var m := r.file.mappings[p];
                     && m.ptr == os.mapped.value && m.ptr + m.diff == p && m.mode == mode
                     && m.off == off && off >= m.diff && (off - m.diff) % page == 0 && m.diff < page
                     && m.size == size + m.diff
                     && (forall k :: k != p ==> (k in r.file.mappings <==> k in f.mappings))
                     && (forall k :: k in f.mappings && k != p ==> r.file.mappings[k] == f.mappings[k]))
  {
    hide Resize;
    assert off >= off % page && (off - off % page) % page == 0 by {
      PageStart(off, page);
    }
    assert Resize(f.disk, |f.disk|) == f.disk by {
      WholeFile(f.disk);
    }
  }

  lemma WholeFile(disk: bytes)
    ensures Resize(disk, |disk|) == disk
  {
  }

  lemma PageStart(off: nat, page: nat)
    requires page > 0
    ensures off >= off % page && (off - off % page) % page == 0
  {
    var n := off / page;
    assert off - off % page == n * page;
    MultipleOfPage(n, page);
  }

  lemma {:induction false} MultipleOfPage(n: nat, page: nat)
    requires page > 0
    ensures (n * page) % page == 0
  {
    if n > 0 {
      MultipleOfPage(n - 1, page);
      assert n * page == (n - 1) * page + page;
      OnePageMore((n - 1) * page, page);
    }
  }

  lemma OnePageMore(x: nat, page: nat)
    requires page > 0
    ensures (x + page) % page == x % page
  {
    var q := x / page;
    assert x + page == (q + 1) * page + x % page;
    QuotientUnique(x + page, page, q + 1, x % page);
  }

  lemma QuotientUnique(x: nat, page: nat, q: nat, r: nat)
    requires page > 0 && x == q * page + r && r < page
    ensures x % page == r
  {
    var q2, r2 := x / page, x % page;
    assert x == q2 * page + r2;
    if r > r2 {
      BetweenPages(page, q, q2, r - r2);
    } else if r < r2 {
      BetweenPages(page, q2, q, r2 - r);
    }
  }

  /** unmap takes out the mapping filed under the address and no other, leaves the bytes alone, and closes the file
      exactly if that was the last mapping. */
  lemma UnmapOutcome(f: File, ptr: nat)
    ensures var r := Unmap(f, ptr);
            && ptr !in r.mappings
            && (forall k :: k != ptr ==> (k in r.mappings <==> k in f.mappings))
            && (forall k :: k in f.mappings && k != ptr ==> r.mappings[k] == f.mappings[k])
            && r.disk == f.disk
            && (r.isOpen <==> f.isOpen && !(ptr in f.mappings && forall k :: k in f.mappings ==> k == ptr))
  {
    if ptr in f.mappings {
      var m := f.mappings - {ptr};
      if forall k :: k in f.mappings ==> k == ptr {
        assert m == map[];
      } else {
        var k :| k in f.mappings && k != ptr;
        assert k in m;
      }
    }
  }

  /** Bytes that went to the file at an offset. */
  datatype Chunk = Chunk(off: nat, data: bytes)

  /** What an event writes. */
  function Effect(f: File, ev: Event, os: Os): Chunk {
    if ev.DoWrite? && Reached(f, os, ev.off)
    then Chunk(ev.off, ev.data[..Min(os.written, |ev.data|)])
    else Chunk(0, [])
  }

  function Run(f: File, evs: seq<(Event, Os)>): File
    requires LegalRun(f, evs)
    decreases |evs|, 1
  {
    if evs == [] then f
    else Step(Run(f, evs[..|evs| - 1]), evs[|evs| - 1].0, evs[|evs| - 1].1)
  }

  /** A run in which no write stops part way past the end. */
  predicate LegalRun(f: File, evs: seq<(Event, Os)>)
    decreases |evs|, 0
  {
    evs == [] ||
      var front := evs[..|evs| - 1];
      var (ev, os) := evs[|evs| - 1];
      && LegalRun(f, front)
      && Legal(Run(f, front), ev) && StopsInside(Run(f, front), ev, os)
  }

  /** Over every run, whatever others do to the file while it is closed here: the recorded size is right whenever the
      file is open. */
  lemma {:induction false} RunKeeps(f: File, evs: seq<(Event, Os)>)
    requires Inv(f) && LegalRun(f, evs)
    ensures Inv(Run(f, evs))
    decreases |evs|
  {
    hide Step, Inv, StopsInside, Legal;
    if evs != [] {
      var front := evs[..|evs| - 1];
      RunKeeps(f, front);
      StepKeeps(Run(f, front), evs[|evs| - 1].0, evs[|evs| - 1].1);
    }
  }

  function Effects(f: File, evs: seq<(Event, Os)>): seq<Chunk>
    requires LegalRun(f, evs)
    decreases |evs|
  {
    if evs == [] then []
    else
      var front := evs[..|evs| - 1];
      var (ev, os) := evs[|evs| - 1];
      Effects(f, front) + [Effect(Run(f, front), ev, os)]
  }

  /** The byte at a place: the last one written there, or else the one that was there, or else zero. */
  function LastByte(disk: bytes, chunks: seq<Chunk>, i: nat): byte {
    if chunks == [] then (if i < |disk| then disk[i] else 0)
    else
      var c := chunks[|chunks| - 1];
      if c.off <= i < c.off + |c.data| then c.data[i - c.off] else LastByte(disk, chunks[..|chunks| - 1], i)
  }

  /** What one event does to the bytes of the file, whether it succeeds or not. */
  lemma StepBytes(f: File, ev: Event, os: Os)
    requires Inv(f) && Legal(f, ev) && !ev.Foreign?
    ensures var d, c := Step(f, ev, os).disk, Effect(f, ev, os);
            && |f.disk| <= |d| && c.off + |c.data| <= |d|
            && forall i :: 0 <= i < |d| ==>
                 d[i] == if c.off <= i < c.off + |c.data| then c.data[i - c.off]
                         else if i < |f.disk| then f.disk[i] else 0
  {
    hide Write, Read, Map;
    match ev
    case DoRead(size, off) => ReadBytes(f, os, size, off);
    case DoWrite(data, off) => WriteBytes(f, os, data, off);
    case DoMap(off, size, mode, page) => MapBounded(f, os, off, size, mode, page);
    case _ =>
  }

  lemma ReadBytes(f: File, os: Os, size: nat, off: nat)
    ensures Read(f, os, size, off).file.disk == f.disk
  {
  }

  lemma WriteBytes(f: File, os: Os, data: bytes, off: nat)
    requires Inv(f)
    ensures var d, c := Write(f, os, data, off).file.disk, Effect(f, DoWrite(data, off), os);
            && |f.disk| <= |d| && c.off + |c.data| <= |d|
            && forall i :: 0 <= i < |d| ==>
                 d[i] == if c.off <= i < c.off + |c.data| then c.data[i - c.off]
                         else if i < |f.disk| then f.disk[i] else 0
  {
    hide Write, Reached, Overwrite;
    WriteDisk(f, os, data, off);
  }

  lemma WriteDisk(f: File, os: Os, data: bytes, off: nat)
    requires Inv(f)
    ensures Write(f, os, data, off).file.disk ==
            if Reached(f, os, off) then Overwrite(f.disk, off, data[..Min(os.written, |data|)]) else f.disk
  {
    if |f.disk| < off {
      GrownThenWritten(f.disk, off, data[..Min(os.written, |data|)]);
    }
  }

  lemma GrownThenWritten(disk: bytes, off: nat, data: bytes)
    requires |disk| < off
    ensures Overwrite(Resize(disk, off), off, data) == Overwrite(disk, off, data)
  {
  }

  /** Over every run, with the file opened and closed along the way: the recorded size is right whenever the file
      is open, and the file is a zero-filled array of bytes in which the last writer wins. */
  lemma {:induction false} RunRefinesBytes(f: File, evs: seq<(Event, Os)>)
    requires Inv(f) && LegalRun(f, evs)
    requires forall i :: 0 <= i < |evs| ==> !evs[i].0.Foreign?
    ensures var r := Run(f, evs);
            && Inv(r) && |f.disk| <= |r.disk|
            && (forall k :: 0 <= k < |Effects(f, evs)| ==>
                  Effects(f, evs)[k].off + |Effects(f, evs)[k].data| <= |r.disk|)
            && forall i :: 0 <= i < |r.disk| ==> r.disk[i] == LastByte(f.disk, Effects(f, evs), i)
    decreases |evs|
  {
    hide Step, Effect, StopsInside, Legal;
    if evs != [] {
      var front := evs[..|evs| - 1];
      var (ev, os) := evs[|evs| - 1];
      RunRefinesBytes(f, front);
      StepKeeps(Run(f, front), ev, os);
      StepBytes(Run(f, front), ev, os);
      LastByteSnoc(f.disk, Effects(f, front), Effect(Run(f, front), ev, os), Run(f, front).disk);
    }
  }

  lemma LastByteSnoc(disk: bytes, chunks: seq<Chunk>, c: Chunk, now: bytes)
    requires forall k :: 0 <= k < |chunks| ==> chunks[k].off + |chunks[k].data| <= |now|
    requires |disk| <= |now| && forall i :: 0 <= i < |now| ==> now[i] == LastByte(disk, chunks, i)
    ensures forall i: nat :: LastByte(disk, chunks + [c], i) ==
              if c.off <= i < c.off + |c.data| then c.data[i - c.off] else if i < |now| then now[i] else 0
  {
    hide LastByte;
    forall i: nat
      ensures LastByte(disk, chunks + [c], i) ==
              if c.off <= i < c.off + |c.data| then c.data[i - c.off] else if i < |now| then now[i] else 0
    {
      LastByteStep(disk, chunks, c, i);
      if i >= |now| {
        BeyondAll(disk, chunks, i);
      }
    }
  }

  lemma LastByteStep(disk: bytes, chunks: seq<Chunk>, c: Chunk, i: nat)
    ensures LastByte(disk, chunks + [c], i) ==
            if c.off <= i < c.off + |c.data| then c.data[i - c.off] else LastByte(disk, chunks, i)
  {
    assert (chunks + [c])[..|chunks|] == chunks;
  }

  lemma {:induction false} BeyondAll(disk: bytes, chunks: seq<Chunk>, i: nat)
    requires |disk| <= i && forall k :: 0 <= k < |chunks| ==> chunks[k].off + |chunks[k].data| <= i
    ensures LastByte(disk, chunks, i) == 0
  {
    if chunks != [] {
      BeyondAll(disk, chunks[..|chunks| - 1], i);
    }
  }

  /** What was written is read back, if it lies below the limit. */
  lemma ReadBack(f: File, os: Os, data: bytes, off: nat, os': Os)
    requires Inv(f) && Write(f, os, data, off).result.Some? && off < f.maxSize && data != []
    requires os'.access != NoAccess
    ensures Read(Write(f, os, data, off).file, os', |data|, off).result == Some(data)
  {
    hide Write, Read;
    var w := Write(f, os, data, off).file;
    WriteOutcome(f, os, data, off);
    WriteLimits(f, os, data, off);
    ReadOutcome(w, os', |data|, off);
    assert w.disk[off..off + |data|] == data;
  }

  lemma WriteLimits(f: File, os: Os, data: bytes, off: nat)
    requires Inv(f) && Write(f, os, data, off).result.Some?
    ensures Inv(Write(f, os, data, off).file) && Write(f, os, data, off).file.maxSize == f.maxSize
  {
  }
}
