/** The CacheFile object (diskio/cachefile.cpp). */
module CacheFiles {
  import opened Bytes
  import opened CacheFile
  import C = CacheFile

  class DiskFile {
    var disk: bytes
    var fptr: bool
    var readOnly: bool
    var maxSize: nat
    var fileSize: nat
    var mappings: map<nat, Mapping>

    function Abs(): File
      reads this
    {
      File(disk, fptr, readOnly, maxSize, fileSize, mappings)
    }

    /** The constructor and open: only the path and the limit are set. */
    constructor (disk: bytes, size: nat)
      ensures Abs() == C.Fresh(disk, size)
    {
      this.disk, fptr, readOnly, maxSize, fileSize, mappings := disk, false, false, size, 0, map[];
    }

    method OpenFile(mode: Mode, access: Access) returns (ok: bool)
      requires !fptr
      modifies this
      ensures match C.OpenFile(old(Abs()), mode, access)
              case Some(f) => ok && Abs() == f
              case None => !ok && Abs() == old(Abs())
    {
      ok := access == ReadWriteOk;
      if !ok {
        if mode == READ && access == ReadOnlyOk {
          ok := true;
          readOnly := true;
        }
      }
      if !ok {
        return;
      }
      fptr := true;
      fileSize := |disk|;
    }

    method CloseTemporary()
      modifies this`fptr
      ensures Abs() == C.CloseTemporary(old(Abs()))
    {
      if !fptr || |mappings| > 0 {
        return;
      }
      fptr := false;
    }

    /** None stands for the error that is thrown. */
    method Read(os: Os, size: nat, off: nat) returns (buf: Option<bytes>)
      modifies this
      ensures Done(Abs(), buf) == C.Read(old(Abs()), os, size, off)
    {
      var closeAgain := false;
      if !fptr {
        var ok := OpenFile(READ, os.access);
        if !ok {
          return None;
        }
        closeAgain := true;
      }
      if off >= fileSize || off >= maxSize {
        return None;
      }
      var data := if off <= |disk| then disk[off..Min(off + size, |disk|)] else [];
      if |data| != size {
        if closeAgain {
          CloseTemporary();
        }
        return None;
      }
      if closeAgain {
        CloseTemporary();
      }
      return Some(data);
    }

    method GrowFile(os: Os, toWrite: nat) returns (ok: Option<()>)
      modifies this
      ensures Done(Abs(), ok) == C.GrowFile(old(Abs()), os, toWrite)
    {
      if !fptr {
        var isOpen := OpenFile(RW, os.access);
        if !isOpen {
          return None;
        }
      }
      if readOnly || !os.canResize {
        return None;
      }
      disk := Resize(disk, fileSize + toWrite);
      fileSize := |disk|;
      return Some(());
    }

    method Write(os: Os, buf: bytes, off: nat) returns (ok: Option<()>)
      modifies this
      ensures Done(Abs(), ok) == C.Write(old(Abs()), os, buf, off)
    {
      hide Overwrite, Resize;
      var closeAgain := false;
      if !fptr {
        var isOpen := OpenFile(RW, os.access);
        if !isOpen {
          return None;
        }
        closeAgain := true;
      }
      if readOnly {
        return None;
      }
      if fileSize < off {
        var grown := GrowFile(os, off - fileSize);
        if grown.None? {
          return None;
        }
      }
      var n := Min(os.written, |buf|);
      disk := Overwrite(disk, off, buf[..n]);
      if n != |buf| {
        return None;
      }
      if closeAgain {
        CloseTemporary();
      }
      if off + |buf| > fileSize {
        fileSize := off + |buf|;
      }
      return Some(());
    }

    method Map(os: Os, off: nat, size: nat, mode: Mode, page: nat) returns (ptr: Option<nat>)
      requires page > 0
      modifies this
      ensures Done(Abs(), ptr) == C.Map(old(Abs()), os, off, size, mode, page)
    {
      if !fptr {
        var isOpen := OpenFile(mode, os.access);
        if !isOpen {
          return None;
        }
      }
      if readOnly && mode != READ {
        return None;
      }
      if Sum64(off, size) > maxSize {
        return None;
      }
      if Sum64(off, size) > fileSize {
        var toWrite := Sum64(off, size) - fileSize;
        var grown := GrowFile(os, toWrite);
        if grown.None? {
          return None;
        }
      }
      if os.mapped.None? {
        return None;
      }
      var p := os.mapped.value;
      if off % page > 0 {
        var diff := off % page;
        mappings := mappings[p + diff := Mapping(p, off, size + diff, diff, mode)];
        ptr := Some(p + diff);
      } else {
        mappings := mappings[p := Mapping(p, off, size, 0, mode)];
        ptr := Some(p);
      }
    }

    method Unmap(ptr: nat)
      modifies this
      ensures Abs() == C.Unmap(old(Abs()), ptr)
    {
      if ptr in mappings {
        mappings := mappings - {ptr};
        if |mappings| == 0 {
          CloseTemporary();
        }
      }
    }

    /** The starts of the mappings that were looked at. */
    ghost static function Starts(m: map<nat, Mapping>, left: set<nat>): set<nat> {
      set k | k in m && k !in left :: m[k].ptr
    }

    static lemma OneLess(m: map<nat, Mapping>, left: set<nat>, k: nat)
      requires k in m && k in left
      ensures Starts(m, left - {k}) == Starts(m, left) + {m[k].ptr}
    {
      forall p | p in Starts(m, left - {k})
        ensures p in Starts(m, left) + {m[k].ptr}
      {
        var h :| h in m && h !in left - {k} && m[h].ptr == p;
      }
      assert k in m && k !in left - {k};
    }

    static lemma NoneLeft(m: map<nat, Mapping>)
      ensures m - Starts(m, {}) == C.UnmapAll(m)
      ensures Starts(m, m.Keys) == {}
    {
      assert Starts(m, {}) == set k | k in m :: m[k].ptr;
    }

    /** The loop looks up each mapping by the address it was mapped at. */
    method UnmapAll()
      modifies this`mappings
      ensures mappings == C.UnmapAll(old(mappings))
    {
      hide C.UnmapAll, Starts;
      ghost var m := mappings;
      NoneLeft(m);
      var left := mappings;
      while left != map[]
        invariant forall k :: k in left ==> k in m && left[k] == m[k]
        invariant mappings == m - Starts(m, left.Keys)
        decreases left.Keys
      {
        var k :| k in left;
        var e := left[k];
        OneLess(m, left.Keys, k);
        mappings := mappings - {e.ptr};
        left := left - {k};
      }
      assert left.Keys == {};
    }

    method Close()
      modifies this
      ensures Abs() == C.Close(old(Abs()))
    {
      if !fptr {
        return;
      }
      UnmapAll();
      fptr := false;
    }
  }
}
