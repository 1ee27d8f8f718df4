/** Socket addresses and the entries of a bucket (kbucket.h, class KBucketEntry). */
module Entries {
  import opened Bytes
  import opened Keys

  type Ip4 = b: bytes | |b| == 4 witness seq(4, _ => 0 as byte)
  type Ip6 = b: bytes | |b| == 16 witness seq(16, _ => 0 as byte)
  type Port = p: nat | p < 0x1_0000
  type Time = t: nat | t < UINT64

  datatype Address = V4(ip4: Ip4, port: Port) | V6(ip6: Ip6, port: Port)

  datatype Entry = Entry(addr: Address, id: Key, lastResponded: Time, failedQueries: nat, questionablePings: nat) {
    /** operator== compares the address and the id only. */
    predicate SameNode(other: Entry) {
      addr == other.addr && id == other.id
    }

    predicate IsQuestionable(now: Time) {
      Elapsed(now, lastResponded) > 15 * 60 * 1000
    }

    predicate IsGood(now: Time) {
      !IsQuestionable(now)
    }

    predicate IsBad(now: Time) {
      !IsGood(now) && (failedQueries > 2 || questionablePings > 2)
    }

    /** The 32-bit counters wrap around. */
    function RequestTimedOut(): Entry {
      this.(failedQueries := (failedQueries + 1) % UINT32)
    }

    function PingedQuestionable(): Entry {
      this.(questionablePings := (questionablePings + 1) % UINT32)
    }
  }

  /** An item of the announce database: a peer and the time it was learned. */
  datatype Item = Item(addr: Address, stamp: Time)

  /** Unsigned 64-bit subtraction of two clock readings. */
  function Elapsed(now: Time, then_: Time): Time {
    if now >= then_ then now - then_ else now + UINT64 - then_
  }

  /** An entry made at a given moment. */
  function Fresh(addr: Address, id: Key, now: Time): Entry {
    Entry(addr, id, now, 0, 0)
  }

  ghost predicate DistinctIds(es: seq<Entry>) {
    forall i, j :: 0 <= i < j < |es| ==> es[i].id != es[j].id
  }
}
