/** How the node gets to know the network: the messages it counts, and the lookup of its own id (node.cpp, dht.cpp). */
module Joining {
  import opened Bytes
  import opened Keys
  import opened Entries
  import opened Routing
  import StdMap
  import C = KClosest
  import B = Bucket
  import W = Whole
  import Dht

  /** The messages from others. */
  function Messages(ourId: Key, evs: seq<(Event, Time, nat)>): nat {
    if evs == [] then 0
    else
      var ev := evs[|evs| - 1].0;
      Messages(ourId, evs[..|evs| - 1]) + (if ev.Message? && ev.id != ourId then 1 else 0)
  }

  /** Over every run of the table num_receives is the number of messages from others, in 32 bits. */
  lemma {:induction false} MessagesCounted(ourId: Key, evs: seq<(Event, Time, nat)>)
    ensures Run(FRESH_TABLE, ourId, evs).numReceives == Messages(ourId, evs) % UINT32
    decreases |evs|
  {
    hide Step;
    if evs != [] {
      var (ev, now, call) := evs[|evs| - 1];
      MessagesCounted(ourId, evs[..|evs| - 1]);
      StepReceives(Run(FRESH_TABLE, ourId, evs[..|evs| - 1]), ourId, ev, now, call);
    }
  }

  lemma StepReceives(t: Table, ourId: Key, ev: Event, now: Time, call: nat)
    ensures Step(t, ourId, ev, now, call).numReceives
            == if ev.Message? && ev.id != ourId then (t.numReceives + 1) % UINT32 else t.numReceives
  {
    hide AllEntries, B.Step, B.Insert;
  }

  /** The nodes nearest to a target, nearest first: 20 of them, or all if there are fewer. */
  ghost predicate Nearest(kns: seq<Entry>, es: seq<Entry>, target: Key) {
    && |kns| == Min(20, |es|)
    && (forall i :: 0 <= i < |kns| ==> kns[i] in es)
    && (forall i, j :: 0 <= i < j < |kns| ==> Rank(target, kns[i].id) < Rank(target, kns[j].id))
    && forall e :: e in es ==> e in kns || forall i :: 0 <= i < |kns| ==> Rank(target, kns[i].id) < Rank(target, e.id)
  }

  lemma ClosestNearest(bs: Slots, ourId: Key, target: Key)
    requires SlotsInv(bs, ourId) && forall i :: 0 <= i < 160 ==> DistinctIds(EntriesOf(bs[i]))
    ensures Nearest(Dht.Closest(bs, target), AllEntries(bs), target)
  {
    hide SlotsInv, AllEntries, DistinctIds, C.Scan, Rank;
    SearchFindsClosest(bs, ourId, target, 20);
    var es := AllEntries(bs);
    var m := C.Scan([], target, 20, es);
    var kns := Dht.Closest(bs, target);
    forall e | e in es
      ensures e in kns || forall i :: 0 <= i < |kns| ==> Rank(target, kns[i].id) < Rank(target, e.id)
    {
      if j :| 0 <= j < |m| && m[j].1 == e {
        assert kns[j] == e;
      }
    }
  }

  /** With the third message from another node, and only then, the node starts to look for its own id, unless it does so
      already: a find_node task begins with the nodes nearest to ourselves. */
  lemma OwnLookup(n: W.Node, ourId: Key, evs: seq<(Event, Time, nat)>, from: Address, id: Key, now: Time,
                  lookingUp: bool)
    requires n.table == Run(FRESH_TABLE, ourId, evs) && W.Inv(n, ourId) && id != ourId
    requires var n1 := W.Hear(n, ourId, from, id, now);
             forall i :: 0 <= i < 160 ==> DistinctIds(EntriesOf(n1.table.buckets[i]))
    ensures var n1, r := W.Hear(n, ourId, from, id, now), Dht.Heard(n, ourId, from, id, now, lookingUp);
            if Messages(ourId, evs) % UINT32 == 2 && !lookingUp then
              exists kns :: Nearest(kns, AllEntries(n1.table.buckets), ourId) && r == W.StartTask(n1, false, kns)
            else r == n1
  {
    hide W.Inv, W.Hear, W.StartTask, Dht.Closest, AllEntries, Run, DistinctIds, Nearest;
    MessagesCounted(ourId, evs);
    W.HearKeeps(n, ourId, from, id, now);
    HeardOnce(n, ourId, from, id, now);
    var n1 := W.Hear(n, ourId, from, id, now);
    TableInOrder(n1, ourId);
    ClosestNearest(n1.table.buckets, ourId, ourId);
  }

  lemma TableInOrder(n: W.Node, ourId: Key)
    requires W.Inv(n, ourId)
    ensures SlotsInv(n.table.buckets, ourId)
  {
    hide SlotsInv;
  }

  lemma HeardOnce(n: W.Node, ourId: Key, from: Address, id: Key, now: Time)
    requires id != ourId
    ensures W.Hear(n, ourId, from, id, now).table.numReceives == (n.table.numReceives + 1) % UINT32
  {
    hide AllEntries, B.Insert;
  }
}
