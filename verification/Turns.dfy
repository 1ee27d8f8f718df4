/** Who makes room for whom in a bucket: what each event leaves, told by what the entries hold (kbucket.cpp). */
module Turns {
  import opened Bytes
  import opened Entries
  import opened Bucket

  /** Nothing was heard of the node for more than a quarter of an hour, by a clock of 64 bits. */
  predicate Silent(x: Entry, now: Time) {
    (now - x.lastResponded) % UINT64 > 15 * 60 * 1000
  }

  /** And it failed three queries, or was pinged three times. */
  predicate GivenUp(x: Entry, now: Time) {
    Silent(x, now) && (x.failedQueries >= 3 || x.questionablePings >= 3)
  }

  ghost predicate FirstGivenUp(es: seq<Entry>, i: nat, now: Time) {
    i < |es| && GivenUp(es[i], now) && forall h :: 0 <= h < i ==> !GivenUp(es[h], now)
  }

  ghost predicate FirstSilent(es: seq<Entry>, i: nat, now: Time) {
    i < |es| && Silent(es[i], now) && forall h :: 0 <= h < i ==> !Silent(es[h], now)
  }

  ghost predicate FirstWithAddress(es: seq<Entry>, i: nat, a: Address) {
    i < |es| && es[i].addr == a && forall h :: 0 <= h < i ==> es[h].addr != a
  }

  ghost predicate FirstOfNode(es: seq<Entry>, i: nat, e: Entry) {
    i < |es| && es[i].SameNode(e) && forall h :: 0 <= h < i ==> !es[h].SameNode(e)
  }

  /** The turn of somebody who wants to be let in: the first node given up makes room. If there is none, he waits while
      two pings are on their way, or else is to get in if the first silent node does not answer the ping it is sent, or
      is turned away from a bucket of nodes that were all heard of. */
  ghost predicate Turn(b: Bucket, e: Entry, now: Time, call: nat, r: Bucket) {
    && (forall i :: FirstGivenUp(b.entries, i, now) ==> r == b.(entries := Without(b.entries, i) + [e]))
    && ((forall i :: 0 <= i < |b.entries| ==> !GivenUp(b.entries[i], now)) ==>
          if |b.busy| >= 2 then r == b.(pending := b.pending + [e])
          else if forall i :: 0 <= i < |b.entries| ==> !Silent(b.entries[i], now) then r == b
          else forall i :: FirstSilent(b.entries, i, now) ==> Pinged(b, i, e, call, r))
  }

  /** The i-th entry was pinged once more, for e. */
  predicate Pinged(b: Bucket, i: nat, e: Entry, call: nat, r: Bucket)
    requires i < |b.entries|
  {
    var x := b.entries[i];
    && r.entries == b.entries[i := x.(questionablePings := (x.questionablePings + 1) % UINT32)]
    && r.busy == b.busy[call := Probe(e, x.addr)]
    && r.pending == b.pending
  }

  /** A node heard of: it moves to the end, or is put there while there is room, or takes its turn. */
  ghost predicate Heard(b: Bucket, e: Entry, now: Time, call: nat, r: Bucket) {
    && (forall i :: FirstOfNode(b.entries, i, e) ==> r == b.(entries := Without(b.entries, i) + [e]))
    && ((forall i :: 0 <= i < |b.entries| ==> !b.entries[i].SameNode(e)) ==>
          if |b.entries| < 20 then r == b.(entries := b.entries + [e]) else Turn(b, e, now, call, r))
  }

  /** A ping that was not answered: the one for whom it was sent takes the place of the first entry with the address
      pinged, and the one who waited longest takes his turn unless two other pings are on their way. */
  ghost predicate TimedOut(b: Bucket, c: nat, now: Time, call: nat, m: Bucket, r: Bucket)
    requires c in b.busy
  {
    && m.busy == b.busy - {c} && m.pending == b.pending
    && (forall i :: FirstWithAddress(b.entries, i, b.busy[c].target) ==>
          m.entries == Without(b.entries, i) + [b.busy[c].replacement])
    && ((forall i :: 0 <= i < |b.entries| ==> b.entries[i].addr != b.busy[c].target) ==> m.entries == b.entries)
    && (if m.pending != [] && |m.busy| < 2 then Turn(m.(pending := m.pending[1..]), m.pending[0], now, call, r)
        else r == m)
  }

  lemma GivenUpIsBad(x: Entry, now: Time)
    ensures GivenUp(x, now) <==> x.IsBad(now)
    ensures Silent(x, now) <==> x.IsQuestionable(now)
  {
  }

  lemma TurnTaken(b: Bucket, e: Entry, now: Time, call: nat)
    ensures Turn(b, e, now, call, ReplaceOrPing(b, e, now, call))
  {
    hide GivenUp, Silent, FirstBad, FirstQuestionable;
    forall i | 0 <= i < |b.entries|
      ensures GivenUp(b.entries[i], now) <==> b.entries[i].IsBad(now)
      ensures Silent(b.entries[i], now) <==> b.entries[i].IsQuestionable(now)
    {
      GivenUpIsBad(b.entries[i], now);
    }
    var i := FirstBad(b.entries, now);
    forall k | FirstGivenUp(b.entries, k, now)
      ensures k == i
    {
    }
    var j := FirstQuestionable(b.entries, now);
    forall k | FirstSilent(b.entries, k, now)
      ensures k == j
    {
    }
  }

  /** What a node heard of does to a bucket. */
  lemma HeardOutcome(b: Bucket, e: Entry, now: Time, call: nat)
    ensures Heard(b, e, now, call, Step(b, Seen(e), now, call))
  {
    hide Turn, ReplaceOrPing, IndexOf;
    TurnTaken(b, e, now, call);
    var i := IndexOf(b.entries, e);
    forall k | FirstOfNode(b.entries, k, e)
      ensures k == i
    {
    }
  }

  /** What an answered ping does: the one for whom it was sent takes another turn. */
  lemma AnswerOutcome(b: Bucket, c: nat, now: Time, call: nat)
    ensures var r := Step(b, ProbeAnswered(c), now, call);
            if c in b.busy then Turn(b.(busy := b.busy - {c}), b.busy[c].replacement, now, call, r) else r == b
  {
    hide Turn, ReplaceOrPing;
    if c in b.busy {
      TurnTaken(b.(busy := b.busy - {c}), b.busy[c].replacement, now, call);
    }
  }

  /** What a ping that is not answered does. */
  lemma TimeoutOutcome(b: Bucket, c: nat, now: Time, call: nat) returns (m: Bucket)
    ensures var r := Step(b, ProbeTimedOut(c), now, call);
            if c in b.busy then TimedOut(b, c, now, call, m, r) else r == b
  {
    hide Turn, ReplaceOrPing, IndexOfAddress;
    m := b;
    if c in b.busy {
      m := Evict(b, c);
      var i := IndexOfAddress(b.entries, b.busy[c].target);
      forall k | FirstWithAddress(b.entries, k, b.busy[c].target)
        ensures k == i
      {
      }
      if m.pending != [] {
        TurnTaken(m.(pending := m.pending[1..]), m.pending[0], now, call);
      }
    }
  }

  /** Two failed queries are not enough: the newcomer to a full bucket has to wait for the ping. */
  lemma TwoFailures(b: Bucket, e: Entry, k: nat, now: Time, call: nat)
    requires |b.entries| == K && k < K && forall i :: 0 <= i < K ==> !b.entries[i].SameNode(e)
    requires b.entries[k].failedQueries <= 2 && b.entries[k].questionablePings <= 2 && |b.busy| < 2
    requires forall h :: 0 <= h < K ==> (Silent(b.entries[h], now) <==> h == k)
    ensures Pinged(b, k, e, call, Step(b, Seen(e), now, call))
  {
    hide Silent;
    HeardOutcome(b, e, now, call);
    assert forall h :: 0 <= h < K ==> !GivenUp(b.entries[h], now);
    assert FirstSilent(b.entries, k, now);
  }
}
