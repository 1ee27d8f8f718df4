/** The RPC engine: 256 transaction ids, the active calls and the overflow queue (rpcserver.cpp, rpccall.cpp). */
module Rpc {
  import opened Bytes

  datatype Method = PING | FIND_NODE | GET_PEERS | ANNOUNCE_PEER | NONE

  /** A call, named by the number of calls submitted before it. */
  datatype Ticket = Ticket(no: nat, meth: Method)

  /** The state of the server: what is active under which id, what waits, what went out on the socket and to the
      listeners so far, and which ids were in use when each message went out. */
  datatype State = State(
    active: map<byte, Ticket>,
    queue: seq<Ticket>,
    next: byte,
    sent: seq<(byte, Ticket)>,
    notified: seq<nat>,
    issued: nat,
    held: seq<set<byte>>)

  const EMPTY := State(map[], [], 0, [], [], 0, [])

  /** Unsigned 8-bit increment. */
  function Succ(id: byte): byte {
    if id == 255 then 0 else id + 1
  }

  /** k increments. */
  function AddMod(id: byte, k: nat): byte {
    if k == 0 then id else Succ(AddMod(id, k - 1))
  }

  lemma {:induction false} AddModVal(id: byte, k: nat)
    ensures AddMod(id, k) as nat == (id as nat + k) % 256
  {
    if k > 0 {
      AddModVal(id, k - 1);
      NextMod(id as nat + k - 1);
    }
  }

  lemma NextMod(m: nat)
    ensures (m + 1) % 256 == if m % 256 == 255 then 0 else m % 256 + 1
  {
  }

  lemma OnceRound(id: byte)
    ensures AddMod(id, 256) == id
  {
    AddModVal(id, 256);
  }

  /** Every id lies within 255 steps of the cursor. */
  lemma CursorReaches(start: byte, id: byte) returns (k: nat)
    ensures k < 256 && AddMod(start, k) == id
  {
    k := if id >= start then id as nat - start as nat else id as nat + 256 - start as nat;
    AddModVal(start, k);
  }

  predicate AllInUse(keys: set<byte>) {
    forall id: byte :: id in keys
  }

  /** With fewer than 256 ids in use some id is free, and with 256 none is. */
  lemma FullMeansAll(keys: set<byte>)
    ensures |keys| <= 256
    ensures |keys| == 256 <==> AllInUse(keys)
  {
    var all := Upto(256);
    assert keys <= all;
    SubsetSize(keys, all);
    if AllInUse(keys) {
      assert keys == all;
    }
  }

  ghost function Upto(n: nat): (s: set<byte>)
    requires n <= 256
    ensures |s| == n && forall id: byte :: id in s <==> id as nat < n
  {
    if n == 0 then {} else Upto(n - 1) + {(n - 1) as byte}
  }

  /** The first free id at or after the cursor, going round. */
  function FirstFree(keys: set<byte>, cur: byte, tries: nat): byte
    decreases tries, keys
  {
    if tries == 0 || cur !in keys then cur else FirstFree(keys, Succ(cur), tries - 1)
  }

  lemma {:induction false} StepAhead(cur: byte, j: nat)
    ensures AddMod(Succ(cur), j) == AddMod(cur, j + 1)
  {
    if j > 0 {
      StepAhead(cur, j - 1);
    }
  }

  /** The scan finds a free id and passes over used ids only. */
  lemma {:induction false} FirstFreeIsFirst(keys: set<byte>, cur: byte, tries: nat, k: nat)
    requires k < tries && AddMod(cur, k) !in keys
    requires forall j: nat :: j < k ==> AddMod(cur, j) in keys
    ensures FirstFree(keys, cur, tries) == AddMod(cur, k)
    decreases tries
  {
    if k > 0 {
      StepAhead(cur, k - 1);
      assert AddMod(cur, 0) in keys;
      forall j: nat | j < k
        ensures AddMod(Succ(cur), j) == AddMod(cur, j + 1)
      {
        StepAhead(cur, j);
      }
      FirstFreeIsFirst(keys, Succ(cur), tries - 1, k - 1);
    }
  }

  function Free(s: State): byte {
    FirstFree(s.active.Keys, s.next, 256)
  }

  /** Give a call the next free id, send its message and make it active. */
  function Launch(s: State, t: Ticket): State {
    var id := Free(s);
    s.(active := s.active[id := t], next := Succ(id), sent := s.sent + [(id, t)], held := s.held + [s.active.Keys])
  }

  /** doCall. */
  function Submit(s: State, meth: Method): State {
    var t := Ticket(s.issued, meth);
    var s1 := s.(issued := s.issued + 1);
    if |s.active| == 256 then s1.(queue := s.queue + [t]) else Launch(s1, t)
  }

  function SubmitAll(s: State, meths: seq<Method>): State
    decreases |meths|
  {
    if meths == [] then s else Submit(SubmitAll(s, meths[..|meths| - 1]), meths[|meths| - 1])
  }

  /** doQueuedCalls. */
  function Drain(s: State): State
    decreases |s.queue|
  {
    if s.queue == [] || |s.active| >= 256 then s
    else
      var s1 := Launch(s.(queue := s.queue[1..]), s.queue[0]);
      Drain(s1)
  }

  /** Tell the listener of the call with this id; the listener may submit calls while the id is still taken. */
  function Notify(s: State, id: byte, inner: seq<Method>): State
    requires id in s.active
  {
    SubmitAll(s.(notified := s.notified + [s.active[id].no]), inner)
  }

  function Release(s: State, id: byte): State {
    s.(active := s.active - {id})
  }

  /** A response in handlePackets, or a timeout of the call's timer: notification first, then release, then
      the waiting calls. A response to an id that is not in use does nothing. */
  function Complete(s: State, id: byte, inner: seq<Method>): State {
    if id in s.active then Drain(Release(Notify(s, id, inner), id)) else s
  }

  datatype Event =
    | Call(meth: Method)
    | Response(id: byte, inner: seq<Method>)
    | Timeout(id: byte, inner: seq<Method>)

  function Step(s: State, e: Event): State {
    match e
    case Call(m) => Submit(s, m)
    case Response(id, inner) => Complete(s, id, inner)
    case Timeout(id, inner) => Complete(s, id, inner)
  }

  function Run(s: State, es: seq<Event>): State
    decreases |es|
  {
    if es == [] then s else Step(Run(s, es[..|es| - 1]), es[|es| - 1])
  }

  /** Calls are launched in the order of submission: the k-th message on the socket is call number k, and the
      calls that wait are the ones submitted last. */
  ghost predicate InOrder(s: State) {
    && |s.sent| + |s.queue| == s.issued
    && (forall k :: 0 <= k < |s.sent| ==> s.sent[k].1.no == k)
    && (forall k :: 0 <= k < |s.queue| ==> s.queue[k].no == |s.sent| + k)
  }

  ghost predicate Placed(s: State, k: nat)
    requires k < |s.sent|
  {
    k in s.notified || (s.sent[k].0 in s.active && s.active[s.sent[k].0] == s.sent[k].1)
  }

  /** Every launched call is active under exactly one id, or was notified exactly once. */
  ghost predicate Accounted(s: State) {
    && (forall id :: id in s.active ==> s.active[id].no < |s.sent| && s.sent[s.active[id].no] == (id, s.active[id]))
    && (forall k :: 0 <= k < |s.notified| ==> s.notified[k] < |s.sent|)
    && (forall i, j :: 0 <= i < j < |s.notified| ==> s.notified[i] != s.notified[j])
    && (forall id :: id in s.active ==> s.active[id].no !in s.notified)
    && (forall k {:trigger Placed(s, k)} :: 0 <= k < |s.sent| ==> Placed(s, k))
    && |s.notified| + |s.active| == |s.sent|
  }

  /** While a call is active nothing else is sent under its id. */
  ghost predicate Latest(s: State) {
    forall id, j :: id in s.active && s.active[id].no < j < |s.sent| ==> s.sent[j].0 != id
  }

  /** Calls wait only while all ids are taken. */
  ghost predicate WaitsOnlyWhenFull(s: State) {
    s.queue != [] ==> |s.active| == 256
  }

  ghost predicate Inv(s: State) {
    InOrder(s) && Accounted(s) && Latest(s) && WaitsOnlyWhenFull(s)
  }

  /** The cursor scan of doCall and of doQueuedCalls ends at a free id whenever there is one. */
  lemma FreeIsFree(s: State)
    requires |s.active| < 256
    ensures Free(s) !in s.active
  {
    FullMeansAll(s.active.Keys);
    assert |s.active.Keys| == |s.active|;
    var id: byte :| id !in s.active;
    var k := CursorReaches(s.next, id);
    var j := FirstStep(s.active.Keys, s.next, k);
    FirstFreeIsFirst(s.active.Keys, s.next, 256, j);
  }

  lemma {:induction false} FirstStep(keys: set<byte>, start: byte, k: nat) returns (j: nat)
    requires AddMod(start, k) !in keys
    ensures j <= k && AddMod(start, j) !in keys && forall i: nat :: i < j ==> AddMod(start, i) in keys
  {
    j := 0;
    while AddMod(start, j) in keys
      invariant j <= k && forall i: nat :: i < j ==> AddMod(start, i) in keys
      decreases k - j
    {
      j := j + 1;
    }
  }

  lemma LaunchLatest(s: State, t: Ticket)
    requires Latest(s) && |s.active| < 256 && t.no == |s.sent|
    ensures Latest(Launch(s, t))
  {
    FreeIsFree(s);
  }

  lemma LaunchNew(s: State, t: Ticket)
    requires Accounted(s) && |s.active| < 256 && t.no == |s.sent|
    requires forall k :: 0 <= k < |s.sent| ==> s.sent[k].1.no == k
    ensures var r := Launch(s, t);
            && Accounted(r)
            && |r.active| == |s.active| + 1
            && (forall id :: id in s.active ==> id in r.active && r.active[id] == s.active[id])
            && r.sent == s.sent + [(Free(s), t)]
  {
    FreeIsFree(s);
    var r := Launch(s, t);
    assert r.active.Keys == s.active.Keys + {Free(s)};
    assert |r.active.Keys| == |s.active.Keys| + 1;
    forall k | 0 <= k < |r.sent|
      ensures Placed(r, k)
    {
      if k < |s.sent| {
        assert Placed(s, k);
      }
    }
  }

  /** A submission with a free id goes out at once; with none it waits at the end of the queue. */
  lemma SubmitKeeps(s: State, meth: Method)
    requires Inv(s)
    ensures var r := Submit(s, meth);
            && Inv(r) && r.issued == s.issued + 1 && r.notified == s.notified
            && (forall id :: id in s.active ==> id in r.active && r.active[id] == s.active[id])
    ensures var r := Submit(s, meth);
            if |s.active| == 256
            then r.queue == s.queue + [Ticket(s.issued, meth)] && r.sent == s.sent && r.active == s.active
            else r.queue == [] && r.sent == s.sent + [(Free(s), Ticket(s.issued, meth))]
                 && |r.active| == |s.active| + 1
  {
    FullMeansAll(s.active.Keys);
    assert |s.active.Keys| == |s.active|;
    if |s.active| == 256 {
      SubmitWaits(s, meth);
    } else {
      SubmitLaunches(s, meth);
      SubmitSends(s, meth);
    }
  }

  lemma SubmitWaits(s: State, meth: Method)
    requires Inv(s) && |s.active| == 256
    ensures Inv(Submit(s, meth))
  {
    SameAccount(s, Submit(s, meth));
  }

  lemma SubmitLaunches(s: State, meth: Method)
    requires Inv(s) && |s.active| < 256
    ensures Inv(Submit(s, meth))
  {
    hide Accounted, Free;
    var s1, t := s.(issued := s.issued + 1), Ticket(s.issued, meth);
    SameAccount(s, s1);
    LaunchNew(s1, t);
    LaunchLatest(s1, t);
    LaunchInOrder(s1, t);
    var r := Launch(s1, t);
    assert r.queue == [];
    assert Submit(s, meth) == r;
  }

  lemma SubmitSends(s: State, meth: Method)
    requires Inv(s) && |s.active| < 256
    ensures var r := Submit(s, meth);
            && r.sent == s.sent + [(Free(s), Ticket(s.issued, meth))]
            && |r.active| == |s.active| + 1
            && (forall id :: id in s.active ==> id in r.active && r.active[id] == s.active[id])
  {
    SameAccount(s, s.(issued := s.issued + 1));
    LaunchNew(s.(issued := s.issued + 1), Ticket(s.issued, meth));
  }

  lemma SameAccount(s: State, s1: State)
    requires Accounted(s) && s1.active == s.active && s1.sent == s.sent && s1.notified == s.notified
    ensures Accounted(s1)
  {
    forall k | 0 <= k < |s1.sent|
      ensures Placed(s1, k)
    {
      assert Placed(s, k);
    }
  }

  lemma LaunchInOrder(s: State, t: Ticket)
    requires |s.sent| + |s.queue| + 1 == s.issued && t.no == |s.sent|
    requires forall k :: 0 <= k < |s.sent| ==> s.sent[k].1.no == k
    requires forall k :: 0 <= k < |s.queue| ==> s.queue[k].no == |s.sent| + 1 + k
    ensures InOrder(Launch(s, t))
  {
  }

  lemma {:induction false} SubmitAllKeeps(s: State, meths: seq<Method>)
    requires Inv(s)
    ensures var r := SubmitAll(s, meths);
            && Inv(r) && r.issued == s.issued + |meths| && r.notified == s.notified
            && (forall id :: id in s.active ==> id in r.active && r.active[id] == s.active[id])
  {
    if meths != [] {
      SubmitAllKeeps(s, meths[..|meths| - 1]);
      SubmitKeeps(SubmitAll(s, meths[..|meths| - 1]), meths[|meths| - 1]);
    }
  }

  /** Submitting neither reads nor writes the record of notifications. */
  lemma {:induction false} SubmitAllFrames(s: State, meths: seq<Method>, log: seq<nat>)
    ensures SubmitAll(s.(notified := log), meths) == SubmitAll(s, meths).(notified := log)
  {
    if meths != [] {
      SubmitAllFrames(s, meths[..|meths| - 1], log);
    }
  }

  /** Releasing a notified call leaves a gap of one, which the first waiting call fills at once. */
  lemma DrainFillsGap(s: State)
    requires InOrder(s) && Accounted(s) && Latest(s)
    requires s.queue != [] ==> |s.active| == 255
    ensures var r := Drain(s);
            && Inv(r) && r.issued == s.issued && r.notified == s.notified
            && (s.queue == [] ==> r == s)
            && (s.queue != [] ==> r.queue == s.queue[1..] && |r.active| == 256
                                  && r.sent == s.sent + [(Free(s), s.queue[0])])
  {
    hide InOrder, Accounted, Latest, Launch, Free;
    if s.queue != [] {
      FirstFillsGap(s);
      FirstInOrder(s);
      DrainLaunchesOne(s);
    }
  }

  function LaunchFirst(s: State): State
    requires s.queue != []
  {
    Launch(s.(queue := s.queue[1..]), s.queue[0])
  }

  lemma FirstInOrder(s: State)
    requires InOrder(s) && s.queue != []
    ensures InOrder(LaunchFirst(s))
  {
    hide Free;
    assert s.queue[0].no == |s.sent|;
    LaunchInOrder(s.(queue := s.queue[1..]), s.queue[0]);
  }

  lemma FirstFillsGap(s: State)
    requires InOrder(s) && Accounted(s) && Latest(s) && s.queue != [] && |s.active| == 255
    ensures var r := LaunchFirst(s);
            && Accounted(r) && Latest(r) && |r.active| == 256
            && r.issued == s.issued && r.notified == s.notified && r.queue == s.queue[1..]
            && r.sent == s.sent + [(Free(s), s.queue[0])]
  {
    hide Accounted, Free;
    var s1 := s.(queue := s.queue[1..]);
    SameAccount(s, s1);
    assert s.queue[0].no == |s.sent|;
    LaunchNew(s1, s.queue[0]);
    LaunchLatest(s1, s.queue[0]);
    assert Free(s1) == Free(s) by { SameFree(s, s1); }
  }

  lemma SameFree(s: State, s1: State)
    requires s1.active == s.active && s1.next == s.next
    ensures Free(s1) == Free(s)
  {
  }

  lemma DrainLaunchesOne(s: State)
    requires s.queue != [] && |s.active| == 255 && |LaunchFirst(s).active| == 256
    ensures Drain(s) == LaunchFirst(s)
  {
    hide Launch;
    assert Drain(s) == Drain(LaunchFirst(s));
  }

  function Settle(u: State, id: byte): State
    requires id in u.active
  {
    u.(notified := u.notified + [u.active[id].no], active := u.active - {id})
  }

  /** Moving one call from active to notified loses no call and doubles none. */
  lemma SettleKeeps(u: State, id: byte)
    requires InOrder(u) && Accounted(u) && Latest(u) && id in u.active
    ensures var r := Settle(u, id);
            InOrder(r) && Accounted(r) && Latest(r) && |r.active| == |u.active| - 1
  {
    var r := Settle(u, id);
    var no := u.active[id].no;
    assert r.active.Keys == u.active.Keys - {id};
    assert |r.active.Keys| == |u.active.Keys| - 1;
    OthersStay(u, id);
    assert r.notified[|u.notified|] == no;
    forall k | 0 <= k < |r.sent|
      ensures Placed(r, k)
    {
      assert Placed(u, k);
      if k in u.notified {
        assert k in u.notified + [no];
      } else if u.sent[k].0 == id {
        assert k == no;
      }
    }
  }

  lemma CompleteIsSettle(s: State, id: byte, inner: seq<Method>)
    requires id in s.active && id in SubmitAll(s, inner).active
    requires SubmitAll(s, inner).active[id] == s.active[id]
    ensures Complete(s, id, inner) == Drain(Settle(SubmitAll(s, inner), id))
  {
    SubmitAllFrames(s, inner, s.notified + [s.active[id].no]);
    SubmitAllNotified(s, inner);
  }

  lemma {:induction false} SubmitAllNotified(s: State, meths: seq<Method>)
    ensures SubmitAll(s, meths).notified == s.notified
  {
    if meths != [] {
      SubmitAllNotified(s, meths[..|meths| - 1]);
    }
  }

  /** The state after notification and release, before the waiting calls are looked at. */
  lemma CompleteGap(s: State, id: byte, inner: seq<Method>)
    requires Inv(s) && id in s.active
    ensures var u := SubmitAll(s, inner);
            && Inv(u) && id in u.active && u.active[id] == s.active[id]
            && Release(Notify(s, id, inner), id) == Settle(u, id)
  {
    SubmitAllKeeps(s, inner);
    SubmitAllFrames(s, inner, s.notified + [s.active[id].no]);
  }

  lemma OthersStay(u: State, id: byte)
    requires Accounted(u) && id in u.active
    ensures forall other :: other in u.active && other != id ==> u.active[other].no != u.active[id].no
  {
    forall other | other in u.active && other != id
      ensures u.active[other].no != u.active[id].no
    {
      assert u.sent[u.active[other].no].0 == other;
      assert u.sent[u.active[id].no].0 == id;
    }
  }

  /** Completing a call notifies it, and only it, keeps every invariant, and hands its slot to the call that
      waited longest. */
  lemma CompleteKeeps(s: State, id: byte, inner: seq<Method>)
    requires Inv(s) && id in s.active
    ensures var r := Complete(s, id, inner);
            var waiting := SubmitAll(s, inner).queue;
            && Inv(r) && r.issued == s.issued + |inner|
            && r.notified == s.notified + [s.active[id].no]
            && |r.queue| == (if waiting == [] then 0 else |waiting| - 1)
            && (waiting != [] ==> |r.active| == 256 && r.sent[|r.sent| - 1].1 == waiting[0])
  {
    var u := SubmitAll(s, inner);
    CompleteGap(s, id, inner);
    SubmitAllKeeps(s, inner);
    SettleKeeps(u, id);
    DrainFillsGap(Settle(u, id));
  }

  lemma StepKeeps(s: State, e: Event)
    requires Inv(s)
    ensures Inv(Step(s, e))
  {
    match e
    case Call(m) => SubmitKeeps(s, m);
    case Response(id, inner) => if id in s.active { CompleteKeeps(s, id, inner); }
    case Timeout(id, inner) => if id in s.active { CompleteKeeps(s, id, inner); }
  }

  /** Over every run of calls, responses and timeouts, with any calls made by the listeners in between. */
  lemma {:induction false} RunKeeps(es: seq<Event>)
    ensures Inv(Run(EMPTY, es))
  {
    if es != [] {
      RunKeeps(es[..|es| - 1]);
      StepKeeps(Run(EMPTY, es[..|es| - 1]), es[|es| - 1]);
    }
  }

  ghost predicate Waiting(s: State, no: nat) {
    exists k :: 0 <= k < |s.queue| && s.queue[k].no == no
  }

  ghost predicate Active(s: State, no: nat) {
    exists id :: id in s.active && s.active[id].no == no
  }

  /** In every reachable state each submitted call is in exactly one of the three places. */
  lemma ExactlyOnePlace(es: seq<Event>, no: nat)
    requires no < Run(EMPTY, es).issued
    ensures var s := Run(EMPTY, es);
            && (Waiting(s, no) || Active(s, no) || no in s.notified)
            && !(Waiting(s, no) && Active(s, no))
            && !(Waiting(s, no) && no in s.notified)
            && !(Active(s, no) && no in s.notified)
  {
    var s := Run(EMPTY, es);
    RunKeeps(es);
    if no >= |s.sent| {
      assert s.queue[no - |s.sent|].no == no;
    } else {
      assert Placed(s, no);
    }
  }

  /** The order on the socket is the order of submission, whatever the listeners did. */
  lemma NoOvertaking(es: seq<Event>, i: nat, j: nat)
    requires i < j < |Run(EMPTY, es).sent|
    ensures Run(EMPTY, es).sent[i].1.no < Run(EMPTY, es).sent[j].1.no
  {
    RunKeeps(es);
  }

  /** Completions of active calls without new submissions. */
  ghost predicate Completions(s: State, es: seq<Event>)
    decreases |es|
  {
    es == [] ||
    (&& Completions(s, es[..|es| - 1])
     && var e := es[|es| - 1];
        match e
        case Call(_) => false
        case Response(id, inner) => id in Run(s, es[..|es| - 1]).active && inner == []
        case Timeout(id, inner) => id in Run(s, es[..|es| - 1]).active && inner == [])
  }

  /** Every completion brings the server one call closer to rest: after n completions n fewer calls are
      pending, so with as many completions as pending calls everybody has been notified. */
  lemma {:induction false} CompletionsDrain(s: State, es: seq<Event>)
    requires Inv(s) && Completions(s, es)
    ensures var r := Run(s, es);
            && Inv(r) && r.issued == s.issued
            && |r.notified| == |s.notified| + |es|
            && |r.active| + |r.queue| + |es| == |s.active| + |s.queue|
  {
    if es != [] {
      var front := es[..|es| - 1];
      var m := Run(s, front);
      CompletionsDrain(s, front);
      var id := if es[|es| - 1].Response? then es[|es| - 1].id else es[|es| - 1].id;
      CompleteKeeps(m, id, []);
      assert Run(s, es) == Complete(m, id, []);
    }
  }

  /** In any state that is not at rest some call is active, so a completion is possible. */
  lemma PendingHasActive(s: State)
    requires Inv(s)
    ensures |s.active| + |s.queue| > 0 ==> s.active != map[]
    ensures |s.active| + |s.queue| == 0 ==> |s.notified| == s.issued
  {
    assert s.active != map[] <==> |s.active.Keys| > 0;
  }

  /** findMethod. */
  function FindMethod(s: State, id: byte): Method {
    if id in s.active then s.active[id].meth else NONE
  }

  /** A response is typed by the request that was sent last under its id, and by none if that request is no
      longer active. */
  lemma MethodOfLastSent(es: seq<Event>, id: byte)
    requires id in Run(EMPTY, es).active
    ensures var s := Run(EMPTY, es);
            exists k :: 0 <= k < |s.sent| && s.sent[k].0 == id && s.sent[k].1.meth == FindMethod(s, id)
                        && forall j :: k < j < |s.sent| ==> s.sent[j].0 != id
  {
    RunKeeps(es);
    var s := Run(EMPTY, es);
    var k := s.active[id].no;
    assert s.sent[k] == (id, s.active[id]);
  }

  /** The event ends the call that has this id, if there is one. */
  predicate Ends(e: Event, id: byte) {
    !e.Call? && e.id == id
  }

  ghost predicate EndsIn(es: seq<Event>, id: byte) {
    exists i :: 0 <= i < |es| && Ends(es[i], id)
  }

  lemma {:induction false} SubmitAllSends(s: State, meths: seq<Method>)
    ensures s.sent <= SubmitAll(s, meths).sent
  {
    hide Free;
    if meths != [] {
      SubmitAllSends(s, meths[..|meths| - 1]);
    }
  }

  lemma {:induction false} DrainSends(s: State)
    ensures s.sent <= Drain(s).sent
    decreases |s.queue|
  {
    hide Free;
    if s.queue != [] && |s.active| < 256 {
      DrainSends(Launch(s.(queue := s.queue[1..]), s.queue[0]));
    }
  }

  /** What an event adds to the record of notifications; and nothing that was sent is taken back. */
  lemma StepNotifies(s: State, e: Event)
    requires Inv(s)
    ensures var r := Step(s, e);
            && Inv(r) && s.sent <= r.sent
            && r.notified == s.notified + (if !e.Call? && e.id in s.active then [s.active[e.id].no] else [])
  {
    hide Inv, Drain, SubmitAll, Submit, Free;
    StepKeeps(s, e);
    match e
    case Call(m) => SubmitKeeps(s, m); SubmitSent(s, m);
    case Response(id, inner) => if id in s.active { CompleteSends(s, id, inner); }
    case Timeout(id, inner) => if id in s.active { CompleteSends(s, id, inner); }
  }

  lemma SubmitSent(s: State, m: Method)
    ensures s.sent <= Submit(s, m).sent
  {
    hide Free;
  }

  lemma CompleteSends(s: State, id: byte, inner: seq<Method>)
    requires Inv(s) && id in s.active
    ensures s.sent <= Complete(s, id, inner).sent
    ensures Complete(s, id, inner).notified == s.notified + [s.active[id].no]
  {
    hide Inv, Drain, SubmitAll;
    var n := s.(notified := s.notified + [s.active[id].no]);
    CompleteKeeps(s, id, inner);
    SubmitAllSends(n, inner);
    DrainSends(Release(Notify(s, id, inner), id));
  }

  /** A call that is active now is notified in a run exactly if one of the events ends what has its id. */
  lemma {:induction false} NotifiedIfEnded(s: State, es: seq<Event>, id: byte)
    requires Inv(s) && id in s.active
    ensures var r := Run(s, es);
            Inv(r) && s.sent <= r.sent && (s.active[id].no in r.notified <==> EndsIn(es, id))
    decreases |es|
  {
    hide Inv, Step, EndsIn;
    if es == [] {
      StillActive(s, id);
      NothingEnds(id);
    } else {
      var front, e := es[..|es| - 1], es[|es| - 1];
      NotifiedIfEnded(s, front, id);
      StepNotifies(Run(s, front), e);
      EndsLast(es, id);
      SentUnder(s, Run(s, front), id);
      if s.active[id].no !in Run(s, front).notified && !e.Call? && e.id != id && e.id in Run(s, front).active {
        NumbersDiffer(Run(s, front), id, e.id);
      }
    }
  }

  lemma StillActive(s: State, id: byte)
    requires Inv(s) && id in s.active
    ensures s.active[id].no !in s.notified
  {
  }

  lemma NothingEnds(id: byte)
    ensures !EndsIn([], id)
  {
  }

  lemma EndsLast(es: seq<Event>, id: byte)
    requires es != []
    ensures EndsIn(es, id) <==> EndsIn(es[..|es| - 1], id) || Ends(es[|es| - 1], id)
  {
    var n := |es| - 1;
    if i :| 0 <= i < n && Ends(es[..n][i], id) {
      assert Ends(es[i], id);
    }
    if i :| 0 <= i < |es| && Ends(es[i], id) {
      assert i < n ==> es[..n][i] == es[i];
    }
  }

  /** As long as a call has not been notified it keeps its id. */
  lemma SentUnder(s: State, r: State, id: byte)
    requires Inv(s) && Inv(r) && id in s.active && s.sent <= r.sent
    ensures s.active[id].no !in r.notified ==> id in r.active && r.active[id] == s.active[id]
  {
    var k := s.active[id].no;
    assert s.sent[k] == (id, s.active[id]) && r.sent[k] == s.sent[k];
    assert Placed(r, k);
  }

  lemma NumbersDiffer(s: State, a: byte, b: byte)
    requires Inv(s) && a in s.active && b in s.active && a != b
    ensures s.active[a].no != s.active[b].no
  {
    OthersStay(s, a);
  }

  /** The k-th message is the last one sent under the id. */
  ghost predicate LastUnder(s: State, id: byte, k: nat)
    requires k < |s.sent|
  {
    s.sent[k].0 == id && forall j :: k < j < |s.sent| ==> s.sent[j].0 != id
  }

  /** An answer is typed by the call that has its id when it is decoded, and handled later. It is given to that call
      exactly if no event in between ended it; another call that has the id by then was sent after the answer was
      decoded. So its method is that of the answer exactly if nothing ended the call, or the last message sent under
      the id since happens to be of the same method. */
  lemma AnswerExact(s: State, es: seq<Event>, id: byte)
    requires Inv(s) && id in s.active
    ensures var r := Run(s, es);
            && (id in r.active && r.active[id] == s.active[id] <==> !EndsIn(es, id))
            && (id in r.active ==>
                  (FindMethod(r, id) == FindMethod(s, id) <==>
                     || !EndsIn(es, id)
                     || exists k :: |s.sent| <= k < |r.sent| && LastUnder(r, id, k)
                                    && r.sent[k].1.meth == FindMethod(s, id)))
  {
    hide Inv, Step, Run, EndsIn;
    var r := Run(s, es);
    NotifiedIfEnded(s, es, id);
    SentUnder(s, r, id);
    if id in r.active {
      StillActive(r, id);
      if r.active[id] != s.active[id] {
        SentSince(s, r, id);
      }
    }
  }

  lemma SentSince(s: State, r: State, id: byte)
    requires Inv(s) && Inv(r) && s.sent <= r.sent && id in s.active && id in r.active && r.active[id] != s.active[id]
    ensures var k := r.active[id].no;
            |s.sent| <= k < |r.sent| && r.sent[k] == (id, r.active[id]) && LastUnder(r, id, k)
            && forall j :: 0 <= j < |r.sent| && LastUnder(r, id, j) ==> j == k
  {
    var k, old_ := r.active[id].no, s.active[id].no;
    assert r.sent[old_] == s.sent[old_] == (id, s.active[id]);
    assert forall j :: 0 <= j < |s.sent| ==> s.sent[j] == r.sent[j];
  }

  /** A message handed over by the listener thread. Its apply may submit calls, and so may the listeners of
      the call it answers. */
  datatype Packet = Packet(isRsp: bool, mtid: byte, applied: seq<Method>, inner: seq<Method>)

  function Handle(s: State, p: Packet): State {
    var s1 := SubmitAll(s, p.applied);
    if p.isRsp then Complete(s1, p.mtid, p.inner) else s1
  }

  function HandleAll(s: State, ps: seq<Packet>): State
    decreases |ps|
  {
    if ps == [] then s else Handle(HandleAll(s, ps[..|ps| - 1]), ps[|ps| - 1])
  }

  lemma HandleKeeps(s: State, p: Packet)
    requires Inv(s)
    ensures var r, s1 := Handle(s, p), SubmitAll(s, p.applied);
            && Inv(r)
            && r.notified == s.notified + (if p.isRsp && p.mtid in s1.active then [s1.active[p.mtid].no] else [])
            && r.issued == s.issued + |p.applied| + (if p.isRsp && p.mtid in s1.active then |p.inner| else 0)
  {
    hide Inv, Complete;
    var s1 := SubmitAll(s, p.applied);
    SubmitAllKeeps(s, p.applied);
    SubmitAllNotified(s, p.applied);
    SubmitAllIssued(s, p.applied);
    StepKeeps(s1, Response(p.mtid, p.inner));
    StepNotifies(s1, Response(p.mtid, p.inner));
    CompleteIssued(s1, p.mtid, p.inner);
  }

  lemma {:induction false} SubmitAllIssued(s: State, meths: seq<Method>)
    ensures SubmitAll(s, meths).issued == s.issued + |meths|
  {
    hide Free;
    if meths != [] {
      SubmitAllIssued(s, meths[..|meths| - 1]);
    }
  }

  lemma CompleteIssued(s: State, id: byte, inner: seq<Method>)
    ensures Complete(s, id, inner).issued == s.issued + (if id in s.active then |inner| else 0)
  {
    hide Drain, SubmitAll;
    if id in s.active {
      SubmitAllIssued(s.(notified := s.notified + [s.active[id].no]), inner);
      DrainIssued(Release(Notify(s, id, inner), id));
    }
  }

  lemma {:induction false} DrainIssued(s: State)
    ensures Drain(s).issued == s.issued
    decreases |s.queue|
  {
    hide Free;
    if s.queue != [] && |s.active| < 256 {
      DrainIssued(Launch(s.(queue := s.queue[1..]), s.queue[0]));
    }
  }

  /** Packets are handled in the order in which they came. */
  lemma {:induction false} HandleInOrder(s: State, p: Packet, ps: seq<Packet>)
    ensures HandleAll(s, [p] + ps) == HandleAll(Handle(s, p), ps)
    decreases |ps|
  {
    hide Handle;
    if ps == [] {
      assert ([p] + ps)[..0] == [];
      assert HandleAll(s, []) == s;
    } else {
      HandleInOrder(s, p, ps[..|ps| - 1]);
      assert ([p] + ps)[..|ps|] == [p] + ps[..|ps| - 1];
    }
  }

  /** A batch that fits the free ids goes out at once: none of its calls waits. */
  lemma {:induction false} BatchFits(s: State, meths: seq<Method>)
    requires Inv(s) && |s.active| + |meths| <= 256
    ensures var r := SubmitAll(s, meths);
            && Inv(r) && |r.active| == |s.active| + |meths|
            && (meths != [] ==> r.queue == [])
            && |r.sent| == |s.sent| + |meths|
  {
    if meths != [] {
      BatchFits(s, meths[..|meths| - 1]);
      SubmitKeeps(SubmitAll(s, meths[..|meths| - 1]), meths[|meths| - 1]);
    }
  }

  /** While calls wait, a call that times out hands its id to the one that waited longest at once. */
  lemma IdPassedOn(s: State, id: byte)
    requires Inv(s) && id in s.active && s.queue != []
    ensures var r := Step(s, Timeout(id, []));
            Inv(r) && id in r.active && r.active[id] == s.queue[0]
  {
    hide Inv;
    AllTaken(s);
    CompleteKeeps(s, id, []);
    var r := Complete(s, id, []);
    FullMeansAll(r.active.Keys);
    assert |r.active.Keys| == |r.active|;
    StepNotifies(s, Timeout(id, []));
    LastHasId(s, id, r);
  }

  lemma AllTaken(s: State)
    requires Inv(s) && s.queue != []
    ensures |s.active| == 256
  {
  }

  lemma LastHasId(s: State, id: byte, r: State)
    requires Inv(s) && Inv(r) && id in s.active && s.queue != [] && r == Complete(s, id, [])
    ensures id in r.active && r.active[id] == s.queue[0]
  {
    hide Accounted, Latest, FirstFree;
    CompleteIsSettle(s, id, []);
    var u := Settle(s, id);
    SettleKeeps(s, id);
    AllTaken(s);
    DrainFillsGap(u);
    FirstFillsGap(u);
    DrainLaunchesOne(u);
    OnlyFree(s, u, id);
  }

  lemma OnlyFree(s: State, u: State, id: byte)
    requires |s.active| == 256 && id in s.active && u.active == s.active - {id}
    ensures Free(u) == id
  {
    hide FirstFree;
    FullMeansAll(s.active.Keys);
    assert |s.active.Keys| == |s.active|;
    assert u.active.Keys == s.active.Keys - {id};
    assert |u.active.Keys| == |u.active| == 255;
    FreeIsFree(u);
  }

  /** The calls of a batch that were submitted to an idle server, by number. */
  lemma {:induction false} BatchNamed(meths: seq<Method>)
    ensures var s := SubmitAll(EMPTY, meths);
            && Inv(s) && s.issued == |meths| && s.notified == []
            && (forall k :: 0 <= k < |s.sent| ==> k < |meths| && s.sent[k].1 == Ticket(k, meths[k]))
            && (forall k :: 0 <= k < |s.queue| ==>
                  |s.sent| + k < |meths| && s.queue[k] == Ticket(|s.sent| + k, meths[|s.sent| + k]))
  {
    hide Inv, Free;
    if meths == [] {
      RunKeeps([]);
    } else {
      var n := |meths| - 1;
      BatchNamed(meths[..n]);
      var m := SubmitAll(EMPTY, meths[..n]);
      SubmitKeeps(m, meths[n]);
      Counts(m);
      SubmitAllNotified(EMPTY, meths);
    }
  }

  lemma Counts(s: State)
    requires Inv(s)
    ensures |s.sent| + |s.queue| == s.issued && |s.notified| + |s.active| == |s.sent|
    ensures s.queue != [] ==> |s.active| == 256
  {
  }

  /** The failing input: 257 calls, of which the first and the last are of different methods. The answer to the first is
      decoded and typed; before it is handled the call times out, and the last call gets its id. Then the answer is
      given to that call, whose method is another one. */
  lemma LateAnswer(meths: seq<Method>) returns (id: byte)
    requires |meths| == 257 && meths[0] != meths[256]
    ensures var s := SubmitAll(EMPTY, meths);
            var r := Step(s, Timeout(id, []));
            && FindMethod(s, id) == meths[0] && FindMethod(r, id) == meths[256]
            && Handle(r, Packet(true, id, [], [])).notified == s.notified + [0, 256]
  {
    hide Inv, Step, SubmitAll;
    var s := SubmitAll(EMPTY, meths);
    BatchNamed(meths);
    Counts(s);
    NoMoreThan256(s);
    assert |s.sent| == 256 && |s.queue| == 1;
    id := FirstActive(s);
    IdPassedOn(s, id);
    StepNotifies(s, Timeout(id, []));
    var r := Step(s, Timeout(id, []));
    HandlesOnly(r, id);
    CompleteSends(r, id, []);
  }

  lemma HandlesOnly(s: State, id: byte)
    ensures Handle(s, Packet(true, id, [], [])) == Complete(s, id, [])
  {
  }

  lemma NoMoreThan256(s: State)
    ensures |s.active| <= 256
  {
    FullMeansAll(s.active.Keys);
    assert |s.active.Keys| == |s.active|;
  }

  lemma FirstActive(s: State) returns (id: byte)
    requires Inv(s) && s.notified == [] && s.sent != []
    ensures id in s.active && s.active[id] == s.sent[0].1
  {
    assert Placed(s, 0);
    id := s.sent[0].0;
  }
}
