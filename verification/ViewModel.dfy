/** The rows of the torrent table: cached columns, hidden rows, and a sort that is skipped when it is not needed
    (ktorrent/viewmodel.cpp). */
module ViewModel {
  import opened Bytes

  /** What a torrent reports. */
  datatype Stats = Stats(
    status: nat, downloaded: nat, toDownload: nat, uploaded: nat, downRate: nat, upRate: nat, eta: int,
    seeders: nat, seedersTotal: nat, leechers: nat, leechersTotal: nat, percentage: real, ratio: real,
    runDl: nat, runUl: nat)

  /** What a row remembers of it. */
  datatype Row = Row(tc: nat, c: Stats, hidden: bool)

  const NAME := 0
  const STATUS := 1
  const BYTES_DOWNLOADED := 2
  const TOTAL_BYTES_TO_DOWNLOAD := 3
  const BYTES_UPLOADED := 4
  const DOWNLOAD_RATE := 5
  const UPLOAD_RATE := 6
  const ETA := 7
  const SEEDERS := 8
  const LEECHERS := 9
  const PERCENTAGE := 10
  const SHARE_RATIO := 11
  const DOWNLOAD_TIME := 12
  const SEED_TIME := 13
  const DOWNLOAD_LOCATION := 14

  predicate Differ(a: real, b: real) {
    a - b > 0.01 || b - a > 0.01
  }

  function SeedTime(s: Stats): nat {
    if s.runUl >= s.runDl then s.runUl - s.runDl else 0
  }

  /** A new row; here the seed time is an unsigned difference. */
  function NewRow(tc: nat, s: Stats): Row {
    Row(tc, s.(runUl := (s.runUl - s.runDl) % UINT32), false)
  }

  /** Item::update: the share of the download and the share ratio follow only changes of more than 0.01. */
  function Refreshed(c: Stats, s: Stats): Stats {
    s.(percentage := if Differ(c.percentage, s.percentage) then s.percentage else c.percentage,
       ratio := if Differ(c.ratio, s.ratio) then s.ratio else c.ratio,
       runUl := SeedTime(s))
  }

  /** The result of Item::update: a change in the column the table is sorted by. */
  predicate Touched(c: Stats, s: Stats, col: int) {
    || TouchedAmounts(c.status, c.downloaded, c.toDownload, c.uploaded, s, col)
    || TouchedRates(c.downRate, c.upRate, c.eta, s, col)
    || TouchedPeers(c.seeders, c.seedersTotal, c.leechers, c.leechersTotal, s, col)
    || TouchedProgress(c.percentage, c.ratio, c.runDl, c.runUl, s, col)
  }

  predicate TouchedAmounts(status: nat, downloaded: nat, toDownload: nat, uploaded: nat, s: Stats, col: int) {
    || (col == STATUS && status != s.status)
    || (col == BYTES_DOWNLOADED && downloaded != s.downloaded)
    || (col == TOTAL_BYTES_TO_DOWNLOAD && toDownload != s.toDownload)
    || (col == BYTES_UPLOADED && uploaded != s.uploaded)
  }

  predicate TouchedRates(downRate: nat, upRate: nat, eta: int, s: Stats, col: int) {
    || (col == DOWNLOAD_RATE && downRate != s.downRate)
    || (col == UPLOAD_RATE && upRate != s.upRate)
    || (col == ETA && eta != s.eta)
  }

  predicate TouchedPeers(seeders: nat, seedersTotal: nat, leechers: nat, leechersTotal: nat, s: Stats, col: int) {
    || (col == SEEDERS && (seeders != s.seeders || seedersTotal != s.seedersTotal))
    || (col == LEECHERS && (leechers != s.leechers || leechersTotal != s.leechersTotal))
  }

  predicate TouchedProgress(percentage: real, ratio: real, runDl: nat, runUl: nat, s: Stats, col: int) {
    || (col == PERCENTAGE && Differ(percentage, s.percentage))
    || (col == SHARE_RATIO && Differ(ratio, s.ratio))
    || (col == DOWNLOAD_TIME && runDl != s.runDl)
    || (col == SEED_TIME && runUl != SeedTime(s))
  }

  /** Column, ascending or descending, and how the texts of the name, status and location columns compare at
      the moment: these are not cached. */
  datatype Order = Order(col: int, ascending: bool, live: (int, nat) -> int)

  predicate Cached(col: int) {
    BYTES_DOWNLOADED <= col <= SEED_TIME
  }

  function Visibly(rate: nat): nat {
    if rate < 102 then 0 else rate
  }

  /** Item::lessThan */
  predicate LessThan(o: Order, a: Row, b: Row) {
    match o.col
    case 0 => o.live(0, a.tc) < o.live(0, b.tc)
    case 1 => o.live(1, a.tc) < o.live(1, b.tc)
    case 2 => a.c.downloaded < b.c.downloaded
    case 3 => a.c.toDownload < b.c.toDownload
    case 4 => a.c.uploaded < b.c.uploaded
    case 5 => Visibly(a.c.downRate) < Visibly(b.c.downRate)
    case 6 => Visibly(a.c.upRate) < Visibly(b.c.upRate)
    case 7 =>
      if a.c.eta == 0 && b.c.eta > 0 then false
      else if b.c.eta == 0 && a.c.eta > 0 then true
      else a.c.eta < b.c.eta
    case 8 => a.c.seeders < b.c.seeders
    case 9 => a.c.leechers < b.c.leechers
    case 10 => a.c.percentage < b.c.percentage
    case 11 => a.c.ratio < b.c.ratio
    case 12 => a.c.runDl < b.c.runDl
    case 13 => a.c.runUl < b.c.runUl
    case 14 => o.live(14, a.tc) < o.live(14, b.tc)
    case _ => false
  }

  /** ViewModelItemCmp: hidden rows come last. */
  predicate Before(o: Order, a: Row, b: Row) {
    if a.hidden then false
    else if b.hidden then true
    else if o.ascending then LessThan(o, a, b)
    else LessThan(o, b, a)
  }

  /** The comparison is a strict weak order: it is irreflexive and transitive, and rows that are in no order with
      a third one are in no order with each other. */
  lemma StrictWeakOrder(o: Order, a: Row, b: Row, c: Row)
    ensures !Before(o, a, a)
    ensures Before(o, a, b) ==> !Before(o, b, a)
    ensures Before(o, a, b) && Before(o, b, c) ==> Before(o, a, c)
    ensures Before(o, a, c) ==> Before(o, a, b) || Before(o, b, c)
  {
    LessThanWeak(o, a, b, c);
    LessThanWeak(o, c, b, a);
  }

  lemma LessThanWeak(o: Order, a: Row, b: Row, c: Row)
    ensures !LessThan(o, a, a) && (LessThan(o, a, b) ==> !LessThan(o, b, a))
    ensures LessThan(o, a, b) && LessThan(o, b, c) ==> LessThan(o, a, c)
    ensures LessThan(o, a, c) ==> LessThan(o, a, b) || LessThan(o, b, c)
  {
  }

  ghost predicate Sorted(o: Order, l: seq<Row>) {
    forall i, j :: 0 <= i < j < |l| ==> !Before(o, l[j], l[i])
  }

  function InsertRow(o: Order, l: seq<Row>, x: Row): seq<Row> {
    if l == [] then [x]
    else if Before(o, x, l[0]) then [x] + l
    else [l[0]] + InsertRow(o, l[1..], x)
  }

  /** What a stable sort makes of the rows. */
  function StableSort(o: Order, l: seq<Row>): seq<Row> {
    if l == [] then [] else InsertRow(o, StableSort(o, l[..|l| - 1]), l[|l| - 1])
  }

  lemma {:induction false} InsertRowSorted(o: Order, l: seq<Row>, x: Row)
    requires Sorted(o, l)
    ensures Sorted(o, InsertRow(o, l, x)) && multiset(InsertRow(o, l, x)) == multiset(l) + multiset{x}
  {
    hide Before;
    var r := InsertRow(o, l, x);
    if l == [] {
      StrictWeakOrder(o, x, x, x);
    } else if Before(o, x, l[0]) {
      forall j | 0 <= j < |l|
        ensures !Before(o, l[j], x)
      {
        StrictWeakOrder(o, x, l[0], l[j]);
        StrictWeakOrder(o, l[j], x, l[0]);
      }
    } else {
      InsertRowSorted(o, l[1..], x);
      var rest := InsertRow(o, l[1..], x);
      assert l == [l[0]] + l[1..];
      forall j | 0 <= j < |rest|
        ensures !Before(o, rest[j], l[0])
      {
        assert rest[j] in multiset(rest);
        assert rest[j] == x || rest[j] in l[1..];
      }
    }
  }

  lemma {:induction false} StableSortSorts(o: Order, l: seq<Row>)
    ensures Sorted(o, StableSort(o, l)) && multiset(StableSort(o, l)) == multiset(l)
  {
    hide Before, InsertRow;
    if l != [] {
      StableSortSorts(o, l[..|l| - 1]);
      InsertRowSorted(o, StableSort(o, l[..|l| - 1]), l[|l| - 1]);
      assert l == l[..|l| - 1] + [l[|l| - 1]];
    }
  }

  /** Rows that are in order stay as they are. */
  lemma {:induction false} SortedStays(o: Order, l: seq<Row>)
    ensures Sorted(o, l) <==> StableSort(o, l) == l
  {
    hide Before, InsertRow;
    if Sorted(o, l) {
      if l != [] {
        var n := |l| - 1;
        SortedStays(o, l[..n]);
        AppendGreatest(o, l[..n], l[n]);
        assert l == l[..n] + [l[n]];
      }
    } else {
      StableSortSorts(o, l);
    }
  }

  lemma {:induction false} AppendGreatest(o: Order, l: seq<Row>, x: Row)
    requires forall i :: 0 <= i < |l| ==> !Before(o, x, l[i])
    ensures InsertRow(o, l, x) == l + [x]
  {
    if l != [] {
      AppendGreatest(o, l[1..], x);
    }
  }

  /** A row goes behind all the rows it is not before. */
  lemma {:induction false} InsertRowAt(o: Order, l: seq<Row>, x: Row, k: nat)
    requires k <= |l| && (forall i :: 0 <= i < k ==> !Before(o, x, l[i])) && (k < |l| ==> Before(o, x, l[k]))
    ensures InsertRow(o, l, x) == l[..k] + [x] + l[k..]
  {
    hide Before;
    if k > 0 {
      InsertRowAt(o, l[1..], x, k - 1);
      assert l == [l[0]] + l[1..];
    }
  }

  function Visible(l: seq<Row>): seq<Row> {
    if l == [] then []
    else Visible(l[..|l| - 1]) + (if l[|l| - 1].hidden then [] else [l[|l| - 1]])
  }

  lemma {:induction false} VisibleJoin(a: seq<Row>, b: seq<Row>)
    ensures Visible(a + b) == Visible(a) + Visible(b)
  {
    if b == [] {
      assert a + b == a;
    } else {
      VisibleJoin(a, b[..|b| - 1]);
      assert (a + b)[..|a + b| - 1] == a + b[..|b| - 1];
    }
  }

  lemma VisibleHead(x: Row, l: seq<Row>)
    ensures Visible([x] + l) == (if x.hidden then [] else [x]) + Visible(l)
  {
    VisibleJoin([x], l);
    assert Visible([x]) == if x.hidden then [] else [x] by {
      assert [x][..0] == [];
    }
  }

  lemma {:induction false} AllHidden(l: seq<Row>)
    requires forall i :: 0 <= i < |l| ==> l[i].hidden
    ensures Visible(l) == []
  {
    if l != [] {
      AllHidden(l[..|l| - 1]);
    }
  }

  /** Inserting a row and then filtering is filtering and then inserting it, if it is visible. */
  lemma {:induction false} InsertVisible(o: Order, l: seq<Row>, x: Row)
    requires Sorted(o, l)
    ensures Visible(InsertRow(o, l, x)) == if x.hidden then Visible(l) else InsertRow(o, Visible(l), x)
  {
    if l == [] {
      VisibleHead(x, []);
      assert [x] + [] == [x];
    } else {
      VisibleHead(l[0], l[1..]);
      assert l == [l[0]] + l[1..];
      if Before(o, x, l[0]) {
        VisibleHead(x, l);
        if l[0].hidden {
          assert forall j :: 0 < j < |l| ==> !Before(o, l[j], l[0]);
          AllHidden(l);
        }
      } else {
        VisibleHead(l[0], InsertRow(o, l[1..], x));
        InsertVisible(o, l[1..], x);
        if !l[0].hidden {
          assert ([l[0]] + Visible(l[1..]))[1..] == Visible(l[1..]);
        }
      }
    }
  }

  lemma SortSnoc(o: Order, l: seq<Row>, x: Row)
    ensures StableSort(o, l + [x]) == InsertRow(o, StableSort(o, l), x)
    ensures Visible(l + [x]) == Visible(l) + (if x.hidden then [] else [x])
  {
    assert (l + [x])[..|l|] == l;
  }

  /** Sorting and then filtering is filtering and then sorting. */
  lemma {:induction false} SortVisible(o: Order, l: seq<Row>)
    ensures Visible(StableSort(o, l)) == StableSort(o, Visible(l))
  {
    hide Before, InsertRow, Sorted;
    if l != [] {
      var front, x := l[..|l| - 1], l[|l| - 1];
      assert l == front + [x];
      SortVisible(o, front);
      StableSortSorts(o, front);
      InsertVisible(o, StableSort(o, front), x);
      SortSnoc(o, front, x);
      if !x.hidden {
        SortSnoc(o, Visible(front), x);
      } else {
        assert Visible(front) + [] == Visible(front);
      }
    }
  }

  /** In sorted rows the visible ones come first. */
  lemma {:induction false} VisibleFirst(o: Order, l: seq<Row>)
    requires Sorted(o, l)
    ensures |Visible(l)| <= |l| && l[..|Visible(l)|] == Visible(l)
    ensures forall i :: 0 <= i < |l| ==> (l[i].hidden <==> i >= |Visible(l)|)
  {
    if l != [] {
      var n := |l| - 1;
      VisibleFirst(o, l[..n]);
      if !l[n].hidden {
        assert forall i :: 0 <= i < n ==> !Before(o, l[n], l[i]);
        assert |Visible(l[..n])| == n;
      } else {
        assert l[..|Visible(l)|] == l[..n][..|Visible(l)|];
      }
    }
  }

  /** The rows that are in no order with a given one. */
  function Alike(o: Order, l: seq<Row>, p: Row): seq<Row> {
    if l == [] then []
    else
      Alike(o, l[..|l| - 1], p)
      + (if Before(o, l[|l| - 1], p) || Before(o, p, l[|l| - 1]) then [] else [l[|l| - 1]])
  }

  lemma {:induction false} AlikeJoin(o: Order, a: seq<Row>, b: seq<Row>, p: Row)
    ensures Alike(o, a + b, p) == Alike(o, a, p) + Alike(o, b, p)
  {
    if b == [] {
      assert a + b == a;
    } else {
      AlikeJoin(o, a, b[..|b| - 1], p);
      assert (a + b)[..|a + b| - 1] == a + b[..|b| - 1];
    }
  }

  lemma {:induction false} NoneAlike(o: Order, l: seq<Row>, p: Row)
    requires forall i :: 0 <= i < |l| ==> Before(o, p, l[i])
    ensures Alike(o, l, p) == []
  {
    if l != [] {
      NoneAlike(o, l[..|l| - 1], p);
    }
  }

  lemma OneAlike(o: Order, x: Row, p: Row)
    ensures Alike(o, [x], p) == if Before(o, x, p) || Before(o, p, x) then [] else [x]
  {
    assert [x][..0] == [];
  }

  lemma {:induction false} InsertAlike(o: Order, l: seq<Row>, x: Row, p: Row)
    requires Sorted(o, l)
    ensures Alike(o, InsertRow(o, l, x), p) == Alike(o, l, p) + Alike(o, [x], p)
  {
    hide Before, Alike;
    if l == [] {
      AlikeJoin(o, [], [x], p);
      assert [] + [x] == [x];
    } else {
      var rest := l[1..];
      assert l == [l[0]] + rest;
      AlikeJoin(o, [l[0]], rest, p);
      if Before(o, x, l[0]) {
        AlikeJoin(o, [x], l, p);
        OneAlike(o, x, p);
        if Before(o, x, p) || Before(o, p, x) {
          assert [] + Alike(o, l, p) == Alike(o, l, p) + [];
        } else {
          AheadOfAll(o, l, x, p);
          NoneAlike(o, l, p);
        }
      } else {
        InsertAlike(o, rest, x, p);
        AlikeJoin(o, [l[0]], InsertRow(o, rest, x), p);
        assert Alike(o, [l[0]], p) + (Alike(o, rest, p) + Alike(o, [x], p))
               == (Alike(o, [l[0]], p) + Alike(o, rest, p)) + Alike(o, [x], p);
      }
    }
  }

  lemma AheadOfAll(o: Order, l: seq<Row>, x: Row, p: Row)
    requires Sorted(o, l) && l != [] && Before(o, x, l[0]) && !Before(o, x, p)
    ensures forall i :: 0 <= i < |l| ==> Before(o, p, l[i])
  {
    hide Before;
    forall i | 0 <= i < |l|
      ensures Before(o, p, l[i])
    {
      StrictWeakOrder(o, x, l[i], l[0]);
      StrictWeakOrder(o, x, p, l[i]);
    }
  }

  /** The sort is stable: rows that are in no order with each other keep their places relative to each other. */
  lemma {:induction false} SortStable(o: Order, l: seq<Row>, p: Row)
    ensures Alike(o, StableSort(o, l), p) == Alike(o, l, p)
  {
    hide Before, InsertRow, Sorted, Alike;
    if l != [] {
      var front, x := l[..|l| - 1], l[|l| - 1];
      assert l == front + [x];
      SortStable(o, front, p);
      StableSortSorts(o, front);
      SortSnoc(o, front, x);
      InsertAlike(o, StableSort(o, front), x, p);
      AlikeJoin(o, front, [x], p);
    }
  }

  datatype Model = Model(rows: seq<Row>, order: Order, numVisible: nat)

  /** One row of update: the cached values, and whether it is hidden by the group. */
  function UpdatedRow(r: Row, stats: nat -> Stats, member: nat -> bool): Row {
    Row(r.tc, Refreshed(r.c, stats(r.tc)), !member(r.tc))
  }

  function Updated(l: seq<Row>, stats: nat -> Stats, member: nat -> bool): (r: seq<Row>)
    ensures |r| == |l| && forall i :: 0 <= i < |l| ==> r[i] == UpdatedRow(l[i], stats, member)
  {
    seq(|l|, i requires 0 <= i < |l| => UpdatedRow(l[i], stats, member))
  }

  predicate AsksForSort(r: Row, col: int, stats: nat -> Stats, member: nat -> bool) {
    Touched(r.c, stats(r.tc), col) || r.hidden == member(r.tc)
  }

  predicate Resort(l: seq<Row>, col: int, stats: nat -> Stats, member: nat -> bool) {
    exists i :: 0 <= i < |l| && AsksForSort(l[i], col, stats, member)
  }

  /** update */
  function Update(v: Model, stats: nat -> Stats, member: nat -> bool, live: (int, nat) -> int, force: bool): Model {
    var l := Updated(v.rows, stats, member);
    var o := v.order.(live := live);
    Model(if force || Resort(v.rows, o.col, stats, member) then StableSort(o, l) else l, o, |Visible(l)|)
  }

  function Sort(v: Model, col: int, ascending: bool): Model {
    var o := Order(col, ascending, v.order.live);
    Model(StableSort(o, v.rows), o, v.numVisible)
  }

  function AddTorrent(v: Model, tc: nat, stats: nat -> Stats, member: nat -> bool, live: (int, nat) -> int): Model {
    Update(v.(rows := v.rows + [NewRow(tc, stats(tc))]), stats, member, live, true)
  }

  function FirstRow(l: seq<Row>, tc: nat): (i: nat)
    ensures i <= |l| && (i < |l| ==> l[i].tc == tc) && forall j :: 0 <= j < i ==> l[j].tc != tc
  {
    if l == [] || l[0].tc == tc then 0 else 1 + FirstRow(l[1..], tc)
  }

  function RemoveTorrent(v: Model, tc: nat, stats: nat -> Stats, member: nat -> bool, live: (int, nat) -> int): Model {
    var i := FirstRow(v.rows, tc);
    if i == |v.rows| then v
    else Update(v.(rows := v.rows[..i] + v.rows[i + 1..]), stats, member, live, true)
  }

  /** The table as one would define it: the members of the group, sorted. */
  ghost predicate Agrees(v: Model, l: seq<Row>) {
    && v.numVisible <= |v.rows|
    && v.rows[..v.numVisible] == StableSort(v.order, Visible(l))
    && (forall i :: 0 <= i < |v.rows| ==> (v.rows[i].hidden <==> i >= v.numVisible))
    && multiset(v.rows) == multiset(l)
  }

  /** Rows in order for a column whose values are cached. */
  ghost predicate Tidy(v: Model) {
    Cached(v.order.col) ==> Sorted(v.order, v.rows)
  }

  /** A row that does not ask for a sort is where it was in the order of a cached column. */
  lemma UntouchedCompare(o: Order, p: Order, a: Row, b: Row, stats: nat -> Stats, member: nat -> bool)
    requires Cached(o.col) && p.col == o.col && p.ascending == o.ascending
    requires !AsksForSort(a, o.col, stats, member) && !AsksForSort(b, o.col, stats, member)
    ensures Before(p, UpdatedRow(a, stats, member), UpdatedRow(b, stats, member)) <==> Before(o, a, b)
  {
  }

  /** Leaving the sort out makes no difference: for a cached column, update gives what it would give if it
      always sorted. */
  lemma SkippedSort(v: Model, stats: nat -> Stats, member: nat -> bool, live: (int, nat) -> int, force: bool)
    requires Tidy(v) && Cached(v.order.col)
    ensures Update(v, stats, member, live, force) == Update(v, stats, member, live, true)
    ensures Sorted(v.order.(live := live), Update(v, stats, member, live, force).rows)
  {
    hide Before, AsksForSort;
    var l, o := Updated(v.rows, stats, member), v.order.(live := live);
    if !force && !Resort(v.rows, o.col, stats, member) {
      forall i, j | 0 <= i < j < |l|
        ensures !Before(o, l[j], l[i])
      {
        UntouchedCompare(v.order, o, v.rows[j], v.rows[i], stats, member);
      }
      SortedStays(o, l);
    }
    StableSortSorts(o, l);
  }

  predicate Live(col: int) {
    col == NAME || col == STATUS || col == DOWNLOAD_LOCATION
  }

  /** The texts of the torrents shown compare, at the moment, in the order in which they are shown. */
  ghost predicate TextsInOrder(v: Model, live: (int, nat) -> int) {
    Live(v.order.col) ==>
      forall i, j :: 0 <= i < j < v.numVisible <= |v.rows| ==>
        var x, y := live(v.order.col, v.rows[i].tc), live(v.order.col, v.rows[j].tc);
        if v.order.ascending then x <= y else y <= x
  }

  /** The visible rows come first, and are counted. */
  ghost predicate VisibleRowsFirst(v: Model) {
    && v.numVisible == |Visible(v.rows)| <= |v.rows|
    && forall i :: 0 <= i < |v.rows| ==> (v.rows[i].hidden <==> i >= v.numVisible)
  }

  lemma {:induction false} SameVisible(a: seq<Row>, b: seq<Row>)
    requires |a| == |b| && forall i :: 0 <= i < |a| ==> a[i].hidden == b[i].hidden
    ensures |Visible(a)| == |Visible(b)| <= |a|
  {
    if a != [] {
      SameVisible(a[..|a| - 1], b[..|b| - 1]);
    }
  }

  /** For a column that is not cached, rows that begin with the visible ones are in order exactly if their texts are. */
  lemma UncachedSorted(v: Model, live: (int, nat) -> int)
    requires VisibleRowsFirst(v) && !Cached(v.order.col)
    ensures Sorted(v.order.(live := live), v.rows) <==> TextsInOrder(v, live)
  {
    var o := v.order.(live := live);
    if Sorted(o, v.rows) {
      forall i, j | Live(o.col) && 0 <= i < j < v.numVisible
        ensures var x, y := live(o.col, v.rows[i].tc), live(o.col, v.rows[j].tc);
                if o.ascending then x <= y else y <= x
      {
        assert !Before(o, v.rows[j], v.rows[i]);
      }
    }
  }

  /** For a column that is not cached: leaving the sort out makes no difference exactly if there was a reason to sort
      after all, or the texts of the torrents shown still compare as they are shown. */
  lemma SkippedSortExact(v: Model, stats: nat -> Stats, member: nat -> bool, live: (int, nat) -> int, force: bool)
    requires VisibleRowsFirst(v) && !Cached(v.order.col)
    ensures Update(v, stats, member, live, force) == Update(v, stats, member, live, true)
            <==> force || Resort(v.rows, v.order.col, stats, member) || TextsInOrder(v, live)
  {
    hide Before, Resort, TextsInOrder, Visible;
    var l, o := Updated(v.rows, stats, member), v.order.(live := live);
    SortedStays(o, l);
    if !Resort(v.rows, v.order.col, stats, member) {
      QuietRows(v, stats, member);
      UncachedSorted(v.(rows := l), live);
      SameTexts(v, l, live);
    }
  }

  /** An update that does not sort leaves every row where it was, hidden or shown as before. */
  lemma QuietRows(v: Model, stats: nat -> Stats, member: nat -> bool)
    requires VisibleRowsFirst(v) && !Resort(v.rows, v.order.col, stats, member)
    ensures VisibleRowsFirst(v.(rows := Updated(v.rows, stats, member)))
    ensures |Visible(Updated(v.rows, stats, member))| == v.numVisible
  {
    hide Visible, Touched, Refreshed;
    var l := Updated(v.rows, stats, member);
    forall i | 0 <= i < |l|
      ensures l[i].hidden == v.rows[i].hidden
    {
      assert !AsksForSort(v.rows[i], v.order.col, stats, member);
    }
    SameVisible(l, v.rows);
  }

  lemma SameTexts(v: Model, l: seq<Row>, live: (int, nat) -> int)
    requires |l| == |v.rows| && forall i :: 0 <= i < |l| ==> l[i].tc == v.rows[i].tc
    ensures TextsInOrder(v.(rows := l), live) <==> TextsInOrder(v, live)
  {
    assert forall i :: 0 <= i < |l| ==> live(v.order.col, l[i].tc) == live(v.order.col, v.rows[i].tc);
  }

  /** In particular nothing goes stale while the texts of the torrents shown compare as at the last sort. */
  lemma TextsUnchanged(v: Model, live: (int, nat) -> int)
    requires VisibleRowsFirst(v) && !Cached(v.order.col) && Sorted(v.order, v.rows)
    requires forall a, b :: a in v.rows && b in v.rows ==>
               (live(v.order.col, a.tc) < live(v.order.col, b.tc)
                <==> v.order.live(v.order.col, a.tc) < v.order.live(v.order.col, b.tc))
    ensures TextsInOrder(v, live)
  {
    assert v.order.(live := v.order.live) == v.order;
    UncachedSorted(v, v.order.live);
  }

  /** Sorted rows show the filtered and sorted table. */
  lemma SortedAgrees(v: Model, l: seq<Row>)
    requires v.rows == StableSort(v.order, l) && v.numVisible == |Visible(l)|
    ensures Agrees(v, l)
  {
    hide Before, InsertRow;
    StableSortSorts(v.order, l);
    SortVisible(v.order, l);
    VisibleFirst(v.order, v.rows);
    StableSortSorts(v.order, Visible(l));
    SameLength(Visible(l), StableSort(v.order, Visible(l)));
  }

  datatype Event =
    | Refresh(force: bool)
    | Add(tc: nat)
    | Remove(tc: nat)
    | SortBy(col: int, ascending: bool)

  /** What happens, with what the torrents report, the group shows and the texts compare like at the time. */
  datatype Moment = Moment(ev: Event, stats: nat -> Stats, member: nat -> bool, live: (int, nat) -> int)

  function Step(v: Model, m: Moment): Model {
    match m.ev
    case Refresh(force) => Update(v, m.stats, m.member, m.live, force)
    case Add(tc) => AddTorrent(v, tc, m.stats, m.member, m.live)
    case Remove(tc) => RemoveTorrent(v, tc, m.stats, m.member, m.live)
    case SortBy(col, ascending) => Sort(v.(order := v.order.(live := m.live)), col, ascending)
  }

  /** The rows an event leaves to be shown, before any sorting. */
  function Shown(v: Model, m: Moment): seq<Row> {
    match m.ev
    case Refresh(_) => Updated(v.rows, m.stats, m.member)
    case Add(tc) => Updated(v.rows + [NewRow(tc, m.stats(tc))], m.stats, m.member)
    case Remove(tc) =>
      var i := FirstRow(v.rows, tc);
      if i == |v.rows| then v.rows else Updated(v.rows[..i] + v.rows[i + 1..], m.stats, m.member)
    case SortBy(_, _) => v.rows
  }

  function Run(v: Model, ms: seq<Moment>): Model
    decreases |ms|
  {
    if ms == [] then v else Step(Run(v, ms[..|ms| - 1]), ms[|ms| - 1])
  }

  ghost predicate Consistent(v: Model) {
    Tidy(v) && VisibleRowsFirst(v)
  }

  /** The event sorts the rows. */
  predicate Sorts(v: Model, m: Moment) {
    match m.ev
    case Refresh(force) => force || Resort(v.rows, v.order.col, m.stats, m.member)
    case Add(_) => true
    case Remove(tc) => FirstRow(v.rows, tc) < |v.rows|
    case SortBy(_, _) => true
  }

  /** How texts compare for a view that the event leaves unsorted: a removal of a torrent without a row looks at
      nothing. */
  function LiveAt(v: Model, m: Moment): (int, nat) -> int {
    if m.ev.Remove? then v.order.live else m.live
  }

  lemma SortConsistent(o: Order, l: seq<Row>)
    ensures Consistent(Model(StableSort(o, l), o, |Visible(l)|))
  {
    hide Before, InsertRow, StableSort, Visible, Sorted;
    StableSortSorts(o, l);
    SortVisible(o, l);
    StableSortSorts(o, Visible(l));
    VisibleFirst(o, StableSort(o, l));
    SameLength(Visible(l), StableSort(o, Visible(l)));
  }

  lemma SameLength(a: seq<Row>, b: seq<Row>)
    requires multiset(a) == multiset(b)
    ensures |a| == |b|
  {
    assert |multiset(a)| == |a| && |multiset(b)| == |b|;
  }

  /** One event keeps the visible rows first. Afterwards the rows shown are the sorted members of the group exactly if
      the column is cached, or the event sorted, or the texts compare as shown. */
  lemma StepKeeps(v: Model, m: Moment)
    requires Consistent(v)
    ensures Consistent(Step(v, m))
    ensures Agrees(Step(v, m), Shown(v, m))
            <==> Cached(v.order.col) || Sorts(v, m) || TextsInOrder(v, LiveAt(v, m))
  {
    hide Before, InsertRow, Agrees, Resort, Updated, Consistent, TextsInOrder, Visible;
    match m.ev
    case Refresh(force) =>
      if force || Resort(v.rows, v.order.col, m.stats, m.member) {
        SortingRefresh(v, m.stats, m.member, m.live, force);
      } else {
        QuietRefresh(v, m.stats, m.member, m.live);
      }
    case Add(tc) =>
      ForcedAgrees(v.(rows := v.rows + [NewRow(tc, m.stats(tc))]), m.stats, m.member, m.live);
    case Remove(tc) =>
      var i := FirstRow(v.rows, tc);
      if i < |v.rows| {
        ForcedAgrees(v.(rows := v.rows[..i] + v.rows[i + 1..]), m.stats, m.member, m.live);
      } else {
        UntouchedAgrees(v);
      }
    case SortBy(col, ascending) =>
      CountsVisible(v);
      SortKeeps(v.(order := v.order.(live := m.live)), col, ascending);
  }

  lemma SortingRefresh(v: Model, stats: nat -> Stats, member: nat -> bool, live: (int, nat) -> int, force: bool)
    requires force || Resort(v.rows, v.order.col, stats, member)
    ensures var r := Update(v, stats, member, live, force);
            Consistent(r) && Agrees(r, Updated(v.rows, stats, member))
  {
    hide Before, InsertRow, Agrees, Resort, Updated, Consistent;
    ForcedAgrees(v, stats, member, live);
  }

  lemma QuietRefresh(v: Model, stats: nat -> Stats, member: nat -> bool, live: (int, nat) -> int)
    requires Consistent(v) && !Resort(v.rows, v.order.col, stats, member)
    ensures var r := Update(v, stats, member, live, false);
            && Consistent(r)
            && (Agrees(r, Updated(v.rows, stats, member)) <==> Cached(v.order.col) || TextsInOrder(v, live))
  {
    hide Before, InsertRow, Agrees, Resort, Updated, TextsInOrder, Visible;
    var l, o := Updated(v.rows, stats, member), v.order.(live := live);
    QuietRows(v, stats, member);
    var r := Update(v, stats, member, live, false);
    if Cached(v.order.col) {
      SkippedSort(v, stats, member, live, false);
    } else {
      UncachedSorted(v.(rows := l), live);
      SameTexts(v, l, live);
    }
    AgreesExact(r, l);
  }

  /** Rows that were not moved show the sorted table exactly if they are in order. */
  lemma AgreesExact(v: Model, l: seq<Row>)
    requires v.rows == l && VisibleRowsFirst(v)
    ensures Agrees(v, l) <==> Sorted(v.order, l)
  {
    hide InsertRow;
    SortedStays(v.order, l);
    if Sorted(v.order, l) {
      SortedAgrees(v, l);
    } else if Agrees(v, l) {
      StableSortSorts(v.order, Visible(l));
    }
  }

  lemma ForcedAgrees(v: Model, stats: nat -> Stats, member: nat -> bool, live: (int, nat) -> int)
    ensures var r := Update(v, stats, member, live, true);
            Consistent(r) && Agrees(r, Updated(v.rows, stats, member))
  {
    hide Before, InsertRow, Agrees, Resort, Updated, Consistent;
    var l, o := Updated(v.rows, stats, member), v.order.(live := live);
    SortedAgrees(Update(v, stats, member, live, true), l);
    SortConsistent(o, l);
  }

  lemma UntouchedAgrees(v: Model)
    requires Consistent(v)
    ensures Agrees(v, v.rows) <==> Cached(v.order.col) || TextsInOrder(v, v.order.live)
  {
    hide Before, InsertRow, Agrees, TextsInOrder, Visible;
    AgreesExact(v, v.rows);
    if !Cached(v.order.col) {
      assert v.order.(live := v.order.live) == v.order;
      UncachedSorted(v, v.order.live);
    }
  }

  lemma CountsVisible(v: Model)
    requires Consistent(v)
    ensures v.numVisible == |Visible(v.rows)|
  {
  }

  lemma SortKeeps(v: Model, col: int, ascending: bool)
    requires v.numVisible == |Visible(v.rows)|
    ensures Consistent(Sort(v, col, ascending)) && Agrees(Sort(v, col, ascending), v.rows)
  {
    hide Before, InsertRow, Agrees;
    var o := Order(col, ascending, v.order.live);
    SortConsistent(o, v.rows);
    SortedAgrees(Sort(v, col, ascending), v.rows);
  }

  /** A view as it is made: every torrent has a row, none is hidden, and the order is by name. */
  function Fresh(tcs: seq<nat>, stats: nat -> Stats, live: (int, nat) -> int): Model {
    Model(seq(|tcs|, i requires 0 <= i < |tcs| => NewRow(tcs[i], stats(tcs[i]))), Order(NAME, true, live), |tcs|)
  }

  lemma {:induction false} NoneHidden(l: seq<Row>)
    requires forall i :: 0 <= i < |l| ==> !l[i].hidden
    ensures Visible(l) == l
  {
    if l != [] {
      NoneHidden(l[..|l| - 1]);
      assert l == l[..|l| - 1] + [l[|l| - 1]];
    }
  }

  /** Over every run: after every event the rows shown are the members of the group, sorted by the column chosen,
      exactly if the values of the column are cached, or the event sorted, or the texts of the torrents shown compare
      as they are shown. */
  lemma {:induction false} RunAgrees(tcs: seq<nat>, stats: nat -> Stats, live: (int, nat) -> int, ms: seq<Moment>)
    ensures Consistent(Run(Fresh(tcs, stats, live), ms))
    ensures ms != [] ==>
              var v, m := Run(Fresh(tcs, stats, live), ms[..|ms| - 1]), ms[|ms| - 1];
              (Agrees(Run(Fresh(tcs, stats, live), ms), Shown(v, m))
               <==> Cached(v.order.col) || Sorts(v, m) || TextsInOrder(v, LiveAt(v, m)))
    decreases |ms|
  {
    hide Step, Shown, Agrees, Before, Sorts, TextsInOrder, Consistent, Run, Fresh;
    var start := Fresh(tcs, stats, live);
    if ms == [] {
      FreshConsistent(tcs, stats, live);
    } else {
      var front, m := ms[..|ms| - 1], ms[|ms| - 1];
      RunAgrees(tcs, stats, live, front);
      RunSnoc(start, ms);
      StepKeeps(Run(start, front), m);
    }
  }

  lemma FreshConsistent(tcs: seq<nat>, stats: nat -> Stats, live: (int, nat) -> int)
    ensures Consistent(Run(Fresh(tcs, stats, live), []))
  {
    NoneHidden(Fresh(tcs, stats, live).rows);
  }

  lemma RunSnoc(v: Model, ms: seq<Moment>)
    requires ms != []
    ensures Run(v, ms) == Step(Run(v, ms[..|ms| - 1]), ms[|ms| - 1])
  {
    hide Step;
  }

  /** For the name, the status and the location the rows can go stale: two torrents swap their names, nothing
      that is cached changes, and the rows stay in the old order. */
  lemma RenameUnnoticed(s: Stats, live: (int, nat) -> int, renamed: (int, nat) -> int)
    requires s.runUl == 0 && s.runDl == 0
    requires live(NAME, 1) < live(NAME, 2) && renamed(NAME, 2) < renamed(NAME, 1)
    ensures var v := Model([Row(1, s, false), Row(2, s, false)], Order(NAME, true, live), 2);
            && Sorted(v.order, v.rows) && v.numVisible == |Visible(v.rows)|
            && var r := Update(v, _ => s, _ => true, renamed, false);
               r.rows == v.rows && !Sorted(r.order, r.rows)
  {
    var v := Model([Row(1, s, false), Row(2, s, false)], Order(NAME, true, live), 2);
    NoneHidden(v.rows);
    var r := Update(v, _ => s, _ => true, renamed, false);
    assert !Resort(v.rows, NAME, _ => s, _ => true);
    assert Before(r.order, r.rows[1], r.rows[0]);
  }
}
