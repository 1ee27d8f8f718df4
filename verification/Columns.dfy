/** What the columns of the torrent table mean: which way each sorts, what makes it ask for a sort, and which torrents
    are shown with which values (ktorrent/viewmodel.cpp). */
module Columns {
  import opened ViewModel

  /** What a column holds of a torrent, the value it is sorted by first. */
  function Cells(col: int, c: Stats): seq<real> {
    if col == STATUS then [c.status as real]
    else if col == BYTES_DOWNLOADED then [c.downloaded as real]
    else if col == TOTAL_BYTES_TO_DOWNLOAD then [c.toDownload as real]
    else if col == BYTES_UPLOADED then [c.uploaded as real]
    else if col == DOWNLOAD_RATE then [c.downRate as real]
    else if col == UPLOAD_RATE then [c.upRate as real]
    else if col == ETA then [c.eta as real]
    else if col == SEEDERS then [c.seeders as real, c.seedersTotal as real]
    else if col == LEECHERS then [c.leechers as real, c.leechersTotal as real]
    else if col == PERCENTAGE then [c.percentage]
    else if col == SHARE_RATIO then [c.ratio]
    else if col == DOWNLOAD_TIME then [c.runDl as real]
    else if col == SEED_TIME then [c.runUl as real]
    else []
  }

  /** The place of a row in the order of a column: a value, or beyond all values. */
  datatype Place = Place(infinite: bool, value: real)

  predicate Below(a: Place, b: Place) {
    if a.infinite || b.infinite then !a.infinite && b.infinite else a.value < b.value
  }

  /** No time left means that the download never ends, and a rate below 102 bytes a second is none. */
  function PlaceOf(o: Order, r: Row): Place {
    if Live(o.col) then Place(false, o.live(o.col, r.tc) as real)
    else if Cells(o.col, r.c) == [] then Place(false, 0.0)
    else
      var x := Cells(o.col, r.c)[0];
      if o.col == ETA then Place(x == 0.0, x)
      else if (o.col == DOWNLOAD_RATE || o.col == UPLOAD_RATE) && x < 102.0 then Place(false, 0.0)
      else Place(false, x)
  }

  /** Every column sorts by the value it holds, or by its text as that compares at the moment. */
  lemma ColumnSorts(o: Order, a: Row, b: Row)
    ensures LessThan(o, a, b) <==> Below(PlaceOf(o, a), PlaceOf(o, b))
  {
  }

  /** The rows shown rise, or for a descending sort fall. */
  ghost predicate InOrder(v: Model) {
    forall i, j :: 0 <= i < j < v.numVisible <= |v.rows| ==>
      var x, y := PlaceOf(v.order, v.rows[i]), PlaceOf(v.order, v.rows[j]);
      if v.order.ascending then !Below(y, x) else !Below(x, y)
  }

  lemma SortedInOrder(v: Model)
    requires VisibleRowsFirst(v) && Sorted(v.order, v.rows)
    ensures InOrder(v)
  {
    hide PlaceOf, LessThan, Visible;
    forall i, j | 0 <= i < j < v.numVisible
      ensures var x, y := PlaceOf(v.order, v.rows[i]), PlaceOf(v.order, v.rows[j]);
              if v.order.ascending then !Below(y, x) else !Below(x, y)
    {
      assert !Before(v.order, v.rows[j], v.rows[i]);
      ColumnSorts(v.order, v.rows[j], v.rows[i]);
      ColumnSorts(v.order, v.rows[i], v.rows[j]);
    }
  }

  /** An event that sorts leaves rows that are in the order of the column chosen. */
  lemma SortsInOrder(v: Model, m: Moment)
    requires Consistent(v) && Sorts(v, m)
    ensures InOrder(Step(v, m))
  {
    hide Before, InsertRow, StableSort, Visible, Sorted, Resort, Updated, InOrder;
    StepKeeps(v, m);
    var r := Step(v, m);
    var l := Arranged(v, m);
    StableSortSorts(r.order, l);
    SortedInOrder(r);
  }

  /** The rows an event that sorts sorts. */
  ghost function Arranged(v: Model, m: Moment): (l: seq<Row>)
    ensures Sorts(v, m) ==> Step(v, m).rows == StableSort(Step(v, m).order, l)
  {
    Shown(v, m)
  }

  /** The column and the direction chosen last; by name and rising to begin with. */
  function Chosen(ms: seq<Moment>): (int, bool) {
    if ms == [] then (0, true)
    else
      match ms[|ms| - 1].ev
      case SortBy(col, ascending) => (col, ascending)
      case _ => Chosen(ms[..|ms| - 1])
  }

  lemma {:induction false} RunChosen(tcs: seq<nat>, stats: nat -> Stats, live: (int, nat) -> int, ms: seq<Moment>)
    ensures var o := Run(Fresh(tcs, stats, live), ms).order; (o.col, o.ascending) == Chosen(ms)
    decreases |ms|
  {
    hide Run, Updated, StableSort, Visible, Resort;
    var start := Fresh(tcs, stats, live);
    if ms == [] {
      RunNothing(start);
    } else {
      RunChosen(tcs, stats, live, ms[..|ms| - 1]);
      RunSnoc(start, ms);
    }
  }

  /** Over every run: the rows shown are in the order of the column chosen, the way chosen, after every event that
      sorts, and for the columns whose values are cached after every event. */
  lemma {:induction false} RunInOrder(tcs: seq<nat>, stats: nat -> Stats, live: (int, nat) -> int, ms: seq<Moment>)
    requires ms != []
    ensures var v := Run(Fresh(tcs, stats, live), ms);
            && (v.order.col, v.order.ascending) == Chosen(ms)
            && (Cached(v.order.col) || Sorts(Run(Fresh(tcs, stats, live), ms[..|ms| - 1]), ms[|ms| - 1]) ==> InOrder(v))
  {
    hide Step, Sorts, InOrder, Run, Fresh, VisibleRowsFirst, Sorted;
    var start, front := Fresh(tcs, stats, live), ms[..|ms| - 1];
    RunAgrees(tcs, stats, live, ms);
    RunAgrees(tcs, stats, live, front);
    RunSnoc(start, ms);
    RunChosen(tcs, stats, live, ms);
    if Sorts(Run(start, front), ms[|ms| - 1]) {
      SortsInOrder(Run(start, front), ms[|ms| - 1]);
    } else if Cached(Run(start, ms).order.col) {
      SortedInOrder(Run(start, ms));
    }
  }

  /** A row asks for a sort exactly if what the column holds of it changes. */
  lemma TouchedExact(c: Stats, s: Stats, col: int)
    ensures Touched(c, s, col) <==> Cells(col, Refreshed(c, s)) != Cells(col, c)
  {
    var x, y := Cells(col, Refreshed(c, s)), Cells(col, c);
    assert |x| == |y| <= 2;
    if x == y {
      assert forall i :: 0 <= i < |x| ==> x[i] == y[i];
    } else {
      assert exists i :: 0 <= i < |x| && x[i] != y[i];
    }
  }

  /** Values that are what a torrent reports, but for the share of the download and the share ratio, which are no more
      than 0.01 off; the seed time is what the torrent ran without downloading. */
  predicate Reports(c: Stats, s: Stats) {
    && c.percentage - 0.01 <= s.percentage <= c.percentage + 0.01
    && c.ratio - 0.01 <= s.ratio <= c.ratio + 0.01
    && c.runUl == (if s.runDl <= s.runUl then s.runUl - s.runDl else 0)
    && c.(percentage := s.percentage, ratio := s.ratio, runUl := s.runUl) == s
  }

  /** Every row holds what its torrent reported at a moment, and is hidden exactly if the group did not have it. */
  ghost predicate TrueOf(v: Model, m: Moment) {
    forall i :: 0 <= i < |v.rows| ==>
      var r := v.rows[i];
      Reports(r.c, m.stats(r.tc)) && (r.hidden <==> !m.member(r.tc))
  }

  /** The torrents that have rows. */
  function Torrents(l: seq<Row>): multiset<nat> {
    if l == [] then multiset{} else Torrents(l[..|l| - 1]) + multiset{l[|l| - 1].tc}
  }

  /** The torrents there are after an event. */
  function Left(ts: multiset<nat>, m: Moment): multiset<nat> {
    match m.ev
    case Add(tc) => ts + multiset{tc}
    case Remove(tc) => ts - multiset{tc}
    case _ => ts
  }

  /** The event looks at the torrents: only a sort, and a removal of a torrent without a row, do not. */
  predicate Looks(v: Model, m: Moment) {
    !m.ev.SortBy? && (m.ev.Remove? ==> m.ev.tc in Torrents(v.rows))
  }

  lemma {:induction false} TorrentsJoin(a: seq<Row>, b: seq<Row>)
    ensures Torrents(a + b) == Torrents(a) + Torrents(b)
  {
    hide Torrents;
    NoTorrents();
    if b == [] {
      assert a + b == a;
    } else {
      TorrentsJoin(a, b[..|b| - 1]);
      LastTorrent(a + b[..|b| - 1], b[|b| - 1]);
      LastTorrent(b[..|b| - 1], b[|b| - 1]);
      assert b == b[..|b| - 1] + [b[|b| - 1]];
      assert a + b == (a + b[..|b| - 1]) + [b[|b| - 1]];
    }
  }

  lemma LastTorrent(l: seq<Row>, r: Row)
    ensures Torrents(l + [r]) == Torrents(l) + multiset{r.tc}
  {
    assert (l + [r])[..|l|] == l;
  }

  lemma OneTorrent(r: Row)
    ensures Torrents([r]) == multiset{r.tc}
  {
    assert [r][..0] == [];
  }

  lemma {:induction false} InsertTorrents(o: Order, l: seq<Row>, x: Row)
    ensures Torrents(InsertRow(o, l, x)) == Torrents(l) + multiset{x.tc}
  {
    hide Before, Torrents;
    OneTorrent(x);
    if l == [] {
      assert Torrents(l) == multiset{} by { NoTorrents(); }
    } else if Before(o, x, l[0]) {
      TorrentsJoin([x], l);
    } else {
      InsertTorrents(o, l[1..], x);
      assert l == [l[0]] + l[1..];
      TorrentsJoin([l[0]], l[1..]);
      TorrentsJoin([l[0]], InsertRow(o, l[1..], x));
    }
  }

  lemma NoTorrents()
    ensures Torrents([]) == multiset{}
  {
  }

  lemma {:induction false} SortTorrents(o: Order, l: seq<Row>)
    ensures Torrents(StableSort(o, l)) == Torrents(l)
  {
    hide Before, InsertRow;
    if l != [] {
      SortTorrents(o, l[..|l| - 1]);
      InsertTorrents(o, StableSort(o, l[..|l| - 1]), l[|l| - 1]);
    }
  }

  lemma {:induction false} SameTorrents(a: seq<Row>, b: seq<Row>)
    requires |a| == |b| && forall i :: 0 <= i < |a| ==> a[i].tc == b[i].tc
    ensures Torrents(a) == Torrents(b)
  {
    if a != [] {
      SameTorrents(a[..|a| - 1], b[..|b| - 1]);
    }
  }

  lemma {:induction false} HasRow(l: seq<Row>, tc: nat)
    ensures tc in Torrents(l) <==> exists i :: 0 <= i < |l| && l[i].tc == tc
  {
    if l != [] {
      var front := l[..|l| - 1];
      HasRow(front, tc);
      if tc in Torrents(front) {
        var i :| 0 <= i < |front| && front[i].tc == tc;
        assert l[i].tc == tc;
      } else if l[|l| - 1].tc != tc {
        forall i | 0 <= i < |l|
          ensures l[i].tc != tc
        {
          assert i < |front| ==> l[i] == front[i];
        }
      }
    }
  }

  lemma UpdateTrue(v: Model, m: Moment, force: bool)
    ensures var r := Update(v, m.stats, m.member, m.live, force);
            TrueOf(r, m) && Torrents(r.rows) == Torrents(v.rows)
  {
    hide Before, InsertRow, Resort, StableSort, Visible, Sorted, Torrents;
    var l, o := Updated(v.rows, m.stats, m.member), v.order.(live := m.live);
    SameTorrents(l, v.rows);
    SortTorrents(o, l);
    StableSortSorts(o, l);
    SameRowsTrue(l, StableSort(o, l), m, o);
  }

  lemma SameRowsTrue(a: seq<Row>, b: seq<Row>, m: Moment, o: Order)
    requires multiset(a) == multiset(b) && TrueOf(Model(a, o, 0), m)
    ensures TrueOf(Model(b, o, 0), m)
  {
    hide Reports;
    forall i | 0 <= i < |b|
      ensures Reports(b[i].c, m.stats(b[i].tc)) && (b[i].hidden <==> !m.member(b[i].tc))
    {
      assert b[i] in multiset(b);
      assert b[i] in a;
    }
  }

  /** One event: the torrents that have rows are those there were, but for the one added or removed; if it looks at
      them every row tells the truth afterwards, and if not the rows are what they were. */
  lemma StepTrue(v: Model, m: Moment)
    ensures Torrents(Step(v, m).rows) == Left(Torrents(v.rows), m)
    ensures Looks(v, m) ==> TrueOf(Step(v, m), m)
    ensures !Looks(v, m) ==> multiset(Step(v, m).rows) == multiset(v.rows)
  {
    hide Before, InsertRow, StableSort, Visible, Sorted, Torrents, Update, TrueOf;
    match m.ev
    case Refresh(force) => UpdateTrue(v, m, force);
    case Add(tc) =>
      var r := NewRow(tc, m.stats(tc));
      UpdateTrue(v.(rows := v.rows + [r]), m, true);
      TorrentsJoin(v.rows, [r]);
      OneTorrent(r);
    case Remove(tc) =>
      HasRow(v.rows, tc);
      var i := FirstRow(v.rows, tc);
      if i < |v.rows| {
        UpdateTrue(v.(rows := v.rows[..i] + v.rows[i + 1..]), m, true);
        WithoutRow(v.rows, i);
      }
    case SortBy(col, ascending) =>
      var o := Order(col, ascending, m.live);
      SortTorrents(o, v.rows);
      StableSortSorts(o, v.rows);
  }

  lemma WithoutRow(l: seq<Row>, i: nat)
    requires i < |l|
    ensures Torrents(l[..i] + l[i + 1..]) == Torrents(l) - multiset{l[i].tc}
  {
    hide Torrents;
    assert l == l[..i] + ([l[i]] + l[i + 1..]);
    TorrentsJoin(l[..i], [l[i]] + l[i + 1..]);
    TorrentsJoin([l[i]], l[i + 1..]);
    TorrentsJoin(l[..i], l[i + 1..]);
    OneTorrent(l[i]);
  }

  /** The torrents there are after a run. */
  function LeftAfter(tcs: seq<nat>, ms: seq<Moment>): multiset<nat>
    decreases |ms|
  {
    if ms == [] then multiset(tcs) else Left(LeftAfter(tcs, ms[..|ms| - 1]), ms[|ms| - 1])
  }

  lemma {:induction false} FreshTorrents(l: seq<Row>, tcs: seq<nat>)
    requires |l| == |tcs| && forall i :: 0 <= i < |l| ==> l[i].tc == tcs[i]
    ensures Torrents(l) == multiset(tcs)
  {
    if l != [] {
      var n := |l| - 1;
      FreshTorrents(l[..n], tcs[..n]);
      assert tcs == tcs[..n] + [tcs[n]];
    }
  }

  /** Over every run: there is a row for every torrent there is, as many times as it was added, and for no other. */
  lemma {:induction false} RunTorrents(tcs: seq<nat>, stats: nat -> Stats, live: (int, nat) -> int, ms: seq<Moment>)
    ensures Torrents(Run(Fresh(tcs, stats, live), ms).rows) == LeftAfter(tcs, ms)
    decreases |ms|
  {
    hide Step, Torrents, Run;
    var start := Fresh(tcs, stats, live);
    if ms == [] {
      RunNothing(start);
      FreshTorrents(start.rows, tcs);
    } else {
      var front := ms[..|ms| - 1];
      RunTorrents(tcs, stats, live, front);
      RunSnoc(start, ms);
      StepTrue(Run(start, front), ms[|ms| - 1]);
    }
  }

  lemma RunNothing(v: Model)
    ensures Run(v, []) == v
  {
  }

  /** Over every run: after event k looked at the torrents, and until another one does, every row is hidden exactly if
      its torrent was no member of the group, and holds what the torrent reported. */
  lemma {:induction false} RunTrue(v: Model, ms: seq<Moment>, k: nat)
    requires k < |ms| && Looks(Run(v, ms[..k]), ms[k])
    requires forall i :: k < i < |ms| ==> !Looks(Run(v, ms[..i]), ms[i])
    ensures TrueOf(Run(v, ms), ms[k])
    decreases |ms|
  {
    hide Step, Run, Looks, TrueOf;
    var n := |ms| - 1;
    RunSnoc(v, ms);
    StepTrue(Run(v, ms[..n]), ms[n]);
    if k < n {
      forall i | k < i < n
        ensures !Looks(Run(v, ms[..n][..i]), ms[..n][i])
      {
        assert ms[..n][..i] == ms[..i];
      }
      assert ms[..n][..k] == ms[..k];
      RunTrue(v, ms[..n], k);
      Moved(Run(v, ms[..n]), Run(v, ms), ms[k]);
    }
  }

  lemma Moved(v: Model, w: Model, m: Moment)
    requires TrueOf(v, m) && multiset(v.rows) == multiset(w.rows)
    ensures TrueOf(w, m)
  {
    hide Reports;
    SameRowsTrue(v.rows, w.rows, m, v.order);
  }
}
