/** The ViewModel object and its items (ktorrent/viewmodel.cpp). */
module TorrentView {
  import opened Bytes
  import opened ViewModel

  class Item {
    const tc: nat
    var status: nat
    var downloaded: nat
    var toDownload: nat
    var uploaded: nat
    var downRate: nat
    var upRate: nat
    var eta: int
    var seeders: nat
    var seedersTotal: nat
    var leechers: nat
    var leechersTotal: nat
    var percentage: real
    var ratio: real
    var runDl: nat
    var runUl: nat
    var hidden: bool

    function Abs(): Row
      reads this
    {
      Row(tc, Stats(status, downloaded, toDownload, uploaded, downRate, upRate, eta, seeders, seedersTotal, leechers,
                    leechersTotal, percentage, ratio, runDl, runUl), hidden)
    }

    constructor (tc: nat, s: Stats)
      ensures Abs() == NewRow(tc, s)
    {
      this.tc, hidden := tc, false;
      status, downloaded, toDownload, uploaded := s.status, s.downloaded, s.toDownload, s.uploaded;
      downRate, upRate, eta := s.downRate, s.upRate, s.eta;
      seeders, seedersTotal, leechers, leechersTotal := s.seeders, s.seedersTotal, s.leechers, s.leechersTotal;
      percentage, ratio := s.percentage, s.ratio;
      runDl, runUl := s.runDl, (s.runUl - s.runDl) % UINT32;
    }

    /** s is what the torrent reports now. The comparisons are made one group of columns after the other. */
    method Update(s: Stats, col: int) returns (ret: bool, modified: bool)
      modifies this
      ensures Abs() == old(Abs()).(c := Refreshed(old(Abs().c), s))
      ensures ret <==> Touched(old(Abs().c), s, col)
      ensures modified <==> Abs() != old(Abs())
    {
      hide Differ, SeedTime, TouchedAmounts, TouchedRates, TouchedPeers, TouchedProgress;
      ghost var before := Abs().c;
      var ret1, modified1 := UpdateAmounts(s, col);
      var ret2, modified2 := UpdateRates(s, col);
      var ret3, modified3 := UpdatePeers(s, col);
      var ret4, modified4 := UpdateProgress(s, col);
      ret, modified := ret1 || ret2 || ret3 || ret4, modified1 || modified2 || modified3 || modified4;
      assert Abs().c == Refreshed(before, s);
      RefreshedChanges(before, s);
    }

    method UpdateAmounts(s: Stats, col: int) returns (ret: bool, modified: bool)
      modifies `status, `downloaded, `toDownload, `uploaded
      ensures status == s.status && downloaded == s.downloaded && toDownload == s.toDownload
      ensures uploaded == s.uploaded
      ensures ret <==> TouchedAmounts(old(status), old(downloaded), old(toDownload), old(uploaded), s, col)
      ensures modified <==> (
        || old(status) != s.status || old(downloaded) != s.downloaded || old(toDownload) != s.toDownload
        || old(uploaded) != s.uploaded)
    {
      ret, modified := false, false;
      if status != s.status {
        status, modified := s.status, true;
        ret := ret || col == STATUS;
      }
      if downloaded != s.downloaded {
        downloaded, modified := s.downloaded, true;
        ret := ret || col == BYTES_DOWNLOADED;
      }
      if toDownload != s.toDownload {
        toDownload, modified := s.toDownload, true;
        ret := ret || col == TOTAL_BYTES_TO_DOWNLOAD;
      }
      if uploaded != s.uploaded {
        uploaded, modified := s.uploaded, true;
        ret := ret || col == BYTES_UPLOADED;
      }
    }

    method UpdateRates(s: Stats, col: int) returns (ret: bool, modified: bool)
      modifies `downRate, `upRate, `eta
      ensures downRate == s.downRate && upRate == s.upRate && eta == s.eta
      ensures ret <==> TouchedRates(old(downRate), old(upRate), old(eta), s, col)
      ensures modified <==> old(downRate) != s.downRate || old(upRate) != s.upRate || old(eta) != s.eta
    {
      ret, modified := false, false;
      if downRate != s.downRate {
        downRate, modified := s.downRate, true;
        ret := ret || col == DOWNLOAD_RATE;
      }
      if upRate != s.upRate {
        upRate, modified := s.upRate, true;
        ret := ret || col == UPLOAD_RATE;
      }
      if eta != s.eta {
        eta, modified := s.eta, true;
        ret := ret || col == ETA;
      }
    }

    method UpdatePeers(s: Stats, col: int) returns (ret: bool, modified: bool)
      modifies `seeders, `seedersTotal, `leechers, `leechersTotal
      ensures seeders == s.seeders && seedersTotal == s.seedersTotal
      ensures leechers == s.leechers && leechersTotal == s.leechersTotal
      ensures ret <==> TouchedPeers(old(seeders), old(seedersTotal), old(leechers), old(leechersTotal), s, col)
      ensures modified <==> (
        || old(seeders) != s.seeders || old(seedersTotal) != s.seedersTotal
        || old(leechers) != s.leechers || old(leechersTotal) != s.leechersTotal)
    {
      ret, modified := false, false;
      if seeders != s.seeders || seedersTotal != s.seedersTotal {
        seeders, seedersTotal, modified := s.seeders, s.seedersTotal, true;
        ret := ret || col == SEEDERS;
      }
      if leechersTotal != s.leechersTotal || leechers != s.leechers {
        leechersTotal, leechers, modified := s.leechersTotal, s.leechers, true;
        ret := ret || col == LEECHERS;
      }
    }

    method UpdateProgress(s: Stats, col: int) returns (ret: bool, modified: bool)
      modifies `percentage, `ratio, `runDl, `runUl
      ensures percentage == if Differ(old(percentage), s.percentage) then s.percentage else old(percentage)
      ensures ratio == if Differ(old(ratio), s.ratio) then s.ratio else old(ratio)
      ensures runDl == s.runDl && runUl == SeedTime(s)
      ensures ret <==> TouchedProgress(old(percentage), old(ratio), old(runDl), old(runUl), s, col)
      ensures modified <==> (
        || percentage != old(percentage) || ratio != old(ratio) || runDl != old(runDl) || runUl != old(runUl))
    {
      ret, modified := false, false;
      if Differ(percentage, s.percentage) {
        percentage, modified := s.percentage, true;
        ret := ret || col == PERCENTAGE;
      }
      if Differ(ratio, s.ratio) {
        ratio, modified := s.ratio, true;
        ret := ret || col == SHARE_RATIO;
      }
      var rdl := s.runDl;
      if runDl != rdl {
        runDl, modified := rdl, true;
        ret := ret || col == DOWNLOAD_TIME;
      }
      var rul := s.runUl;
      rul := if rul >= rdl then rul - rdl else 0;
      if runUl != rul {
        runUl, modified := rul, true;
        ret := ret || col == SEED_TIME;
      }
    }
  }

  /** The refreshed values are other ones exactly if one group of them has changed. */
  lemma RefreshedChanges(c: Stats, s: Stats)
    ensures var r := Refreshed(c, s);
            r != c <==>
              || !(c.status == s.status && c.downloaded == s.downloaded && c.toDownload == s.toDownload
                   && c.uploaded == s.uploaded)
              || !(c.downRate == s.downRate && c.upRate == s.upRate && c.eta == s.eta)
              || !(c.seeders == s.seeders && c.seedersTotal == s.seedersTotal && c.leechers == s.leechers
                   && c.leechersTotal == s.leechersTotal)
              || !(r.percentage == c.percentage && r.ratio == c.ratio && r.runDl == c.runDl && r.runUl == c.runUl)
  {
    hide Differ, SeedTime;
  }

  ghost function RowsOf(items: seq<Item>): (r: seq<Row>)
    reads items
    ensures |r| == |items| && forall i :: 0 <= i < |r| ==> r[i] == items[i].Abs()
  {
    if items == [] then [] else RowsOf(items[..|items| - 1]) + [items[|items| - 1].Abs()]
  }

  ghost predicate NoItemTwice(items: seq<Item>) {
    forall i, j :: 0 <= i < j < |items| ==> items[i] != items[j]
  }

  /** Puts an item behind all that it does not come before. */
  method InsertItem(l: seq<Item>, x: Item, o: Order) returns (r: seq<Item>)
    requires NoItemTwice(l) && x !in l
    ensures NoItemTwice(r) && (forall y :: y in r <==> y in l || y == x)
    ensures RowsOf(r) == InsertRow(o, RowsOf(l), x.Abs())
  {
    hide Before, RowsOf, InsertRow, Item.Abs;
    var k := 0;
    while k < |l| && !Before(o, x.Abs(), l[k].Abs())
      invariant k <= |l|
      invariant forall i :: 0 <= i < k ==> !Before(o, x.Abs(), RowsOf(l)[i])
    {
      k := k + 1;
    }
    r := l[..k] + [x] + l[k..];
    InsertRowAt(o, RowsOf(l), x.Abs(), k);
    assert RowsOf(r) == RowsOf(l)[..k] + [x.Abs()] + RowsOf(l)[k..];
  }

  /** qStableSort */
  method SortItems(items: seq<Item>, o: Order) returns (r: seq<Item>)
    requires NoItemTwice(items)
    ensures NoItemTwice(r) && (forall y :: y in r <==> y in items)
    ensures RowsOf(r) == StableSort(o, RowsOf(items))
  {
    hide RowsOf, InsertRow, Item.Abs;
    r := [];
    ghost var rows := RowsOf(items);
    assert RowsOf(r) == [] && rows[..0] == [];
    for i := 0 to |items|
      invariant NoItemTwice(r) && (forall y :: y in r <==> y in items[..i])
      invariant RowsOf(r) == StableSort(o, rows[..i])
    {
      SortSnoc(o, rows[..i], items[i].Abs());
      assert rows[..i + 1] == rows[..i] + [items[i].Abs()];
      r := InsertItem(r, items[i], o);
    }
    assert rows[..|items|] == rows && items[..|items|] == items;
  }

  class View {
    var torrents: seq<Item>
    var sortColumn: int
    var ascending: bool
    var numVisible: nat

    ghost predicate Valid()
      reads this
    {
      NoItemTwice(torrents)
    }

    ghost function Items(): set<Item>
      reads this
    {
      set x | x in torrents
    }

    /** The table, given how the texts of the live columns compare at the moment. */
    ghost function Abs(live: (int, nat) -> int): Model
      reads this, Items()
    {
      Model(RowsOf(torrents), Order(sortColumn, ascending, live), numVisible)
    }

    constructor (tcs: seq<nat>, stats: nat -> Stats, ghost live: (int, nat) -> int)
      ensures Valid() && fresh(Items()) && Abs(live) == Fresh(tcs, stats, live)
    {
      sortColumn, ascending, numVisible := NAME, true, 0;
      torrents := [];
      new;
      for i := 0 to |tcs|
        invariant Valid() && |torrents| == i == numVisible
        invariant forall k :: 0 <= k < i ==> fresh(torrents[k])
        invariant sortColumn == NAME && ascending
        invariant forall k :: 0 <= k < i ==> torrents[k].Abs() == NewRow(tcs[k], stats(tcs[k]))
      {
        var item := new Item(tcs[i], stats(tcs[i]));
        ghost var before := torrents;
        torrents := torrents + [item];
        assert forall k :: 0 <= k < i ==> torrents[k] == before[k];
        numVisible := numVisible + 1;
      }
      assert RowsOf(torrents) == Fresh(tcs, stats, live).rows;
    }

    method Sort(col: int, ascending: bool, live: (int, nat) -> int)
      requires Valid()
      modifies this
      ensures Valid() && Items() == old(Items())
      ensures Abs(live) == ViewModel.Sort(old(Abs(live)), col, ascending)
    {
      hide RowsOf, StableSort, Item.Abs, NoItemTwice;
      ghost var before := torrents;
      sortColumn, this.ascending := col, ascending;
      assert RowsOf(before) == old(RowsOf(torrents));
      torrents := SortItems(torrents, Order(col, ascending, live));
    }

    /** Returns whether the rows were sorted. */
    method Update(stats: nat -> Stats, member: nat -> bool, live: (int, nat) -> int, forceResort: bool)
      returns (resorted: bool)
      requires Valid()
      modifies this, Items()
      ensures Valid() && Items() == old(Items())
      ensures Abs(live) == ViewModel.Update(old(Abs(live)), stats, member, live, forceResort)
      ensures resorted <==> forceResort || Resort(old(RowsOf(torrents)), old(sortColumn), stats, member)
    {
      hide UpdatedRow, AsksForSort, StableSort, RowsOf, Visible, Resort, Item.Abs;
      ghost var rows := RowsOf(torrents);
      ghost var l := Updated(rows, stats, member);
      var resort := forceResort;
      numVisible := 0;
      NothingYet(rows, l, sortColumn, stats, member);
      assert RowsOf(torrents) == rows;
      for idx := 0 to |torrents|
        invariant torrents == old(torrents) && sortColumn == old(sortColumn) && ascending == old(ascending)
        invariant forall k :: 0 <= k < |torrents| ==> torrents[k].Abs() == if k < idx then l[k] else rows[k]
        invariant resort <==> forceResort || Resort(rows[..idx], sortColumn, stats, member)
        invariant numVisible == |Visible(l[..idx])|
      {
        var i := torrents[idx];
        assert i.Abs() == rows[idx];
        var ask := UpdateItem(i, stats, member);
        if ask {
          resort := true;
        }
        if !i.hidden {
          numVisible := numVisible + 1;
        }
        ResortSnoc(rows, idx, sortColumn, stats, member);
        SortSnoc(Order(sortColumn, ascending, live), l[..idx], l[idx]);
        assert l[..idx + 1] == l[..idx] + [l[idx]];
      }
      assert rows[..|rows|] == rows && l[..|l|] == l;
      assert RowsOf(torrents) == l;
      if resort {
        Sort(sortColumn, ascending, live);
        return true;
      }
      return false;
    }

    /** One item of update: does it ask for a sort? */
    method UpdateItem(i: Item, stats: nat -> Stats, member: nat -> bool) returns (ask: bool)
      modifies i
      ensures i.Abs() == UpdatedRow(old(i.Abs()), stats, member) && i.hidden == i.Abs().hidden
      ensures ask <==> AsksForSort(old(i.Abs()), sortColumn, stats, member)
    {
      hide Refreshed, Touched;
      var touched, modified := i.Update(stats(i.tc), sortColumn);
      ask := touched;
      var hidden := !member(i.tc);
      if hidden != i.hidden {
        i.hidden := hidden;
        ask := true;
      }
    }

    static lemma NothingYet(rows: seq<Row>, l: seq<Row>, col: int, stats: nat -> Stats, member: nat -> bool)
      ensures !Resort(rows[..0], col, stats, member) && Visible(l[..0]) == []
    {
    }

    static lemma ResortSnoc(l: seq<Row>, k: nat, col: int, stats: nat -> Stats, member: nat -> bool)
      requires k < |l|
      ensures Resort(l[..k + 1], col, stats, member)
              <==> Resort(l[..k], col, stats, member) || AsksForSort(l[k], col, stats, member)
    {
      hide AsksForSort;
      if Resort(l[..k], col, stats, member) {
        var i :| 0 <= i < k && AsksForSort(l[..k][i], col, stats, member);
        assert l[..k + 1][i] == l[i];
      }
      assert l[..k + 1][k] == l[k];
      if Resort(l[..k + 1], col, stats, member) {
        var i :| 0 <= i < k + 1 && AsksForSort(l[..k + 1][i], col, stats, member);
        assert i < k ==> l[..k][i] == l[i];
      }
    }

    method AddTorrent(tc: nat, stats: nat -> Stats, member: nat -> bool, live: (int, nat) -> int)
      requires Valid()
      modifies this, Items()
      ensures Valid() && fresh(Items() - old(Items()))
      ensures Abs(live) == ViewModel.AddTorrent(old(Abs(live)), tc, stats, member, live)
    {
      hide ViewModel.Update;
      ghost var v := Abs(live);
      var item := new Item(tc, stats(tc));
      torrents := torrents + [item];
      assert RowsOf(torrents) == v.rows + [NewRow(tc, stats(tc))];
      var resorted := Update(stats, member, live, true);
    }

    method RemoveTorrent(tc: nat, stats: nat -> Stats, member: nat -> bool, live: (int, nat) -> int)
      requires Valid()
      modifies this, Items()
      ensures Valid() && Items() <= old(Items())
      ensures Abs(live) == ViewModel.RemoveTorrent(old(Abs(live)), tc, stats, member, live)
    {
      hide ViewModel.Update, RowsOf, FirstRow;
      ghost var v := Abs(live);
      for idx := 0 to |torrents|
        invariant Valid() && torrents == old(torrents) && Abs(live) == v
        invariant forall k :: 0 <= k < idx ==> torrents[k].tc != tc
      {
        if torrents[idx].tc == tc {
          assert v.rows[idx].tc == tc;
          assert forall k :: 0 <= k < idx ==> v.rows[k].tc != tc;
          assert idx == FirstRow(v.rows, tc);
          torrents := torrents[..idx] + torrents[idx + 1..];
          assert RowsOf(torrents) == v.rows[..idx] + v.rows[idx + 1..];
          var resorted := Update(stats, member, live, true);
          return;
        }
      }
    }
  }
}
