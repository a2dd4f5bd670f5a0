/**
 * The weekly aggregation: the handler derives the (year, month, ISO week)
 * selector from the New York local date and hands two queries to the SQL
 * engine. This module models what those queries compute over the partitioned
 * table: per ticker the opening price with the earliest `updated` and the
 * closing price with the latest `updated` in the selected partition, the inner
 * join of the two, and the top five gains (descending) and losses (ascending).
 *
 * The SQL leaves ties in ROW_NUMBER and ORDER BY unspecified; the model fixes
 * one choice and its lemmas state only what any choice satisfies: an extremal
 * row, a sorted permutation, the top five. Rounding to two decimals is the
 * parameter `round2`.
 */
module Ranking {
  import opened Wrappers
  import opened Text
  import opened Calendar

  /** One row of the stock_data table. */
  datatype StockRow = StockRow(ticker: string, price: real, updated: string, priceType: string,
                               year: int, month: int, week: int)

  /** The partition values interpolated into both queries. */
  datatype Selector = Selector(year: int, month: int, week: int)

  /** The handler's selector: calendar year and month of the local date, with its ISO week. */
  function SelectorOf(local: Date): (s: Selector)
    requires ValidDate(local)
    ensures 1 <= s.week <= 53
    ensures s == Selector(local.year, local.month, IsoWeek(local))
  {
    IsoWeekRange(local);
    Selector(local.year, local.month, IsoWeek(local))
  }

  /** Worked example: on 2021-01-01 the queries select year 2021, month 1 and ISO week 53. */
  lemma SelectorNewYear2021(local: Date)
    requires local == Date(2021, 1, 1)
    ensures ValidDate(local) && SelectorOf(local) == Selector(2021, 1, 53)
  {
    IsoWeekNewYear2021(local);
  }

  /** The WHERE clause of one CTE: price type and all three partition values. */
  predicate Selected(r: StockRow, sel: Selector, kind: string)
  {
    r.priceType == kind && r.year == sel.year && r.month == sel.month && r.week == sel.week
  }

  /** A selected row of ticker t. */
  predicate Candidate(r: StockRow, sel: Selector, kind: string, t: string)
  {
    r.ticker == t && Selected(r, sel, kind)
  }

  /** a comes no later than b in the window order: `updated` ascending or descending. */
  predicate FirstInOrder(a: StockRow, b: StockRow, ascending: bool)
  {
    if ascending then StrLe(a.updated, b.updated) else StrLe(b.updated, a.updated)
  }

  /** r is a row that ROW_NUMBER() may number 1 in ticker t's window. */
  predicate IsPick(rows: seq<StockRow>, sel: Selector, kind: string, t: string, ascending: bool, r: StockRow)
  {
    r in rows && Candidate(r, sel, kind, t)
    && forall q | q in rows && Candidate(q, sel, kind, t) :: FirstInOrder(r, q, ascending)
  }

  /** The row numbered 1 in ticker t's window, ties going to the earlier row of the table. */
  function Pick(rows: seq<StockRow>, sel: Selector, kind: string, t: string, ascending: bool): Option<StockRow>
  {
    if rows == [] then None
    else
      var rest := Pick(rows[1..], sel, kind, t, ascending);
      if !Candidate(rows[0], sel, kind, t) then rest
      else if rest.None? || FirstInOrder(rows[0], rest.value, ascending) then Some(rows[0])
      else rest
  }

  /** A window has a first row exactly when it is non-empty, and that row comes first in the window order. */
  lemma {:induction false} PickIsExtremal(rows: seq<StockRow>, sel: Selector, kind: string, t: string, ascending: bool)
    ensures var p := Pick(rows, sel, kind, t, ascending);
      && (p.Some? <==> exists q | q in rows :: Candidate(q, sel, kind, t))
      && (p.Some? ==> IsPick(rows, sel, kind, t, ascending, p.value))
  {
    if rows != [] {
      var rest := rows[1..];
      PickIsExtremal(rest, sel, kind, t, ascending);
      assert forall q | q in rows :: q == rows[0] || q in rest;
      var pr := Pick(rest, sel, kind, t, ascending);
      if Candidate(rows[0], sel, kind, t) {
        if pr.None? || FirstInOrder(rows[0], pr.value, ascending) {
          forall q | q in rows && Candidate(q, sel, kind, t)
            ensures FirstInOrder(rows[0], q, ascending)
          {
            if q == rows[0] {
              StrLeReflexive(q.updated);
            } else if ascending {
              StrLeTransitive(rows[0].updated, pr.value.updated, q.updated);
            } else {
              StrLeTransitive(q.updated, pr.value.updated, rows[0].updated);
            }
          }
        } else {
          StrLeTotal(rows[0].updated, pr.value.updated);
        }
      }
    }
  }

  /** One row of a query's result: o.ticker, o.opening_price, c.closing_price and the rounded percentage. */
  datatype Change = Change(ticker: string, opening: real, closing: real, ratio: real, reported: real)

  /** The joined row of an opening pick o and a closing pick c. */
  function ChangeOf(o: StockRow, c: StockRow, round2: real -> real): (ch: Change)
    requires o.price != 0.0
    ensures ch.ratio * o.price == c.price - o.price
    ensures ch.ratio > 0.0 <==> (if o.price > 0.0 then c.price > o.price else c.price < o.price)
    ensures ch.reported == round2(ch.ratio * 100.0)
  {
    var ratio := (c.price - o.price) / o.price;
    Change(o.ticker, o.price, c.price, ratio, round2(ratio * 100.0))
  }

  /**
   * The SQL divides only by the opening price numbered 1 of a ticker that also has a
   * closing row numbered 1 in the selected partition; those divisors are never zero.
   * Every other opening row, of any price, is allowed.
   */
  ghost predicate OpeningsNonzero(rows: seq<StockRow>, sel: Selector)
  {
    forall t ::
      Pick(rows, sel, "opening", t, true).Some? && Pick(rows, sel, "closing", t, false).Some? ==>
        Pick(rows, sel, "opening", t, true).value.price != 0.0
  }

  /** A row outside the selected partition changes no pick, so it can never make a divisor zero. */
  lemma UnselectedRowIgnored(x: StockRow, rows: seq<StockRow>, sel: Selector)
    requires x.year != sel.year || x.month != sel.month || x.week != sel.week
    ensures forall kind, t, ascending :: Pick([x] + rows, sel, kind, t, ascending) == Pick(rows, sel, kind, t, ascending)
    ensures OpeningsNonzero([x] + rows, sel) <==> OpeningsNonzero(rows, sel)
  {
    assert ([x] + rows)[1..] == rows;
  }

  /**
   * Worked example: a zero opening price that ROW_NUMBER() does not number 1 is
   * never divided by, so the table is accepted.
   */
  lemma ZeroLaterOpeningAccepted(sel: Selector, rows: seq<StockRow>)
    requires rows == [StockRow("A", 0.0, "2", "opening", sel.year, sel.month, sel.week),
                      StockRow("A", 5.0, "1", "opening", sel.year, sel.month, sel.week),
                      StockRow("A", 6.0, "3", "closing", sel.year, sel.month, sel.week)]
    ensures OpeningsNonzero(rows, sel)
  {
    assert StrLe("1", "2") && !StrLe("2", "1");
    forall t | Pick(rows, sel, "opening", t, true).Some?
      ensures Pick(rows, sel, "opening", t, true).value.price == 5.0
    {
      PickTicker(rows, sel, "opening", t, true);
      assert Pick(rows[2..], sel, "opening", t, true) == None;
      assert Pick(rows[1..], sel, "opening", t, true) == Some(rows[1]);
    }
  }

  /** The distinct tickers of the table. */
  function Tickers(rows: seq<StockRow>): (ts: seq<string>)
    ensures forall t :: t in ts <==> exists r | r in rows :: r.ticker == t
    ensures forall i, j | 0 <= i < j < |ts| :: ts[i] != ts[j]
  {
    if rows == [] then []
    else
      var rest := Tickers(rows[1..]);
      assert forall r | r in rows[1..] :: r in rows;
      if rows[0].ticker in rest then rest else [rows[0].ticker] + rest
  }

  /** The join over the tickers in ts: one row per ticker that has both an opening and a closing pick. */
  function JoinOver(ts: seq<string>, rows: seq<StockRow>, sel: Selector, round2: real -> real): seq<Change>
    requires OpeningsNonzero(rows, sel)
  {
    if ts == [] then []
    else
      var rest := JoinOver(ts[1..], rows, sel, round2);
      var o, c := Pick(rows, sel, "opening", ts[0], true), Pick(rows, sel, "closing", ts[0], false);
      if o.Some? && c.Some? then
        [ChangeOf(o.value, c.value, round2)] + rest
      else rest
  }

  /** opening_prices JOIN closing_prices ON ticker WHERE o.rn = 1 AND c.rn = 1. */
  function Joined(rows: seq<StockRow>, sel: Selector, round2: real -> real): seq<Change>
    requires OpeningsNonzero(rows, sel)
  {
    JoinOver(Tickers(rows), rows, sel, round2)
  }

  /** A joined row of ticker t exists exactly when t has both opening and closing rows in the selection. */
  predicate Traded(rows: seq<StockRow>, sel: Selector, t: string)
  {
    (exists o | o in rows :: Candidate(o, sel, "opening", t))
    && (exists c | c in rows :: Candidate(c, sel, "closing", t))
  }

  /** Each joined row pairs an extremal opening row and an extremal closing row of its ticker. */
  ghost predicate FromPicks(rows: seq<StockRow>, sel: Selector, round2: real -> real, ch: Change)
  {
    exists o, c | IsPick(rows, sel, "opening", ch.ticker, true, o) && IsPick(rows, sel, "closing", ch.ticker, false, c) ::
      o.price != 0.0 && ch == ChangeOf(o, c, round2)
  }

  /** Each joined row belongs to one of the tickers joined over. */
  lemma {:induction false} JoinOverTickers(ts: seq<string>, rows: seq<StockRow>, sel: Selector, round2: real -> real)
    requires OpeningsNonzero(rows, sel)
    ensures forall ch | ch in JoinOver(ts, rows, sel, round2) :: ch.ticker in ts
  {
    if ts != [] {
      JoinOverTickers(ts[1..], rows, sel, round2);
      PickTicker(rows, sel, "opening", ts[0], true);
    }
  }

  lemma {:induction false} JoinOverPicks(ts: seq<string>, rows: seq<StockRow>, sel: Selector, round2: real -> real)
    requires OpeningsNonzero(rows, sel)
    ensures forall ch | ch in JoinOver(ts, rows, sel, round2) :: FromPicks(rows, sel, round2, ch)
  {
    if ts != [] {
      JoinOverPicks(ts[1..], rows, sel, round2);
      var t := ts[0];
      var o, c := Pick(rows, sel, "opening", t, true), Pick(rows, sel, "closing", t, false);
      if o.Some? && c.Some? {
        PickIsExtremal(rows, sel, "opening", t, true);
        PickIsExtremal(rows, sel, "closing", t, false);
        assert FromPicks(rows, sel, round2, ChangeOf(o.value, c.value, round2));
      }
    }
  }

  lemma {:induction false} JoinOverComplete(ts: seq<string>, rows: seq<StockRow>, sel: Selector, round2: real -> real, t: string)
    requires OpeningsNonzero(rows, sel)
    requires t in ts && Traded(rows, sel, t)
    ensures exists ch | ch in JoinOver(ts, rows, sel, round2) :: ch.ticker == t
  {
    if ts[0] == t {
      PickIsExtremal(rows, sel, "opening", t, true);
      PickIsExtremal(rows, sel, "closing", t, false);
      var o, c := Pick(rows, sel, "opening", t, true), Pick(rows, sel, "closing", t, false);
      assert JoinOver(ts, rows, sel, round2)[0] == ChangeOf(o.value, c.value, round2);
    } else {
      JoinOverComplete(ts[1..], rows, sel, round2, t);
    }
  }

  /** A picked row belongs to the ticker it was picked for. */
  lemma {:induction false} PickTicker(rows: seq<StockRow>, sel: Selector, kind: string, t: string, ascending: bool)
    ensures Pick(rows, sel, kind, t, ascending).Some? ==> Pick(rows, sel, kind, t, ascending).value.ticker == t
  {
    if rows != [] {
      PickTicker(rows[1..], sel, kind, t, ascending);
    }
  }

  /** The first joined row over ts, when there is one for ts[0], and the rows for the rest. */
  lemma JoinOverHead(ts: seq<string>, rows: seq<StockRow>, sel: Selector, round2: real -> real)
    requires OpeningsNonzero(rows, sel) && ts != []
    ensures var js, rest := JoinOver(ts, rows, sel, round2), JoinOver(ts[1..], rows, sel, round2);
      js == rest || (|js| == |rest| + 1 && js[0].ticker == ts[0] && js[1..] == rest)
  {
    PickTicker(rows, sel, "opening", ts[0], true);
  }

  lemma {:induction false} JoinOverUnique(ts: seq<string>, rows: seq<StockRow>, sel: Selector, round2: real -> real)
    requires OpeningsNonzero(rows, sel)
    requires forall i, j | 0 <= i < j < |ts| :: ts[i] != ts[j]
    ensures forall i, j | 0 <= i < j < |JoinOver(ts, rows, sel, round2)| ::
      JoinOver(ts, rows, sel, round2)[i].ticker != JoinOver(ts, rows, sel, round2)[j].ticker
  {
    if ts != [] {
      var js, rest := JoinOver(ts, rows, sel, round2), JoinOver(ts[1..], rows, sel, round2);
      JoinOverUnique(ts[1..], rows, sel, round2);
      JoinOverHead(ts, rows, sel, round2);
      if js != rest {
        JoinOverTickers(ts[1..], rows, sel, round2);
        assert ts[0] !in ts[1..] by {
          assert forall j | 0 <= j < |ts| - 1 :: ts[1..][j] == ts[j + 1];
        }
        forall i, j | 0 <= i < j < |js|
          ensures js[i].ticker != js[j].ticker
        {
          assert js[j] == rest[j - 1] && js[j] in rest;
          if i > 0 {
            assert js[i] == rest[i - 1];
          }
        }
      }
    }
  }

  /** Every joined row pairs extremal opening and closing rows of its ticker, so the ticker traded. */
  lemma JoinedFromPicks(rows: seq<StockRow>, sel: Selector, round2: real -> real, ch: Change)
    requires OpeningsNonzero(rows, sel) && ch in Joined(rows, sel, round2)
    ensures FromPicks(rows, sel, round2, ch) && Traded(rows, sel, ch.ticker)
  {
    JoinOverPicks(Tickers(rows), rows, sel, round2);
  }

  /** The join is inner and complete: every ticker with both an opening and a closing row is joined. */
  lemma JoinedComplete(rows: seq<StockRow>, sel: Selector, round2: real -> real, t: string)
    requires OpeningsNonzero(rows, sel) && Traded(rows, sel, t)
    ensures exists ch | ch in Joined(rows, sel, round2) :: ch.ticker == t
  {
    var o :| o in rows && Candidate(o, sel, "opening", t);
    assert t in Tickers(rows);
    JoinOverComplete(Tickers(rows), rows, sel, round2, t);
  }

  /** No ticker is joined twice. */
  lemma JoinedUnique(rows: seq<StockRow>, sel: Selector, round2: real -> real)
    requires OpeningsNonzero(rows, sel)
    ensures var js := Joined(rows, sel, round2);
      forall i, j | 0 <= i < j < |js| :: js[i].ticker != js[j].ticker
  {
    assert Joined(rows, sel, round2) == JoinOver(Tickers(rows), rows, sel, round2);
    JoinOverUnique(Tickers(rows), rows, sel, round2);
  }

  // Filtering, ordering and the limit.

  /** The WHERE condition on the unrounded ratio: > 0 for gains, < 0 for losses. */
  predicate Qualifies(ch: Change, gain: bool)
  {
    if gain then ch.ratio > 0.0 else ch.ratio < 0.0
  }

  function Filter(js: seq<Change>, gain: bool): (r: seq<Change>)
    ensures forall ch :: ch in r <==> ch in js && Qualifies(ch, gain)
    ensures |r| <= |js|
  {
    if js == [] then []
    else
      var rest := Filter(js[1..], gain);
      assert forall ch | ch in js[1..] :: ch in js;
      if Qualifies(js[0], gain) then [js[0]] + rest else rest
  }

  /** ORDER BY the reported value: descending for gains, ascending for losses. */
  predicate Precedes(a: Change, b: Change, desc: bool)
  {
    if desc then a.reported >= b.reported else a.reported <= b.reported
  }

  predicate Sorted(xs: seq<Change>, desc: bool)
  {
    forall i, j | 0 <= i < j < |xs| :: Precedes(xs[i], xs[j], desc)
  }

  function Insert(x: Change, xs: seq<Change>, desc: bool): seq<Change>
  {
    if xs == [] then [x]
    else if Precedes(x, xs[0], desc) then [x] + xs
    else [xs[0]] + Insert(x, xs[1..], desc)
  }

  function Sort(xs: seq<Change>, desc: bool): seq<Change>
  {
    if xs == [] then [] else Insert(xs[0], Sort(xs[1..], desc), desc)
  }

  lemma {:induction false} InsertPermutes(x: Change, xs: seq<Change>, desc: bool)
    ensures multiset(Insert(x, xs, desc)) == multiset(xs) + multiset{x}
  {
    if xs != [] && !Precedes(x, xs[0], desc) {
      InsertPermutes(x, xs[1..], desc);
      assert xs == [xs[0]] + xs[1..];
    }
  }

  /** A bound on every entry and on the inserted one bounds the result. */
  lemma {:induction false} InsertBound(b: Change, x: Change, xs: seq<Change>, desc: bool)
    requires Precedes(b, x, desc)
    requires forall i | 0 <= i < |xs| :: Precedes(b, xs[i], desc)
    ensures forall i | 0 <= i < |Insert(x, xs, desc)| :: Precedes(b, Insert(x, xs, desc)[i], desc)
  {
    var ys := Insert(x, xs, desc);
    if xs == [] {
    } else if Precedes(x, xs[0], desc) {
      assert forall i | 1 <= i < |ys| :: ys[i] == xs[i - 1];
    } else {
      assert forall i | 0 <= i < |xs[1..]| :: xs[1..][i] == xs[i + 1];
      InsertBound(b, x, xs[1..], desc);
      assert forall i | 1 <= i < |ys| :: ys[i] == Insert(x, xs[1..], desc)[i - 1];
    }
  }

  /** Putting a bound in front of a sorted list keeps it sorted. */
  lemma SortedCons(h: Change, rest: seq<Change>, desc: bool)
    requires Sorted(rest, desc) && forall i | 0 <= i < |rest| :: Precedes(h, rest[i], desc)
    ensures Sorted([h] + rest, desc)
  {
    var ys := [h] + rest;
    forall i, j | 0 <= i < j < |ys|
      ensures Precedes(ys[i], ys[j], desc)
    {
      assert ys[j] == rest[j - 1];
      if i > 0 {
        assert ys[i] == rest[i - 1];
      }
    }
  }

  lemma {:induction false} InsertSorted(x: Change, xs: seq<Change>, desc: bool)
    requires Sorted(xs, desc)
    ensures Sorted(Insert(x, xs, desc), desc)
  {
    if xs == [] {
    } else if Precedes(x, xs[0], desc) {
      forall i | 0 <= i < |xs|
        ensures Precedes(x, xs[i], desc)
      {
        assert i == 0 || Precedes(xs[0], xs[i], desc);
      }
      SortedCons(x, xs, desc);
    } else {
      InsertSorted(x, xs[1..], desc);
      assert Precedes(xs[0], x, desc);
      forall i | 0 <= i < |xs[1..]|
        ensures Precedes(xs[0], xs[1..][i], desc)
      {
        assert xs[1..][i] == xs[i + 1];
      }
      InsertBound(xs[0], x, xs[1..], desc);
      SortedCons(xs[0], Insert(x, xs[1..], desc), desc);
    }
  }

  /** The ordering is a sorted permutation of its input. */
  lemma {:induction false} SortSpec(xs: seq<Change>, desc: bool)
    ensures Sorted(Sort(xs, desc), desc)
    ensures multiset(Sort(xs, desc)) == multiset(xs)
  {
    if xs != [] {
      SortSpec(xs[1..], desc);
      InsertSorted(xs[0], Sort(xs[1..], desc), desc);
      InsertPermutes(xs[0], Sort(xs[1..], desc), desc);
      assert xs == [xs[0]] + xs[1..];
    }
  }

  const LIMIT := 5

  /** LIMIT 5. */
  function Limit(xs: seq<Change>): (r: seq<Change>)
    ensures |r| == if |xs| < LIMIT then |xs| else LIMIT
    ensures r == xs[..|r|]
  {
    if |xs| < LIMIT then xs else xs[..LIMIT]
  }

  /** The result of the gain query (gain = true) or of the loss query (gain = false). */
  function Ranked(rows: seq<StockRow>, sel: Selector, round2: real -> real, gain: bool): seq<Change>
    requires OpeningsNonzero(rows, sel)
  {
    Limit(Sort(Filter(Joined(rows, sel, round2), gain), gain))
  }

  /**
   * Cutting a sorted list after five keeps a sorted sub-multiset whose entries
   * rank at least as high as every entry cut.
   */
  lemma LimitOfSorted(s: seq<Change>, desc: bool)
    requires Sorted(s, desc)
    ensures var r := Limit(s);
      && Sorted(r, desc)
      && multiset(r) <= multiset(s)
      && forall x | x in multiset(s) - multiset(r) :: forall y | y in r :: Precedes(y, x, desc)
  {
    var r := Limit(s);
    var k := |r|;
    assert s == r + s[k..];
    assert multiset(s) == multiset(r) + multiset(s[k..]);
    forall x | x in multiset(s) - multiset(r)
      ensures forall y | y in r :: Precedes(y, x, desc)
    {
      assert x in s[k..];
      var j :| 0 <= j < |s[k..]| && s[k..][j] == x;
      assert s[k + j] == x;
    }
  }

  /**
   * A query result is at most five joined rows that pass its WHERE condition,
   * in ORDER BY order; every qualifying row left out is ranked no higher than
   * any row kept, and when fewer than five qualify all of them are kept.
   */
  lemma RankedSpec(rows: seq<StockRow>, sel: Selector, round2: real -> real, gain: bool)
    requires OpeningsNonzero(rows, sel)
    ensures var qs, r := Filter(Joined(rows, sel, round2), gain), Ranked(rows, sel, round2, gain);
      && |r| == (if |qs| < LIMIT then |qs| else LIMIT)
      && Sorted(r, gain)
      && multiset(r) <= multiset(qs)
      && (forall x | x in multiset(qs) - multiset(r) :: forall y | y in r :: Precedes(y, x, gain))
  {
    var qs := Filter(Joined(rows, sel, round2), gain);
    var s := Sort(qs, gain);
    SortSpec(qs, gain);
    LimitOfSorted(s, gain);
    assert |s| == |multiset(s)| == |multiset(qs)| == |qs|;
  }

  /** Every row of a query result is a joined row that passes the query's WHERE condition. */
  lemma RankedMembers(rows: seq<StockRow>, sel: Selector, round2: real -> real, gain: bool, ch: Change)
    requires OpeningsNonzero(rows, sel) && ch in Ranked(rows, sel, round2, gain)
    ensures ch in Joined(rows, sel, round2) && Qualifies(ch, gain)
  {
    var qs := Filter(Joined(rows, sel, round2), gain);
    SortSpec(qs, gain);
    assert ch in Sort(qs, gain);
    assert ch in multiset(Sort(qs, gain));
  }

  /** The two results never share a ticker, and a ticker whose price did not move is in neither. */
  lemma RankedDisjoint(rows: seq<StockRow>, sel: Selector, round2: real -> real)
    requires OpeningsNonzero(rows, sel)
    ensures forall x, y | x in Ranked(rows, sel, round2, true) && y in Ranked(rows, sel, round2, false) :: x.ticker != y.ticker
    ensures forall ch | ch in Joined(rows, sel, round2) && ch.ratio == 0.0 ::
      forall x | x in Ranked(rows, sel, round2, true) || x in Ranked(rows, sel, round2, false) :: x.ticker != ch.ticker
  {
    var js := Joined(rows, sel, round2);
    JoinedUnique(rows, sel, round2);
    forall x, y | x in js && y in js && x.ticker == y.ticker
      ensures x == y
    {
      var i :| 0 <= i < |js| && js[i] == x;
      var j :| 0 <= j < |js| && js[j] == y;
    }
    forall x | x in Ranked(rows, sel, round2, true)
      ensures x in js && x.ratio > 0.0
    {
      RankedMembers(rows, sel, round2, true, x);
    }
    forall x | x in Ranked(rows, sel, round2, false)
      ensures x in js && x.ratio < 0.0
    {
      RankedMembers(rows, sel, round2, false, x);
    }
  }

  /** A joined row with a positive ratio always qualifies, even one that rounds to 0.00. */
  lemma GainKeptBeforeRounding(rows: seq<StockRow>, sel: Selector, round2: real -> real, ch: Change)
    requires OpeningsNonzero(rows, sel)
    requires ch in Joined(rows, sel, round2) && ch.ratio > 0.0
    ensures ch in Filter(Joined(rows, sel, round2), true)
  {
  }

  /** The pair of results the handler's two queries produce for the local date. */
  datatype Report = Report(selector: Selector, gains: seq<Change>, losses: seq<Change>)

  /** lambda_handler with the queries run: both use the same selector, which is also returned. */
  function WeeklyReport(rows: seq<StockRow>, local: Date, round2: real -> real): (rep: Report)
    requires ValidDate(local) && OpeningsNonzero(rows, SelectorOf(local))
    ensures rep.selector == SelectorOf(local)
  {
    var sel := SelectorOf(local);
    Report(sel, Ranked(rows, sel, round2, true), Ranked(rows, sel, round2, false))
  }

  /** Only rows of the selected year, calendar month and ISO week contribute to the report. */
  lemma WeeklyReportRows(rows: seq<StockRow>, local: Date, round2: real -> real, ch: Change)
    requires ValidDate(local) && OpeningsNonzero(rows, SelectorOf(local))
    requires ch in WeeklyReport(rows, local, round2).gains || ch in WeeklyReport(rows, local, round2).losses
    ensures exists o, c | o in rows && c in rows ::
      && o.ticker == c.ticker == ch.ticker && o.priceType == "opening" && c.priceType == "closing"
      && o.year == c.year == local.year && o.month == c.month == local.month
      && o.week == c.week == IsoWeek(local)
      && ch.opening == o.price && ch.closing == c.price
  {
    var sel := SelectorOf(local);
    RankedMembers(rows, sel, round2, ch in WeeklyReport(rows, local, round2).gains, ch);
    JoinedFromPicks(rows, sel, round2, ch);
    var o, c :| IsPick(rows, sel, "opening", ch.ticker, true, o) && IsPick(rows, sel, "closing", ch.ticker, false, c)
      && o.price != 0.0 && ch == ChangeOf(o, c, round2);
  }
}
