/** What the portfolio screens compute over the list of holdings: the value
    of a holding, the balance of a list, and the sub-lists the tables and
    charts filter out of it (components/PortfolioDashboard.tsx,
    components/DashboardAnalytics.tsx). */
module Holdings {
  import opened Wrappers
  import opened Types

  /** `item.currentPrice * item.quantity`: what a holding is worth today. */
  function Value(item: PortfolioItem): real {
    item.currentPrice * item.quantity
  }

  lemma ValueNonNegative(item: PortfolioItem)
    requires item.currentPrice >= 0.0 && item.quantity >= 0.0
    ensures Value(item) >= 0.0
  {
    assert item.currentPrice * item.quantity >= 0.0;
  }

  /** A dividend yield counts when it is present and not 0 (`!item.dy` rules
      out the rest). */
  predicate HasYield(dy: Option<real>) {
    dy.Some? && dy.value != 0.0
  }

  /** `portfolio.reduce((acc, item) => acc + item.currentPrice * item.quantity, 0)`,
      folded from the left as `reduce` does. */
  function TotalBalance(p: seq<PortfolioItem>): (r: real)
    ensures |p| == 1 ==> r == Value(p[0])
  {
    if p == [] then 0.0 else TotalBalance(p[..|p| - 1]) + Value(p[|p| - 1])
  }

  /** Appending one holding adds its value. */
  lemma TotalBalanceSnoc(p: seq<PortfolioItem>, x: PortfolioItem)
    ensures TotalBalance(p + [x]) == TotalBalance(p) + Value(x)
  {
    assert (p + [x])[..|p|] == p;
  }

  /** The balance of two lists laid end to end is the sum of their balances. */
  lemma {:induction false} TotalBalanceAppend(p: seq<PortfolioItem>, q: seq<PortfolioItem>)
    ensures TotalBalance(p + q) == TotalBalance(p) + TotalBalance(q)
    decreases |q|
  {
    if q != [] {
      var init, last := q[..|q| - 1], q[|q| - 1];
      assert q == init + [last];
      assert p + q == (p + init) + [last];
      TotalBalanceAppend(p, init);
      TotalBalanceSnoc(p + init, last);
      TotalBalanceSnoc(init, last);
    } else {
      assert p + q == p;
    }
  }

  /** Holdings with non-negative prices and quantities have a non-negative balance. */
  lemma {:induction false} TotalBalanceNonNegative(p: seq<PortfolioItem>)
    requires forall i :: 0 <= i < |p| ==> p[i].currentPrice >= 0.0 && p[i].quantity >= 0.0
    ensures TotalBalance(p) >= 0.0
    decreases |p|
  {
    if p != [] {
      TotalBalanceNonNegative(p[..|p| - 1]);
      ValueNonNegative(p[|p| - 1]);
    }
  }

  /** `list.filter(keep)`, built the way the list is folded. */
  function Filter(p: seq<PortfolioItem>, keep: PortfolioItem -> bool): (r: seq<PortfolioItem>)
    ensures |r| <= |p|
    ensures forall x :: x in r <==> x in p && keep(x)
  {
    if p == [] then []
    else
      var init, last := p[..|p| - 1], p[|p| - 1];
      assert p == init + [last];
      var kept := Filter(init, keep);
      if keep(last) then kept + [last] else kept
  }

  lemma FilterSnoc(p: seq<PortfolioItem>, x: PortfolioItem, keep: PortfolioItem -> bool)
    ensures Filter(p + [x], keep) == if keep(x) then Filter(p, keep) + [x] else Filter(p, keep)
  {
    assert (p + [x])[..|p|] == p;
  }

  /** Filtering works piece by piece, so what it keeps stays in its order. */
  lemma {:induction false} FilterAppend(p: seq<PortfolioItem>, q: seq<PortfolioItem>, keep: PortfolioItem -> bool)
    ensures Filter(p + q, keep) == Filter(p, keep) + Filter(q, keep)
    decreases |q|
  {
    if q != [] {
      var init, last := q[..|q| - 1], q[|q| - 1];
      assert q == init + [last];
      assert p + q == (p + init) + [last];
      FilterAppend(p, init, keep);
      FilterSnoc(p + init, last, keep);
      FilterSnoc(init, last, keep);
      if keep(last) {
        assert (Filter(p, keep) + Filter(init, keep)) + [last] == Filter(p, keep) + (Filter(init, keep) + [last]);
      }
    } else {
      assert p + q == p;
    }
  }

  /** Filtering twice by the same test changes nothing more. */
  lemma {:induction false} FilterIdempotent(p: seq<PortfolioItem>, keep: PortfolioItem -> bool)
    ensures Filter(Filter(p, keep), keep) == Filter(p, keep)
    decreases |p|
  {
    if p != [] {
      var init, last := p[..|p| - 1], p[|p| - 1];
      FilterIdempotent(init, keep);
      if keep(last) {
        FilterSnoc(Filter(init, keep), last, keep);
      }
    }
  }

  /** A list none of whose holdings the test rejects is its own filtering. */
  lemma {:induction false} FilterKeepsAll(p: seq<PortfolioItem>, keep: PortfolioItem -> bool)
    requires forall i :: 0 <= i < |p| ==> keep(p[i])
    ensures Filter(p, keep) == p
    decreases |p|
  {
    if p != [] {
      var init := p[..|p| - 1];
      assert p == init + [p[|p| - 1]];
      FilterKeepsAll(init, keep);
    }
  }

  /** A list whose every holding the test rejects filters to nothing. */
  lemma {:induction false} FilterKeepsNone(p: seq<PortfolioItem>, keep: PortfolioItem -> bool)
    requires forall i :: 0 <= i < |p| ==> !keep(p[i])
    ensures Filter(p, keep) == []
    decreases |p|
  {
    if p != [] {
      FilterKeepsNone(p[..|p| - 1], keep);
    }
  }

  /** The opposite test. */
  function Not(keep: PortfolioItem -> bool): (r: PortfolioItem -> bool)
    ensures forall x :: r(x) == !keep(x)
  {
    (x: PortfolioItem) => !keep(x)
  }

  /** A test and its opposite split the balance between them. */
  lemma {:induction false} PartitionTotal(p: seq<PortfolioItem>, keep: PortfolioItem -> bool)
    ensures TotalBalance(Filter(p, keep)) + TotalBalance(Filter(p, Not(keep))) == TotalBalance(p)
    decreases |p|
  {
    if p != [] {
      var init, last := p[..|p| - 1], p[|p| - 1];
      PartitionTotal(init, keep);
      if keep(last) {
        TotalBalanceSnoc(Filter(init, keep), last);
      } else {
        TotalBalanceSnoc(Filter(init, Not(keep)), last);
      }
    }
  }

  /** `p.category === category`. */
  function InCategory(category: AssetCategory): (r: PortfolioItem -> bool)
    ensures forall x :: r(x) <==> x.category == category
  {
    (x: PortfolioItem) => x.category == category
  }

  /** The rows of the table of one category and their subtotal
      (`portfolio.filter(p => p.category === category)`). */
  function CategoryItems(p: seq<PortfolioItem>, category: AssetCategory): (r: seq<PortfolioItem>)
    ensures forall x :: x in r <==> x in p && x.category == category
  {
    Filter(p, InCategory(category))
  }

  function CategoryTotal(p: seq<PortfolioItem>, category: AssetCategory): real {
    TotalBalance(CategoryItems(p, category))
  }

  lemma CategoryTotalSnoc(p: seq<PortfolioItem>, x: PortfolioItem, category: AssetCategory)
    ensures CategoryTotal(p + [x], category)
              == CategoryTotal(p, category) + (if x.category == category then Value(x) else 0.0)
  {
    FilterSnoc(p, x, InCategory(category));
    if x.category == category {
      TotalBalanceSnoc(CategoryItems(p, category), x);
    }
  }

  /** The four category tables share out the whole balance: every holding
      sits in exactly one of them. */
  lemma {:induction false} CategoryTotalsSum(p: seq<PortfolioItem>)
    ensures CategoryTotal(p, Fii) + CategoryTotal(p, Acao) + CategoryTotal(p, Etf) + CategoryTotal(p, Bdr)
              == TotalBalance(p)
    decreases |p|
  {
    if p != [] {
      var init, last := p[..|p| - 1], p[|p| - 1];
      assert p == init + [last];
      CategoryTotalsSum(init);
      CategoryTotalSnoc(init, last, Fii);
      CategoryTotalSnoc(init, last, Acao);
      CategoryTotalSnoc(init, last, Etf);
      CategoryTotalSnoc(init, last, Bdr);
    }
  }
}
