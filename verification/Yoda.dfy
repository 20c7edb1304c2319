/**
 The two loaders of the bookshop reports: the one for the top-N reports counts the sales of every
 book and the visits of every customer, the one for discounts sums up what every customer spent.
 Prices are exact.
 */
module Yoda {
  import opened Flattening
  import Streaming = TopTransactions

  type Prices = map<string, real>

  // A line of the transactions file: a customer and the books in the basket.
  datatype Transaction = Transaction(customer: string, books: seq<string>)

  // ---------- what the tables should hold ----------

  predicate AllPriced(prices: Prices, books: seq<string>) {
    forall b | b in books :: b in prices
  }

  predicate Coherent(prices: Prices, ts: seq<Transaction>) {
    forall t | t in ts :: AllPriced(prices, t.books)
  }

  function PriceOf(prices: Prices, book: string): real {
    if book in prices then prices[book] else 0.0
  }

  function Total(prices: Prices, books: seq<string>): real {
    if books == [] then 0.0 else Total(prices, books[..|books| - 1]) + PriceOf(prices, books[|books| - 1])
  }

  function SpentBy(prices: Prices, ts: seq<Transaction>, c: string): real {
    if ts == [] then 0.0
    else
      var t := ts[|ts| - 1];
      SpentBy(prices, ts[..|ts| - 1], c) + if t.customer == c then Total(prices, t.books) else 0.0
  }

  function Visits(ts: seq<Transaction>, c: string): nat {
    if ts == [] then 0 else Visits(ts[..|ts| - 1], c) + if ts[|ts| - 1].customer == c then 1 else 0
  }

  function Customers(ts: seq<Transaction>): set<string> {
    set t | t in ts :: t.customer
  }

  // How often a book is in all baskets together.
  function Sold(ts: seq<Transaction>, book: string): nat {
    if ts == [] then 0 else Sold(ts[..|ts| - 1], book) + multiset(ts[|ts| - 1].books)[book]
  }

  function Additions(prices: Prices, ts: seq<Transaction>): seq<Streaming.Addition> {
    seq(|ts|, i requires 0 <= i < |ts| => (ts[i].customer, Total(prices, ts[i].books)))
  }

  function Turnover(prices: Prices, ts: seq<Transaction>): real {
    if ts == [] then 0.0 else Turnover(prices, ts[..|ts| - 1]) + Total(prices, ts[|ts| - 1].books)
  }

  // ---------- sums over keys ----------

  ghost function Sum(s: set<string>, f: string -> real): real {
    if s == {} then 0.0 else var x :| x in s; f(x) + Sum(s - {x}, f)
  }

  lemma {:induction false} SumPick(s: set<string>, f: string -> real, x: string)
    requires x in s
    ensures Sum(s, f) == f(x) + Sum(s - {x}, f)
  {
    var y :| y in s && Sum(s, f) == f(y) + Sum(s - {y}, f);
    if y != x {
      SumPick(s - {y}, f, x);
      SumPick(s - {x}, f, y);
      assert s - {y} - {x} == s - {x} - {y};
    }
  }

  lemma {:induction false} SumSame(s: set<string>, f: string -> real, g: string -> real)
    requires forall x | x in s :: f(x) == g(x)
    ensures Sum(s, f) == Sum(s, g)
  {
    if s != {} {
      var x :| x in s;
      SumPick(s, f, x);
      SumPick(s, g, x);
      SumSame(s - {x}, f, g);
    }
  }

  // The sum follows a change of one value.
  lemma SumChange(s: set<string>, f: string -> real, g: string -> real, x: string)
    requires x in s && forall y | y in s && y != x :: f(y) == g(y)
    ensures Sum(s, g) == Sum(s, f) - f(x) + g(x)
  {
    SumPick(s, f, x);
    SumPick(s, g, x);
    SumSame(s - {x}, f, g);
  }

  lemma {:induction false} SumZero(s: set<string>, f: string -> real)
    requires forall x | x in s :: f(x) == 0.0
    ensures Sum(s, f) == 0.0
  {
    if s != {} {
      var x :| x in s;
      SumPick(s, f, x);
      SumZero(s - {x}, f);
    }
  }

  // ---------- double counting ----------

  // What the customers spent is the turnover,
  lemma {:induction false} SpentIsTurnover(prices: Prices, ts: seq<Transaction>, s: set<string>)
    requires Customers(ts) <= s
    ensures Sum(s, c => SpentBy(prices, ts, c)) == Turnover(prices, ts)
  {
    if ts == [] {
      SumZero(s, c => SpentBy(prices, ts, c));
    } else {
      var init, t := ts[..|ts| - 1], ts[|ts| - 1];
      assert t in ts;
      SpentIsTurnover(prices, init, s);
      SumChange(s, c => SpentBy(prices, init, c), c => SpentBy(prices, ts, c), t.customer);
    }
  }

  // and so is the price of each book times the number sold.
  lemma {:induction false} SalesAreTurnover(prices: Prices, ts: seq<Transaction>)
    requires Coherent(prices, ts)
    ensures Sum(prices.Keys, b => PriceOf(prices, b) * Sold(ts, b) as real) == Turnover(prices, ts)
  {
    if ts == [] {
      NothingSold(prices);
    } else {
      var init, t := ts[..|ts| - 1], ts[|ts| - 1];
      assert ts == init + [t];
      assert t in ts && Coherent(prices, init) && Turnover(prices, ts) == Turnover(prices, init) + Total(prices, t.books);
      hide Sum, Turnover, Sold, PriceOf, Total;
      SalesAreTurnover(prices, init);
      SalesOneMore(prices, init, t);
    }
  }

  lemma NothingSold(prices: Prices)
    ensures Sum(prices.Keys, b => PriceOf(prices, b) * Sold([], b) as real) == 0.0
  {
    SumZero(prices.Keys, b => PriceOf(prices, b) * Sold([], b) as real);
  }

  lemma SalesOneMore(prices: Prices, ts: seq<Transaction>, t: Transaction)
    requires AllPriced(prices, t.books)
    ensures Sum(prices.Keys, b => PriceOf(prices, b) * Sold(ts + [t], b) as real)
      == Sum(prices.Keys, b => PriceOf(prices, b) * Sold(ts, b) as real) + Total(prices, t.books)
  {
    hide Sum, Sold, PriceOf, Total, Worth;
    BasketSales(prices, ts, t.books);
    forall b
      ensures Worth(prices, ts, t.books, b) == PriceOf(prices, b) * Sold(ts + [t], b) as real
    {
      WorthIsSold(prices, ts, t, b);
    }
    SumSame(prices.Keys, b => Worth(prices, ts, t.books, b), b => PriceOf(prices, b) * Sold(ts + [t], b) as real);
  }

  lemma WorthIsSold(prices: Prices, ts: seq<Transaction>, t: Transaction, b: string)
    ensures Worth(prices, ts, t.books, b) == PriceOf(prices, b) * Sold(ts + [t], b) as real
  {
    assert (ts + [t])[..|ts|] == ts;
    assert Sold(ts + [t], b) == Sold(ts, b) + multiset(t.books)[b];
  }

  // What the copies of b are worth that are sold in ts and in one more basket.
  function Worth(prices: Prices, ts: seq<Transaction>, books: seq<string>, b: string): real {
    PriceOf(prices, b) * (Sold(ts, b) + multiset(books)[b]) as real
  }

  lemma PriceOfOneMore(p: real, n: nat)
    ensures p * (n + 1) as real == p * n as real + p
  {
    assert (n + 1) as real == n as real + 1.0;
  }

  lemma WorthOneMore(prices: Prices, ts: seq<Transaction>, books: seq<string>, book: string, b: string)
    ensures Worth(prices, ts, books + [book], b)
      == Worth(prices, ts, books, b) + if b == book then PriceOf(prices, b) else 0.0
  {
    hide Sold, PriceOf;
    assert multiset(books + [book])[b] == multiset(books)[b] + if b == book then 1 else 0;
    PriceOfOneMore(PriceOf(prices, b), Sold(ts, b) + multiset(books)[b]);
  }

  lemma {:induction false} BasketSales(prices: Prices, ts: seq<Transaction>, books: seq<string>)
    requires AllPriced(prices, books)
    ensures Sum(prices.Keys, b => Worth(prices, ts, books, b))
      == Sum(prices.Keys, b => PriceOf(prices, b) * Sold(ts, b) as real) + Total(prices, books)
  {
    if books == [] {
      SumSame(prices.Keys, b => Worth(prices, ts, books, b), b => PriceOf(prices, b) * Sold(ts, b) as real);
    } else {
      var init, book := books[..|books| - 1], books[|books| - 1];
      assert books == init + [book] && book in books;
      assert Total(prices, books) == Total(prices, init) + PriceOf(prices, book);
      hide Worth, Sum, Total, PriceOf, Sold;
      BasketSales(prices, ts, init);
      forall b {
        WorthOneMore(prices, ts, init, book, b);
      }
      SumChange(prices.Keys, b => Worth(prices, ts, init, b), b => Worth(prices, ts, books, b), book);
    }
  }

  lemma {:induction false} VisitsAreTransactions(ts: seq<Transaction>, s: set<string>)
    requires Customers(ts) <= s
    ensures Sum(s, c => Visits(ts, c) as real) == |ts| as real
  {
    if ts == [] {
      SumZero(s, c => Visits(ts, c) as real);
    } else {
      var init, t := ts[..|ts| - 1], ts[|ts| - 1];
      assert t in ts;
      VisitsAreTransactions(init, s);
      SumChange(s, c => Visits(init, c) as real, c => Visits(ts, c) as real, t.customer);
    }
  }

  // ---------- the tables spelled out ----------

  // A book is sold as often as it stands in the baskets.
  lemma {:induction false} SoldPlainly(ts: seq<Transaction>, book: string)
    ensures Sold(ts, book) == multiset(Flat(ts, (t: Transaction) => t.books))[book]
  {
    if ts != [] {
      var front, t := ts[..|ts| - 1], ts[|ts| - 1];
      SoldPlainly(front, book);
      assert Flat(ts, (t: Transaction) => t.books) == Flat(front, (t: Transaction) => t.books) + t.books;
    }
  }

  // A customer has as many visits as transactions.
  lemma {:induction false} VisitsPlainly(ts: seq<Transaction>, c: string)
    ensures Visits(ts, c) == multiset(Flat(ts, (t: Transaction) => [t.customer]))[c]
  {
    if ts != [] {
      var front, t := ts[..|ts| - 1], ts[|ts| - 1];
      VisitsPlainly(front, c);
      assert Flat(ts, (t: Transaction) => [t.customer]) == Flat(front, (t: Transaction) => [t.customer]) + [t.customer];
    }
  }

  function OwnedBy(c: string): Transaction -> seq<Transaction> {
    (t: Transaction) => if t.customer == c then [t] else []
  }

  lemma {:induction false} OwnTurnover(prices: Prices, ts: seq<Transaction>, c: string)
    requires Coherent(prices, ts)
    ensures SpentBy(prices, ts, c) == Turnover(prices, Flat(ts, OwnedBy(c)))
    ensures Coherent(prices, Flat(ts, OwnedBy(c)))
  {
    if ts != [] {
      var front, t := ts[..|ts| - 1], ts[|ts| - 1];
      assert ts == front + [t] && t in ts;
      OwnTurnover(prices, front, c);
      var own := Flat(front, OwnedBy(c));
      if t.customer == c {
        assert Flat(ts, OwnedBy(c)) == own + [t];
        assert (own + [t])[..|own|] == own;
      } else {
        assert Flat(ts, OwnedBy(c)) == own;
      }
    }
  }

  lemma OwnBooks(ts: seq<Transaction>, c: string, book: string)
    ensures Sold(Flat(ts, OwnedBy(c)), book) ==
              multiset(Flat(ts, (t: Transaction) => if t.customer == c then t.books else []))[book]
  {
    hide Sold, Flat;
    var books, own := (t: Transaction) => t.books, (t: Transaction) => if t.customer == c then t.books else [];
    SoldPlainly(Flat(ts, OwnedBy(c)), book);
    FlatFlat(ts, OwnedBy(c), books);
    forall i | 0 <= i < |ts|
      ensures Then(OwnedBy(c), books)(ts[i]) == own(ts[i])
    {
      OneBasket(ts[i], c);
    }
    FlatEqual(ts, Then(OwnedBy(c), books), own);
  }

  lemma OneBasket(t: Transaction, c: string)
    ensures Flat(OwnedBy(c)(t), (t: Transaction) => t.books) == if t.customer == c then t.books else []
  {
    if t.customer == c {
      FlatSnoc([], t, (t: Transaction) => t.books);
      assert [] + [t] == [t];
      FlatNothing([], (t: Transaction) => t.books);
    }
  }

  // What a customer spent: for every book its price as often as it stands in the customer's baskets.
  lemma SpentPlainly(prices: Prices, ts: seq<Transaction>, c: string)
    requires Coherent(prices, ts)
    ensures SpentBy(prices, ts, c) == Sum(prices.Keys, b => if b !in prices then 0.0 else
      prices[b] * multiset(Flat(ts, (t: Transaction) => if t.customer == c then t.books else []))[b] as real)
  {
    hide Flat, Sold, SpentBy, Turnover, Sum;
    var own := Flat(ts, OwnedBy(c));
    OwnTurnover(prices, ts, c);
    SalesAreTurnover(prices, own);
    forall b
      ensures Sold(own, b) == multiset(Flat(ts, (t: Transaction) => if t.customer == c then t.books else []))[b]
    {
      OwnBooks(ts, c, b);
    }
    SumSame(prices.Keys, b => PriceOf(prices, b) * Sold(own, b) as real, b => if b !in prices then 0.0 else
      prices[b] * multiset(Flat(ts, (t: Transaction) => if t.customer == c then t.books else []))[b] as real);
  }

  // What one transaction costs: for every book its price as often as it stands in the basket.
  lemma TotalPlainly(prices: Prices, books: seq<string>)
    requires AllPriced(prices, books)
    ensures Total(prices, books) ==
      Sum(prices.Keys, b => if b !in prices then 0.0 else prices[b] * multiset(books)[b] as real)
  {
    hide Sum, Total;
    BasketSales(prices, [], books);
    NothingSold(prices);
    SumSame(prices.Keys, b => Worth(prices, [], books, b),
            b => if b !in prices then 0.0 else prices[b] * multiset(books)[b] as real);
  }

  // ---------- the loaders ----------

  ghost predicate SalesRight(sales: map<string, nat>, prices: Prices, ts: seq<Transaction>) {
    sales.Keys == prices.Keys && forall b | b in sales :: sales[b] == Sold(ts, b)
  }

  // In the middle of a transaction: the books in the basket so far are counted too.
  ghost predicate SalesWith(sales: map<string, nat>, prices: Prices, ts: seq<Transaction>, books: seq<string>) {
    sales.Keys == prices.Keys && forall b | b in sales :: sales[b] == Sold(ts, b) + multiset(books)[b]
  }

  ghost predicate VisitsRight(visits: map<string, nat>, ts: seq<Transaction>) {
    visits.Keys == Customers(ts) && forall c | c in visits :: visits[c] == Visits(ts, c)
  }

  ghost predicate PurchasesRight(purchases: map<string, real>, prices: Prices, ts: seq<Transaction>) {
    purchases.Keys == Customers(ts) && forall c | c in purchases :: purchases[c] == SpentBy(prices, ts, c)
  }

  lemma {:induction false} Absent(prices: Prices, ts: seq<Transaction>, c: string)
    requires c !in Customers(ts)
    ensures Visits(ts, c) == 0 && SpentBy(prices, ts, c) == 0.0
  {
    if ts != [] {
      assert ts[|ts| - 1] in ts;
      assert forall t | t in ts[..|ts| - 1] :: t in ts;
      Absent(prices, ts[..|ts| - 1], c);
    }
  }

  lemma OneMoreCustomer(ts: seq<Transaction>, n: nat)
    requires n < |ts|
    ensures Customers(ts[..n + 1]) == Customers(ts[..n]) + {ts[n].customer}
    ensures ts[..n + 1][..n] == ts[..n] && ts[..n + 1][n] == ts[n] && |ts[..n + 1]| == n + 1
  {
    assert ts[..n + 1] == ts[..n] + [ts[n]];
    var one := ts[..n + 1];
    forall t | t in ts[..n]
      ensures t in one
    {
    }
    assert ts[n] in one;
  }

  function OneVisitMore(visits: map<string, nat>, c: string): map<string, nat> {
    visits[c := (if c in visits then visits[c] else 0) + 1]
  }

  lemma VisitsStep(visits: map<string, nat>, ts: seq<Transaction>, n: nat)
    requires n < |ts| && VisitsRight(visits, ts[..n])
    ensures VisitsRight(OneVisitMore(visits, ts[n].customer), ts[..n + 1])
  {
    OneMoreCustomer(ts, n);
    if ts[n].customer !in visits {
      Absent(map[], ts[..n], ts[n].customer);
    }
  }

  function SpentMore(purchases: map<string, real>, c: string, sum: real): map<string, real> {
    purchases[c := sum + if c in purchases then purchases[c] else 0.0]
  }

  lemma PurchasesStep(purchases: map<string, real>, prices: Prices, ts: seq<Transaction>, n: nat)
    requires n < |ts| && PurchasesRight(purchases, prices, ts[..n])
    ensures PurchasesRight(SpentMore(purchases, ts[n].customer, Total(prices, ts[n].books)), prices, ts[..n + 1])
  {
    OneMoreCustomer(ts, n);
    if ts[n].customer !in purchases {
      Absent(prices, ts[..n], ts[n].customer);
    }
  }

  class Yoda {
    var priceIndex: Prices
    var custVisits: map<string, nat>
    var bookSales: map<string, nat>
    var customerPurchases: map<string, real>

    constructor (prices: Prices)
      ensures priceIndex == prices && custVisits == map[] && bookSales == map[] && customerPurchases == map[]
    {
      priceIndex, custVisits, bookSales, customerPurchases := prices, map[], map[], map[];
    }

    method UpdateSales(book: string)
      requires book in bookSales
      modifies this`bookSales
      ensures bookSales == old(bookSales)[book := old(bookSales)[book] + 1]
    {
      var sale := 1 + bookSales[book];
      bookSales := bookSales[book := sale];
    }

    method UpdateCustomerVisits(c: string)
      modifies this`custVisits
      ensures custVisits == OneVisitMore(old(custVisits), c)
    {
      var visits := 1;
      if c in custVisits {
        visits := visits + custVisits[c];
      }
      custVisits := custVisits[c := visits];
    }

    method UpdateCustomerTransactions(c: string, sum: real)
      modifies this`customerPurchases
      ensures customerPurchases == SpentMore(old(customerPurchases), c, sum)
    {
      var total := sum;
      if c in customerPurchases {
        total := total + customerPurchases[c];
      }
      customerPurchases := customerPurchases[c := total];
    }

    // The loader for discounts; it fails exactly when some book has no price.
    method LoadTransactionsEligibility(ts: seq<Transaction>) returns (ok: bool)
      requires customerPurchases == map[]
      modifies this`customerPurchases
      ensures ok <==> Coherent(priceIndex, ts)
      ensures ok ==> PurchasesRight(customerPurchases, priceIndex, ts)
    {
      hide PurchasesRight, Total;
      NothingLoaded(priceIndex);
      assert ts[..0] == [];
      var n := 0;
      while n < |ts|
        invariant 0 <= n <= |ts| && Coherent(priceIndex, ts[..n])
        invariant PurchasesRight(customerPurchases, priceIndex, ts[..n])
      {
        var books := ts[n].books;
        CoherentStep(priceIndex, ts, n);
        var sum := 0.0;
        var i := 0;
        TotalNone(priceIndex, books);
        while i < |books|
          invariant 0 <= i <= |books| && AllPriced(priceIndex, books[..i]) && sum == Total(priceIndex, books[..i])
          invariant PurchasesRight(customerPurchases, priceIndex, ts[..n])
        {
          TotalStep(priceIndex, books, i);
          if books[i] !in priceIndex {
            return false;
          }
          sum := sum + priceIndex[books[i]];
          i := i + 1;
        }
        assert books[..i] == books;
        PurchasesStep(customerPurchases, priceIndex, ts, n);
        UpdateCustomerTransactions(ts[n].customer, sum);
        n := n + 1;
      }
      assert ts[..n] == ts;
      ok := true;
    }

    // The loader for the reports; the tracker is fed the sum of every transaction.
    method LoadTransactionsReport(ts: seq<Transaction>, tracker: Streaming.Tracker) returns (ok: bool)
      requires custVisits == map[] && bookSales == map[] && tracker.Valid() && tracker.seen == []
      modifies this`custVisits, this`bookSales, tracker
      ensures tracker.Valid()
      ensures ok <==> Coherent(priceIndex, ts)
      ensures ok ==> SalesRight(bookSales, priceIndex, ts) && VisitsRight(custVisits, ts)
      ensures ok ==> tracker.seen == Additions(priceIndex, ts)
    {
      hide Total, VisitsRight, SalesWith, Streaming.Holds, Additions;
      bookSales := map b | b in priceIndex :: 0;
      NothingLoaded(priceIndex);
      assert ts[..0] == [];
      var n := 0;
      while n < |ts|
        invariant 0 <= n <= |ts| && Coherent(priceIndex, ts[..n]) && tracker.Valid()
        invariant SalesWith(bookSales, priceIndex, ts[..n], []) && VisitsRight(custVisits, ts[..n])
        invariant tracker.seen == Additions(priceIndex, ts[..n])
      {
        var books := ts[n].books;
        CoherentStep(priceIndex, ts, n);
        var sum := 0.0;
        var i := 0;
        TotalNone(priceIndex, books);
        while i < |books|
          invariant 0 <= i <= |books| && AllPriced(priceIndex, books[..i]) && sum == Total(priceIndex, books[..i])
          invariant SalesWith(bookSales, priceIndex, ts[..n], books[..i]) && VisitsRight(custVisits, ts[..n])
          invariant tracker.Valid() && tracker.seen == Additions(priceIndex, ts[..n])
        {
          TotalStep(priceIndex, books, i);
          SalesStep(bookSales, priceIndex, ts[..n], books, i);
          if books[i] !in bookSales {
            return false;
          }
          UpdateSales(books[i]);
          sum := sum + priceIndex[books[i]];
          i := i + 1;
        }
        assert books[..i] == books;
        var kept := tracker.Add(ts[n].customer, sum);
        AdditionsStep(priceIndex, ts, n);
        BasketDone(bookSales, priceIndex, ts, n);
        VisitsStep(custVisits, ts, n);
        UpdateCustomerVisits(ts[n].customer);
        n := n + 1;
      }
      assert ts[..n] == ts;
      BasketStart(bookSales, priceIndex, ts);
      ok := true;
    }

    // A customer that never came is not eligible, whatever the cut-off.
    method IsEligible(c: string, cutOff: real, ghost ts: seq<Transaction>) returns (r: int)
      requires PurchasesRight(customerPurchases, priceIndex, ts)
      ensures r == if c in Customers(ts) && SpentBy(priceIndex, ts, c) > cutOff then 1 else 0
    {
      if c in customerPurchases {
        var val := customerPurchases[c];
        if val > cutOff {
          return 1;
        }
      }
      r := 0;
    }
  }

  lemma NothingLoaded(prices: Prices)
    ensures PurchasesRight(map[], prices, []) && VisitsRight(map[], []) && Additions(prices, []) == []
    ensures SalesWith(map b | b in prices :: 0, prices, [], [])
  {
  }

  lemma TotalNone(prices: Prices, books: seq<string>)
    ensures Total(prices, books[..0]) == 0.0 && books[..0] == []
  {
  }

  lemma TotalStep(prices: Prices, books: seq<string>, i: nat)
    requires i < |books| && AllPriced(prices, books[..i])
    ensures Total(prices, books[..i + 1]) == Total(prices, books[..i]) + PriceOf(prices, books[i])
    ensures AllPriced(prices, books[..i + 1]) <==> books[i] in prices
    ensures AllPriced(prices, books) ==> books[i] in prices
  {
    assert books[..i + 1] == books[..i] + [books[i]];
    assert books[i] in books;
  }

  lemma CoherentStep(prices: Prices, ts: seq<Transaction>, n: nat)
    requires n < |ts| && Coherent(prices, ts[..n])
    ensures Coherent(prices, ts[..n + 1]) <==> AllPriced(prices, ts[n].books)
    ensures Coherent(prices, ts) ==> AllPriced(prices, ts[n].books)
  {
    assert ts[..n + 1] == ts[..n] + [ts[n]];
    assert ts[n] in ts;
  }

  lemma SalesStep(sales: map<string, nat>, prices: Prices, ts: seq<Transaction>, books: seq<string>, i: nat)
    requires i < |books| && SalesWith(sales, prices, ts, books[..i])
    ensures sales.Keys == prices.Keys
    ensures books[i] in sales ==> SalesWith(sales[books[i] := sales[books[i]] + 1], prices, ts, books[..i + 1])
  {
    assert books[..i + 1] == books[..i] + [books[i]];
  }

  lemma BasketDone(sales: map<string, nat>, prices: Prices, ts: seq<Transaction>, n: nat)
    requires n < |ts| && SalesWith(sales, prices, ts[..n], ts[n].books)
    ensures SalesWith(sales, prices, ts[..n + 1], [])
  {
    OneMoreCustomer(ts, n);
  }

  lemma BasketStart(sales: map<string, nat>, prices: Prices, ts: seq<Transaction>)
    requires SalesWith(sales, prices, ts, [])
    ensures SalesRight(sales, prices, ts)
  {
  }

  lemma AdditionsStep(prices: Prices, ts: seq<Transaction>, n: nat)
    requires n < |ts|
    ensures Additions(prices, ts[..n + 1]) == Additions(prices, ts[..n]) + [(ts[n].customer, Total(prices, ts[n].books))]
  {
  }

  lemma PurchasesBalance(prices: Prices, ts: seq<Transaction>, purchases: map<string, real>)
    requires PurchasesRight(purchases, prices, ts)
    ensures Sum(purchases.Keys, c => if c in purchases then purchases[c] else 0.0) == Turnover(prices, ts)
  {
    hide Sum, Turnover;
    SpentIsTurnover(prices, ts, purchases.Keys);
    SumSame(purchases.Keys, c => if c in purchases then purchases[c] else 0.0, c => SpentBy(prices, ts, c));
  }

  lemma SalesBalance(prices: Prices, ts: seq<Transaction>, sales: map<string, nat>)
    requires Coherent(prices, ts) && SalesRight(sales, prices, ts)
    ensures Sum(sales.Keys, b => if b in sales && b in prices then prices[b] * sales[b] as real else 0.0) == Turnover(prices, ts)
  {
    hide Sum, Turnover, Sold;
    SalesAreTurnover(prices, ts);
    SumSame(sales.Keys, b => if b in sales && b in prices then prices[b] * sales[b] as real else 0.0,
            b => PriceOf(prices, b) * Sold(ts, b) as real);
  }

  lemma VisitsBalance(ts: seq<Transaction>, visits: map<string, nat>)
    requires VisitsRight(visits, ts)
    ensures Sum(visits.Keys, c => if c in visits then visits[c] as real else 0.0) == |ts| as real
  {
    hide Sum, Visits;
    VisitsAreTransactions(ts, visits.Keys);
    SumSame(visits.Keys, c => if c in visits then visits[c] as real else 0.0, c => Visits(ts, c) as real);
  }

  // The tables of the two loaders balance: what all customers spent is what all books brought in,
  // and the visits are as many as the transactions.
  lemma TablesBalance(prices: Prices, ts: seq<Transaction>, sales: map<string, nat>, visits: map<string, nat>,
                      purchases: map<string, real>)
    requires Coherent(prices, ts) && SalesRight(sales, prices, ts) && VisitsRight(visits, ts)
    requires PurchasesRight(purchases, prices, ts)
    ensures Sum(purchases.Keys, c => if c in purchases then purchases[c] else 0.0)
      == Sum(sales.Keys, b => if b in sales && b in prices then prices[b] * sales[b] as real else 0.0)
    ensures Sum(visits.Keys, c => if c in visits then visits[c] as real else 0.0) == |ts| as real
  {
    PurchasesBalance(prices, ts, purchases);
    SalesBalance(prices, ts, sales);
    VisitsBalance(ts, visits);
  }
}
