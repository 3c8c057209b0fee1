/** POS line items: money in cents, rates in ten-thousandths, half-up rounding at two levels. */
module PosMoney {

  const RATE_ONE: int := 10_000

  /** `num / den` rounded to the nearest integer, halves up. */
  function HalfUp(num: int, den: int): (r: int)
    requires num >= 0 && den > 0
    ensures 2 * num - den < 2 * den * r <= 2 * num + den
  {
    (2 * num + den) / (2 * den)
  }

  /** A catalog product: list price and unit cost in cents. */
  datatype Product = Product(listPrice: int, unitCost: int)

  /** `_build_catalog` from the rounded price and the drawn cost rate. */
  function CatalogProduct(listPrice: int, costRate: int): Product
    requires listPrice >= 0 && costRate >= 0
  {
    Product(listPrice, HalfUp(listPrice * costRate, RATE_ONE))
  }

  datatype PosLine = PosLine(transactionId: string, lineNumber: nat, quantity: int, gross: int, net: int, margin: int)

  function GenerateLine(txn: string, lineNumber: nat, p: Product, quantity: int, discountRate: int): PosLine
    requires p.listPrice >= 0 && quantity >= 0 && 0 <= discountRate <= RATE_ONE
  {
    var gross := p.listPrice * quantity;
    var net := HalfUp(gross * (RATE_ONE - discountRate), RATE_ONE);
    PosLine(txn, lineNumber, quantity, gross, net, net - p.unitCost * quantity)
  }

  /** A line with the rates and quantities the generators draw. */
  predicate IsDraw(costRate: int, quantity: int, discountRate: int) {
    4500 <= costRate <= 7500 && 1 <= quantity <= 4 && 0 <= discountRate <= 2000
  }

  function Margin(listPrice: int, costRate: int, quantity: int, discountRate: int): int
    requires listPrice >= 0 && IsDraw(costRate, quantity, discountRate)
  {
    GenerateLine("", 1, CatalogProduct(listPrice, costRate), quantity, discountRate).margin
  }

  /** The lowest price, in cents, from which rounding can no longer eat the margin. */
  const SAFE_PRICE: int := 19

  lemma NetBounds(gross: int, d: int)
    requires gross >= 0 && 0 <= d <= 2000
    ensures var net := HalfUp(gross * (RATE_ONE - d), RATE_ONE);
            16_000 * gross - RATE_ONE < 20_000 * net && net <= gross
  {
    assert gross * (RATE_ONE - d) == RATE_ONE * gross - gross * d;
    assert 0 <= gross * d <= gross * 2000;
  }

  lemma CostBelowPrice(price: int, rate: int)
    requires price >= 0 && 0 <= rate <= 7500
    ensures 20_000 * HalfUp(price * rate, RATE_ONE) <= 15_000 * price + RATE_ONE
  {
    assert price * rate <= price * 7500;
  }

  lemma TimesQuantity(cost: int, price: int, quantity: int)
    requires 20_000 * cost <= 15_000 * price + RATE_ONE && 1 <= quantity <= 4
    ensures 20_000 * (cost * quantity) <= 15_000 * (price * quantity) + RATE_ONE * quantity
  {
    if quantity == 1 {} else if quantity == 2 {} else if quantity == 3 {} else {}
  }

  lemma SafePricesEarn(listPrice: int, costRate: int, quantity: int, discountRate: int)
    requires listPrice >= SAFE_PRICE && IsDraw(costRate, quantity, discountRate)
    ensures Margin(listPrice, costRate, quantity, discountRate) > 0
  {
    var cost, gross := HalfUp(listPrice * costRate, RATE_ONE), listPrice * quantity;
    assert gross >= 0 by { if quantity == 1 {} else if quantity == 2 {} else if quantity == 3 {} else {} }
    NetBounds(gross, discountRate);
    CostBelowPrice(listPrice, costRate);
    TimesQuantity(cost, listPrice, quantity);
    if quantity == 1 {
      assert gross == listPrice;
    }
  }

  /** At every price from `floor` on, every draw earns a positive margin, exactly when the floor is at least 19 cents. */
  lemma MarginIsPositiveIff(floor: nat)
    ensures (forall listPrice, costRate, quantity, discountRate ::
               listPrice >= floor && IsDraw(costRate, quantity, discountRate) ==>
                 Margin(listPrice, costRate, quantity, discountRate) > 0)
            <==> floor >= SAFE_PRICE
  {
    if floor >= SAFE_PRICE {
      forall listPrice, costRate, quantity, discountRate | listPrice >= floor && IsDraw(costRate, quantity, discountRate)
        ensures Margin(listPrice, costRate, quantity, discountRate) > 0
      {
        SafePricesEarn(listPrice, costRate, quantity, discountRate);
      }
    } else {
      assert IsDraw(7500, 1, 2000) && Margin(SAFE_PRICE - 1, 7500, 1, 2000) == 0;
    }
  }

  /** Every line of a catalog product keeps 0.79 gross <= net <= gross and earns a positive margin. */
  lemma MarginIsPositive(txn: string, lineNumber: nat, listPrice: int, costRate: int, quantity: int, discountRate: int)
    requires listPrice >= 200 && IsDraw(costRate, quantity, discountRate)
    ensures var line := GenerateLine(txn, lineNumber, CatalogProduct(listPrice, costRate), quantity, discountRate);
            79 * line.gross <= 100 * line.net && line.net <= line.gross && line.margin > 0
  {
    var gross := listPrice * quantity;
    assert gross >= 200;
    NetBounds(gross, discountRate);
    SafePricesEarn(listPrice, costRate, quantity, discountRate);
  }

  /** What the random generator decides for one line. */
  datatype LineDraw = LineDraw(product: Product, quantity: int, discountRate: int)

  predicate GoodDraw(d: LineDraw) {
    d.product.listPrice >= 0 && 1 <= d.quantity <= 4 && 0 <= d.discountRate <= 2000
  }

  /** The lines of one transaction, numbered from one. */
  function LinesOf(txn: string, draws: seq<LineDraw>): (lines: seq<PosLine>)
    requires forall i :: 0 <= i < |draws| ==> GoodDraw(draws[i])
    ensures |lines| == |draws|
  {
    seq(|draws|, k requires 0 <= k < |draws| && GoodDraw(draws[k]) =>
      GenerateLine(txn, k + 1, draws[k].product, draws[k].quantity, draws[k].discountRate))
  }

  ghost predicate GoodDraws(draws: seq<seq<LineDraw>>) {
    forall n, i :: 0 <= n < |draws| && 0 <= i < |draws[n]| ==> GoodDraw(draws[n][i])
  }

  /** The lines of all transactions, one after the other. */
  ghost function AllLines(draws: seq<seq<LineDraw>>, txnId: nat -> string): seq<PosLine>
    requires GoodDraws(draws)
  {
    if draws == [] then [] else
      AllLines(draws[..|draws| - 1], txnId) + LinesOf(txnId(|draws| - 1), draws[|draws| - 1])
  }

  method GenerateRows(draws: seq<seq<LineDraw>>, txnId: nat -> string) returns (rows: seq<PosLine>)
    requires GoodDraws(draws)
    ensures rows == AllLines(draws, txnId)
  {
    rows := [];
    for n := 0 to |draws|
      invariant rows == AllLines(draws[..n], txnId)
    {
      ghost var before := rows;
      for k := 0 to |draws[n]|
        invariant rows == before + LinesOf(txnId(n), draws[n])[..k]
      {
        var d := draws[n][k];
        assert LinesOf(txnId(n), draws[n])[..k + 1] == LinesOf(txnId(n), draws[n])[..k] + [LinesOf(txnId(n), draws[n])[k]];
        rows := rows + [GenerateLine(txnId(n), k + 1, d.product, d.quantity, d.discountRate)];
      }
      assert draws[..n + 1][..n] == draws[..n];
      assert LinesOf(txnId(n), draws[n])[..|draws[n]|] == LinesOf(txnId(n), draws[n]);
    }
    assert draws[..|draws|] == draws;
  }

  /** `net` is the whole number nearest to a fraction of the gross, halves up. */
  predicate Nearest(r: int, num: int, den: int) {
    2 * num - den < 2 * den * r <= 2 * num + den
  }

  /** There is exactly one such number, the one `HalfUp` gives. */
  lemma NearestIff(r: int, num: int, den: int)
    requires num >= 0 && den > 0
    ensures Nearest(r, num, den) <==> r == HalfUp(num, den)
  {
    var h := HalfUp(num, den);
    if r < h { TimesStep(r, h, den); }
    if r > h { TimesStep(h, r, den); }
  }

  lemma TimesStep(a: int, b: int, den: int)
    requires a < b && den > 0
    ensures 2 * den * b >= 2 * den * a + 2 * den
  {
    var gap, twice := b - a - 1, 2 * den;
    assert twice * gap >= 0;
    assert twice * b == twice * (a + 1 + gap) == twice * a + twice + twice * gap;
  }

  /** Line `k` of transaction `n` in the output, in terms of what was drawn: its place, its key, and its money. The unit
      cost of a catalog product is the nearest cent to price times rate. */
  lemma {:induction false} LineMeans(draws: seq<seq<LineDraw>>, txnId: nat -> string, n: nat, k: nat)
    requires GoodDraws(draws) && n < |draws| && k < |draws[n]|
    ensures var rows, at, d := AllLines(draws, txnId), |AllLines(draws[..n], txnId)| + k, draws[n][k];
            && at < |rows| && rows[at].transactionId == txnId(n) && rows[at].lineNumber == k + 1
            && rows[at].quantity == d.quantity && rows[at].gross == d.product.listPrice * d.quantity
            && Nearest(rows[at].net, rows[at].gross * (10_000 - d.discountRate), 10_000)
            && rows[at].net == rows[at].margin + d.product.unitCost * d.quantity
    decreases |draws|
  {
    var front, last := draws[..|draws| - 1], draws[|draws| - 1];
    if n < |draws| - 1 {
      LineMeans(front, txnId, n, k);
      assert draws[..n] == front[..n];
    } else {
      assert draws[..n] == front;
      LineOfDraw(txnId(n), last, k);
    }
  }

  lemma LineOfDraw(txn: string, draws: seq<LineDraw>, k: nat)
    requires k < |draws| && forall i :: 0 <= i < |draws| ==> GoodDraw(draws[i])
    ensures var line, d := LinesOf(txn, draws)[k], draws[k];
            && line.transactionId == txn && line.lineNumber == k + 1
            && line.quantity == d.quantity && line.gross == d.product.listPrice * d.quantity
            && Nearest(line.net, line.gross * (10_000 - d.discountRate), 10_000)
            && line.net == line.margin + d.product.unitCost * d.quantity
  {
  }

  lemma CatalogMeans(listPrice: int, costRate: int)
    requires listPrice >= 0 && costRate >= 0
    ensures var p := CatalogProduct(listPrice, costRate); p.listPrice == listPrice && Nearest(p.unitCost, listPrice * costRate, 10_000)
  {
  }

  ghost predicate HasKey(rows: seq<PosLine>, txn: string, l: int) {
    exists i :: 0 <= i < |rows| && rows[i].transactionId == txn && rows[i].lineNumber == l
  }

  lemma HasKeyConcat(a: seq<PosLine>, b: seq<PosLine>, txn: string, l: int)
    ensures HasKey(a + b, txn, l) <==> HasKey(a, txn, l) || HasKey(b, txn, l)
  {
    if HasKey(a, txn, l) {
      var i :| 0 <= i < |a| && a[i].transactionId == txn && a[i].lineNumber == l;
      assert (a + b)[i] == a[i];
    }
    if HasKey(b, txn, l) {
      var i :| 0 <= i < |b| && b[i].transactionId == txn && b[i].lineNumber == l;
      assert (a + b)[|a| + i] == b[i];
    }
  }

  lemma LinesOfKeys(txn: string, draws: seq<LineDraw>, t: string, l: int)
    requires forall i :: 0 <= i < |draws| ==> GoodDraw(draws[i])
    ensures HasKey(LinesOf(txn, draws), t, l) <==> t == txn && 1 <= l <= |draws|
  {
    if t == txn && 1 <= l <= |draws| { assert LinesOf(txn, draws)[l - 1].lineNumber == l; }
  }

  /** Line numbers of a transaction are contiguous from one, and transactions never mix. */
  lemma {:induction false} LinesAreContiguous(draws: seq<seq<LineDraw>>, txnId: nat -> string, n: nat, l: int)
    requires GoodDraws(draws) && forall n: nat, m: nat :: txnId(n) == txnId(m) ==> n == m
    ensures HasKey(AllLines(draws, txnId), txnId(n), l) <==> n < |draws| && 1 <= l <= |draws[n]|
  {
    if draws != [] {
      var front, last := draws[..|draws| - 1], draws[|draws| - 1];
      LinesAreContiguous(front, txnId, n, l);
      LinesOfKeys(txnId(|draws| - 1), last, txnId(n), l);
      HasKeyConcat(AllLines(front, txnId), LinesOf(txnId(|draws| - 1), last), txnId(n), l);
    }
  }

  lemma {:induction false} LineHasTransaction(draws: seq<seq<LineDraw>>, txnId: nat -> string, i: nat)
    requires GoodDraws(draws) && i < |AllLines(draws, txnId)|
    ensures exists n: nat :: n < |draws| && AllLines(draws, txnId)[i].transactionId == txnId(n)
  {
    var front := draws[..|draws| - 1];
    if i < |AllLines(front, txnId)| { LineHasTransaction(front, txnId, i); }
  }

  /** No two lines share transaction and line number. */
  lemma {:induction false} LinesAreUnique(draws: seq<seq<LineDraw>>, txnId: nat -> string, i: nat, j: nat)
    requires GoodDraws(draws) && forall n: nat, m: nat :: txnId(n) == txnId(m) ==> n == m
    requires i < j < |AllLines(draws, txnId)|
    ensures var rows := AllLines(draws, txnId);
            rows[i].transactionId != rows[j].transactionId || rows[i].lineNumber != rows[j].lineNumber
  {
    var front := draws[..|draws| - 1];
    var n := |AllLines(front, txnId)|;
    if j < n {
      LinesAreUnique(front, txnId, i, j);
    } else if i < n {
      LineHasTransaction(front, txnId, i);
    }
  }
}
