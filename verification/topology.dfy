/**
 The system topology behind `list-products` (beoutil/main.go:93-188):
 every address of every cached product is asked for the products it knows;
 the answers are merged first-come-first-kept, cached addresses are laid
 over the result, and the table rows are selected from it. The HTTP query
 is a parameter `query` giving, per address, the reported products or the
 failure.
 */
module Topology {
  import opened Results
  import opened Strings
  import opened Models
  import Keyed
  import Discovery

  type Address = Discovery.Address

  /** `systemProduct`: a reported product with the addresses known for it locally. */
  datatype SystemProduct = SystemProduct(product: Product, ips: seq<Address>)

  /** What `GetSystemProducts` against one address returned. */
  datatype QueryResult = Reported(products: seq<Product>) | QueryFailed(err: Error)

  /** `range` over a Go map visits each key once, in an order the program does not choose. */
  predicate Enumerates<V>(order: seq<string>, m: map<string, V>) {
    && (forall i, j :: 0 <= i < j < |order| ==> order[i] != order[j])
    && (forall i :: 0 <= i < |order| ==> order[i] in m)
    && (forall k :: k in m ==> k in order)
  }

  // ---------------------------------------------------------------------
  // getAllSystemProducts

  /** The addresses queried, in order: each cached product's address list, product after product. */
  function QueriedAddresses(cached: Discovery.Directory, order: seq<string>): seq<Address>
    requires forall i :: 0 <= i < |order| ==> order[i] in cached
  {
    if |order| == 0 then []
    else QueriedAddresses(cached, order[..|order| - 1]) + cached[order[|order| - 1]].ips
  }

  function Answer(r: QueryResult): seq<Product> {
    match r
    case Reported(ps) => ps
    case QueryFailed(_) => []
  }

  /** The products reported by the given addresses, concatenated in query order; a failed query contributes nothing. */
  function Reports(query: Address -> QueryResult, addrs: seq<Address>): seq<Product> {
    if |addrs| == 0 then []
    else Reports(query, addrs[..|addrs| - 1]) + Answer(query(addrs[|addrs| - 1]))
  }

  function ProductJid(p: Product): string {
    p.jid
  }

  function Unplaced(p: Product): SystemProduct {
    SystemProduct(p, [])
  }

  /** The cached addresses laid over the merged products, for those whose jid was cached. */
  function Overlay(merged: map<string, SystemProduct>, cached: Discovery.Directory): (r: map<string, SystemProduct>)
    ensures r.Keys == merged.Keys
    ensures forall j :: j in r && j in cached ==> r[j] == SystemProduct(merged[j].product, cached[j].ips)
    ensures forall j :: j in r && j !in cached ==> r[j] == merged[j]
  {
    map j | j in merged :: if j in cached then SystemProduct(merged[j].product, cached[j].ips) else merged[j]
  }

  /** `getAllSystemProducts` once the cache has been read. It never fails. */
  function GetAllSystemProducts(cached: Discovery.Directory, order: seq<string>, query: Address -> QueryResult): (r: map<string, SystemProduct>)
    requires Enumerates(order, cached)
    ensures forall j :: j in r ==> r[j].product.jid == j
    ensures forall j :: j in r ==> r[j].ips == (if j in cached then cached[j].ips else [])
  {
    var ps := Reports(query, QueriedAddresses(cached, order));
    var merged := Keyed.FirstIndex(ps, ProductJid, Unplaced);
    forall j | j in merged
      ensures merged[j].product.jid == j && merged[j].ips == []
    {
      Keyed.FirstIndexFirstWins(ps, ProductJid, Unplaced, j);
    }
    Overlay(merged, cached)
  }

  lemma {:induction false} ReportsAppend(query: Address -> QueryResult, xs: seq<Address>, ys: seq<Address>)
    ensures Reports(query, xs + ys) == Reports(query, xs) + Reports(query, ys)
  {
    if |ys| == 0 {
      assert xs + ys == xs;
    } else {
      assert (xs + ys)[..|xs + ys| - 1] == xs + ys[..|ys| - 1];
      ReportsAppend(query, xs, ys[..|ys| - 1]);
    }
  }

  /** A failed query skips that address only: the rest are merged as if it were absent. */
  lemma FailedAddressSkipped(query: Address -> QueryResult, xs: seq<Address>, a: Address, ys: seq<Address>)
    requires query(a).QueryFailed?
    ensures Reports(query, xs + [a] + ys) == Reports(query, xs + ys)
  {
    ReportsAppend(query, xs + [a], ys);
    ReportsAppend(query, xs, [a]);
    ReportsAppend(query, xs, ys);
    assert [a][..0] == [];
  }

  /** The reported products are exactly those some queried address answered with. */
  lemma {:induction false} ReportsContents(query: Address -> QueryResult, addrs: seq<Address>, p: Product)
    ensures p in Reports(query, addrs) <==> exists a :: a in addrs && query(a).Reported? && p in query(a).products
  {
    if |addrs| > 0 {
      var init := addrs[..|addrs| - 1];
      var last := addrs[|addrs| - 1];
      ReportsContents(query, init, p);
      assert addrs == init + [last];
      if p in Reports(query, addrs) && p !in Reports(query, init) {
        assert p in Answer(query(last));
      }
    }
  }

  /** Every address of every cached product is queried; none is skipped after an earlier success. */
  lemma {:induction false} EveryAddressQueried(cached: Discovery.Directory, order: seq<string>, i: nat, k: nat)
    requires forall n :: 0 <= n < |order| ==> order[n] in cached
    requires i < |order| && k < |cached[order[i]].ips|
    ensures cached[order[i]].ips[k] in QueriedAddresses(cached, order)
  {
    if i < |order| - 1 {
      EveryAddressQueried(cached, order[..|order| - 1], i, k);
    }
  }

  /**
   The merged products are keyed by exactly the jids that some queried
   address reported, and each holds the FIRST product reported under that
   jid: a later report never overwrites it.
   */
  lemma FirstReportWins(cached: Discovery.Directory, order: seq<string>, query: Address -> QueryResult, j: string)
    requires Enumerates(order, cached)
    ensures var r := GetAllSystemProducts(cached, order, query);
      var addrs := QueriedAddresses(cached, order);
      && (j in r <==> exists a, p :: a in addrs && query(a).Reported? && p in query(a).products && p.jid == j)
      && (j in r ==> exists i :: (0 <= i < |Reports(query, addrs)| && r[j].product == Reports(query, addrs)[i]
            && forall n :: 0 <= n < i ==> Reports(query, addrs)[n].jid != j))
  {
    var addrs := QueriedAddresses(cached, order);
    var ps := Reports(query, addrs);
    Keyed.FirstIndexFirstWins(ps, ProductJid, Unplaced, j);
    var f := Keyed.FirstWithKey(ps, ProductJid, j);
    if f < |ps| {
      ReportsContents(query, addrs, ps[f]);
    } else {
      forall a, p | a in addrs && query(a).Reported? && p in query(a).products
        ensures p.jid != j
      {
        ReportsContents(query, addrs, p);
      }
    }
  }

  // ---------------------------------------------------------------------
  // joinIPs

  /** `joinIPs`: "-" for no addresses, otherwise the addresses separated by commas. */
  function JoinIPs(ips: seq<Address>): (r: string)
    ensures |ips| == 0 ==> r == "-"
    ensures |ips| > 0 && NoneContains(ips, ',') ==> Split(r, ',') == ips && Count(r, ',') == |ips| - 1
  {
    if |ips| == 0 then "-"
    else
      if NoneContains(ips, ',') then
        SplitJoin(ips, ',');
        JoinCount(ips, ',');
        Join(ips, ',')
      else Join(ips, ',')
  }

  /** The `strings.Builder` loop of `joinIPs`. */
  method WriteIPs(ips: seq<Address>) returns (r: string)
    ensures r == JoinIPs(ips)
  {
    if |ips| == 0 {
      return "-";
    }
    r := "";
    var i := 0;
    while i < |ips|
      invariant 0 <= i <= |ips|
      invariant i == 0 ==> r == ""
      invariant i > 0 ==> r == Join(ips[..i], ',')
    {
      if i > 0 {
        r := r + ",";
      }
      r := r + ips[i];
      assert ips[..i + 1][..i] == ips[..i];
      i := i + 1;
    }
    assert ips[..|ips|] == ips;
  }

  // ---------------------------------------------------------------------
  // doListProducts row selection

  datatype Role = Master | Slave | NoRole

  /** The ROLE column: only the two integrated roles are recognised; no pairing, or any other role, is "-". */
  function RoleOf(integrated: Option<Integrated>): (r: Role)
    ensures r == Master <==> integrated.Some? && integrated.value.role == RoleIntegratedMaster
    ensures r == Slave <==> integrated.Some? && integrated.value.role == RoleIntegratedSlave
  {
    match integrated
    case None => NoRole
    case Some(i) =>
      if i.role == RoleIntegratedMaster then Master
      else if i.role == RoleIntegratedSlave then Slave
      else NoRole
  }

  function RoleText(r: Role): string {
    match r
    case Master => "master"
    case Slave => "slave"
    case NoRole => "-"
  }

  function StateText(e: Option<ProductExperience>): string {
    match e
    case Some(x) => x.state
    case None => "-"
  }

  /** One table row; `nested` rows are the " + " partner rows printed under a master. */
  datatype Row = Row(nested: bool, name: string, role: string, ips: string, jid: string, online: bool, state: string)

  const ZeroProduct := SystemProduct(Product("", "", false, None, None), [])

  /** The row under a master for its partner; a partner missing from the map reads as Go's zero value. */
  function PartnerRow(products: map<string, SystemProduct>, partner: string): (r: Row)
    ensures r.nested && r.role == "slave" && r.jid == partner
    ensures partner !in products ==> r == Row(true, "", "slave", "-", partner, false, "-")
    ensures partner in products ==> r.name == products[partner].product.friendlyName && r.online == products[partner].product.online
    ensures partner in products ==> r.ips == JoinIPs(products[partner].ips)
    ensures partner in products ==> r.state == StateText(products[partner].product.primaryExperience)
  {
    var p := if partner in products then products[partner] else ZeroProduct;
    Row(true, p.product.friendlyName, "slave", JoinIPs(p.ips), partner, p.product.online, StateText(p.product.primaryExperience))
  }

  /** The rows printed for one product: none for a slave, one otherwise, plus the partner row for a master. */
  function RowsFor(products: map<string, SystemProduct>, p: SystemProduct): (rows: seq<Row>)
    ensures RoleOf(p.product.integrated) == Slave <==> |rows| == 0
    ensures RoleOf(p.product.integrated) != Slave ==>
      rows[0] == Row(false, p.product.friendlyName, RoleText(RoleOf(p.product.integrated)), JoinIPs(p.ips),
        p.product.jid, p.product.online, StateText(p.product.primaryExperience))
    ensures RoleOf(p.product.integrated) == NoRole ==> |rows| == 1
    ensures RoleOf(p.product.integrated) == Master ==>
      |rows| == 2 && rows[1] == PartnerRow(products, p.product.integrated.value.jid)
  {
    var role := RoleOf(p.product.integrated);
    if role == Slave then []
    else
      var top := Row(false, p.product.friendlyName, RoleText(role), JoinIPs(p.ips), p.product.jid, p.product.online, StateText(p.product.primaryExperience));
      if role == Master then [top, PartnerRow(products, p.product.integrated.value.jid)] else [top]
  }

  predicate IsMasterRow(r: Row) {
    !r.nested && r.role == "master"
  }

  /** No top-level row is a slave; nested rows follow master rows, and every master row has one. */
  predicate RowsShaped(rows: seq<Row>) {
    && (forall i :: 0 <= i < |rows| && !rows[i].nested ==> rows[i].role != "slave")
    && (forall i :: 0 <= i < |rows| && rows[i].nested ==> i > 0 && IsMasterRow(rows[i - 1]))
    && (forall i :: 0 <= i < |rows| && IsMasterRow(rows[i]) ==> i + 1 < |rows| && rows[i + 1].nested)
  }

  /** Every top-level row names a product of `order` that is not a slave. */
  predicate TopRowsListed(rows: seq<Row>, products: map<string, SystemProduct>, order: seq<string>)
    requires forall i :: 0 <= i < |order| ==> order[i] in products
  {
    forall i :: 0 <= i < |rows| && !rows[i].nested ==>
      exists n :: (0 <= n < |order| && rows[i].jid == products[order[n]].product.jid
        && RoleOf(products[order[n]].product.integrated) != Slave)
  }

  lemma RowsForShaped(products: map<string, SystemProduct>, p: SystemProduct)
    ensures var rows := RowsFor(products, p);
      && RowsShaped(rows)
      && (forall i :: 0 <= i < |rows| && !rows[i].nested ==>
            i == 0 && rows[i].jid == p.product.jid && RoleOf(p.product.integrated) != Slave)
  {
  }

  lemma RowsShapedAppend(a: seq<Row>, b: seq<Row>)
    requires RowsShaped(a) && RowsShaped(b)
    requires |b| > 0 ==> !b[0].nested
    ensures RowsShaped(a + b)
  {
    var rows := a + b;
    assert forall i :: 0 <= i < |a| ==> rows[i] == a[i];
    assert forall i :: |a| <= i < |rows| ==> rows[i] == b[i - |a|];
  }

  lemma TopRowsAppend(products: map<string, SystemProduct>, order: seq<string>, init: seq<Row>)
    requires |order| > 0 && forall i :: 0 <= i < |order| ==> order[i] in products
    requires TopRowsListed(init, products, order[..|order| - 1])
    ensures TopRowsListed(init + RowsFor(products, products[order[|order| - 1]]), products, order)
  {
    var prefix := order[..|order| - 1];
    var last := products[order[|order| - 1]];
    var more := RowsFor(products, last);
    var rows := init + more;
    RowsForShaped(products, last);
    forall i | 0 <= i < |rows| && !rows[i].nested
      ensures exists n :: (0 <= n < |order| && rows[i].jid == products[order[n]].product.jid
        && RoleOf(products[order[n]].product.integrated) != Slave)
    {
      if i < |init| {
        assert rows[i] == init[i];
        var n :| 0 <= n < |prefix| && init[i].jid == products[prefix[n]].product.jid
          && RoleOf(products[prefix[n]].product.integrated) != Slave;
        assert prefix[n] == order[n];
      } else {
        assert rows[i] == more[i - |init|];
        assert rows[i].jid == products[order[|order| - 1]].product.jid;
      }
    }
  }

  /** The table of `list-products`, visiting the products in `order`. */
  function ListRows(products: map<string, SystemProduct>, order: seq<string>): (rows: seq<Row>)
    requires forall i :: 0 <= i < |order| ==> order[i] in products
    ensures |rows| <= 2 * |order|
  {
    if |order| == 0 then []
    else ListRows(products, order[..|order| - 1]) + RowsFor(products, products[order[|order| - 1]])
  }

  /** The table is well formed: no slave heads a row, partner rows sit under master rows, and every top row is a listed product. */
  lemma {:induction false} ListRowsShaped(products: map<string, SystemProduct>, order: seq<string>)
    requires forall i :: 0 <= i < |order| ==> order[i] in products
    ensures RowsShaped(ListRows(products, order))
    ensures TopRowsListed(ListRows(products, order), products, order)
  {
    if |order| > 0 {
      var init := ListRows(products, order[..|order| - 1]);
      var more := RowsFor(products, products[order[|order| - 1]]);
      ListRowsShaped(products, order[..|order| - 1]);
      RowsForShaped(products, products[order[|order| - 1]]);
      RowsShapedAppend(init, more);
      TopRowsAppend(products, order, init);
    }
  }

  /** Every product that is not a slave gets its own top-level row. */
  lemma {:induction false} NonSlavesListed(products: map<string, SystemProduct>, order: seq<string>, n: nat)
    requires forall i :: 0 <= i < |order| ==> order[i] in products
    requires n < |order| && RoleOf(products[order[n]].product.integrated) != Slave
    ensures exists i :: (0 <= i < |ListRows(products, order)| && !ListRows(products, order)[i].nested
      && ListRows(products, order)[i].jid == products[order[n]].product.jid)
  {
    var init := ListRows(products, order[..|order| - 1]);
    if n == |order| - 1 {
      assert ListRows(products, order)[|init|].jid == products[order[n]].product.jid;
    } else {
      NonSlavesListed(products, order[..|order| - 1], n);
      var i :| 0 <= i < |init| && !init[i].nested && init[i].jid == products[order[n]].product.jid;
      assert ListRows(products, order)[i] == init[i];
    }
  }

  /** Listing two runs of products one after the other prints the two tables one after the other. */
  lemma {:induction false} ListRowsAppend(products: map<string, SystemProduct>, xs: seq<string>, ys: seq<string>)
    requires forall i :: 0 <= i < |xs| ==> xs[i] in products
    requires forall i :: 0 <= i < |ys| ==> ys[i] in products
    ensures ListRows(products, xs + ys) == ListRows(products, xs) + ListRows(products, ys)
    decreases |ys|
  {
    if |ys| == 0 {
      assert xs + ys == xs;
    } else {
      var ys' := ys[..|ys| - 1];
      assert (xs + ys)[..|xs + ys| - 1] == xs + ys';
      assert (xs + ys)[|xs + ys| - 1] == ys[|ys| - 1];
      ListRowsAppend(products, xs, ys');
    }
  }

  /** The rows of the `n`-th product of `order` appear, in one block, right after the rows of the products before it. */
  lemma {:induction false} ProductRowsAt(products: map<string, SystemProduct>, order: seq<string>, n: nat)
    requires forall i :: 0 <= i < |order| ==> order[i] in products
    requires n < |order|
    ensures var rows := ListRows(products, order);
      var at := |ListRows(products, order[..n])|;
      var mine := RowsFor(products, products[order[n]]);
      at + |mine| <= |rows| && rows[at..at + |mine|] == mine
  {
    ListRowsSplit(products, order, n);
    Middle(ListRows(products, order[..n]), RowsFor(products, products[order[n]]), ListRows(products, order[n + 1..]));
  }

  /** The rows of `order` are those of the products before position `n`, then the `n`-th product's, then the rest. */
  lemma ListRowsSplit(products: map<string, SystemProduct>, order: seq<string>, n: nat)
    requires forall i :: 0 <= i < |order| ==> order[i] in products
    requires n < |order|
    ensures ListRows(products, order)
      == ListRows(products, order[..n]) + (RowsFor(products, products[order[n]]) + ListRows(products, order[n + 1..]))
  {
    var before, here, after := order[..n], [order[n]], order[n + 1..];
    assert order == before + (here + after);
    ListRowsAppend(products, before, here + after);
    ListRowsAppend(products, here, after);
    ListRowsSingle(products, order[n]);
  }

  lemma ListRowsSingle(products: map<string, SystemProduct>, k: string)
    requires k in products
    ensures ListRows(products, [k]) == RowsFor(products, products[k])
  {
    assert [k][..0] == [];
  }

  lemma Middle<T>(a: seq<T>, b: seq<T>, c: seq<T>)
    ensures |a| + |b| <= |a + (b + c)| && (a + (b + c))[|a|..|a| + |b|] == b
  {
  }
}
