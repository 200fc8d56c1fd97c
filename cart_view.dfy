/**
  What the page shows for the cart: the state of each product's add/remove
  button, the per-product quantity label, the item-count badge, the total
  amount and the rows of the cart modal. The document is abstracted to the
  facts these read: which products have an element on the page (with name,
  image and price), which product each `.button` belongs to, and whether the
  badge and the total label exist.
 */
module CartView {
  import opened Wrappers
  import opened CartEntries
  import opened CartStore

  /** A product element's data. The price is an exact amount in the smallest currency unit. */
  datatype Product = Product(name: string, image: string, price: int)

  datatype Page = Page(
    products: map<ProductId, Product>,  // the `.product[data-product-id=...]` elements
    buttons: seq<ProductId>,            // the product of each `.button`, in document order
    hasCountBadge: bool,                // `#cart-count` exists
    hasTotalLabel: bool)                // `#total-amount` exists

  /** The two states of a product's button: class 'add-to-cart' with text "Add to Cart", or 'remove-from-cart' with "Remove from Cart". */
  datatype ButtonState = AddToCart | RemoveFromCart

  /** One row of the modal's table. */
  datatype Row = Row(id: ProductId, name: string, image: string, price: int, quantity: int, subtotal: int)

  /** The modal's content: the "Your cart is empty." message, or a table of rows. */
  datatype ModalView = EmptyMessage | Table(rows: seq<Row>)

  /** The state `updateButtons` gives a product's button: removal exactly when the product is in the cart. */
  function ButtonFor(es: seq<Entry>, id: ProductId): ButtonState {
    if Has(es, id) then RemoveFromCart else AddToCart
  }

  /** The quantity label of `updateQuantityDisplay`: nothing without a product element, otherwise `cart.get(id) || 0`. */
  function QuantityLabel(es: seq<Entry>, page: Page, id: ProductId): Option<int> {
    if id in page.products then Some(QuantityOf(es, id)) else None
  }

  /** The badge of `updateCartCount`: the sum of all quantities, when the badge exists. */
  function CountBadge(es: seq<Entry>, page: Page): Option<int> {
    if page.hasCountBadge then Some(TotalItems(es)) else None
  }

  function RowFor(e: Entry, p: Product): Row {
    Row(e.0, p.name, p.image, p.price, e.1, p.price * e.1)
  }

  /** The rows `updateCartModal` builds: one per entry, in cart order, skipping products with no element on the page. */
  function Rows(es: seq<Entry>, products: map<ProductId, Product>): (rows: seq<Row>)
    ensures |rows| <= |es|
  {
    if es == [] then []
    else
      var e := es[|es| - 1];
      Rows(es[..|es| - 1], products) + if e.0 in products then [RowFor(e, products[e.0])] else []
  }

  /** The amount `updateTotalAmount` adds up: price times quantity over the entries whose product is on the page. */
  function TotalAmount(es: seq<Entry>, products: map<ProductId, Product>): int {
    if es == [] then 0
    else
      var e := es[|es| - 1];
      TotalAmount(es[..|es| - 1], products) + if e.0 in products then products[e.0].price * e.1 else 0
  }

  function SubtotalSum(rows: seq<Row>): int {
    if rows == [] then 0 else SubtotalSum(rows[..|rows| - 1]) + rows[|rows| - 1].subtotal
  }

  /** `updateButtons`: every button on the page, in document order, set from cart membership. */
  method UpdateButtons(cart: Cart, page: Page) returns (states: seq<ButtonState>)
    ensures |states| == |page.buttons|
    ensures forall i :: 0 <= i < |states| ==> states[i] == ButtonFor(cart.entries, page.buttons[i])
  {
    states := [];
    for i := 0 to |page.buttons|
      invariant |states| == i
      invariant forall j :: 0 <= j < i ==> states[j] == ButtonFor(cart.entries, page.buttons[j])
    {
      var id := page.buttons[i];
      if Has(cart.entries, id) {
        states := states + [RemoveFromCart];
      } else {
        states := states + [AddToCart];
      }
    }
  }

  /** `updateTotalAmount`: the running sum over the cart's entries, shown when the label exists. */
  method UpdateTotalAmount(cart: Cart, page: Page) returns (shown: Option<int>)
    ensures shown == if page.hasTotalLabel then Some(TotalAmount(cart.entries, page.products)) else None
  {
    if !page.hasTotalLabel {
      return None;
    }
    var total := 0;
    for i := 0 to |cart.entries|
      invariant total == TotalAmount(cart.entries[..i], page.products)
    {
      var (id, quantity) := cart.entries[i];
      assert cart.entries[..i + 1][..i] == cart.entries[..i];
      if id in page.products {
        total := total + page.products[id].price * quantity;
      }
    }
    assert cart.entries[..|cart.entries|] == cart.entries;
    shown := Some(total);
  }

  /** `updateCartModal`: the empty-cart message for an empty cart, otherwise a row per entry whose product is on the page. */
  method UpdateCartModal(cart: Cart, page: Page) returns (view: ModalView)
    ensures view == EmptyMessage <==> |cart.entries| == 0
    ensures view.Table? ==> view.rows == Rows(cart.entries, page.products)
  {
    if |cart.entries| == 0 {
      return EmptyMessage;
    }
    var rows := [];
    for i := 0 to |cart.entries|
      invariant rows == Rows(cart.entries[..i], page.products)
    {
      var (id, quantity) := cart.entries[i];
      assert cart.entries[..i + 1][..i] == cart.entries[..i];
      if id in page.products {
        rows := rows + [RowFor((id, quantity), page.products[id])];
      }
    }
    assert cart.entries[..|cart.entries|] == cart.entries;
    view := Table(rows);
  }

  // ---------------------------------------------------------------------
  // Properties of the projections

  /** When no zero or negative quantity is stored, the button shows removal exactly when the product's quantity is above 0. */
  lemma ButtonMatchesQuantity(es: seq<Entry>, id: ProductId)
    requires AllPositive(es)
    ensures ButtonFor(es, id) == RemoveFromCart <==> QuantityOf(es, id) > 0
  {
    QuantityPositive(es, id);
  }

  /**
    For a product on the page, the label shows 0 when the product is not in
    the cart (the empty cart included), and otherwise the quantity stored
    beside its id.
   */
  lemma QuantityLabelShows(es: seq<Entry>, page: Page, id: ProductId)
    requires id in page.products
    ensures !Has(es, id) ==> QuantityLabel(es, page, id) == Some(0)
    ensures DistinctKeys(es) ==>
              forall i :: 0 <= i < |es| && es[i].0 == id ==> QuantityLabel(es, page, id) == Some(es[i].1)
  {
    if DistinctKeys(es) {
      forall i | 0 <= i < |es| && es[i].0 == id
        ensures QuantityLabel(es, page, id) == Some(es[i].1)
      {
        QuantityAt(es, i);
      }
    }
  }

  /** The rows of two runs of entries are the rows of the first followed by those of the second: rows follow cart order. */
  lemma {:induction false} RowsAppend(a: seq<Entry>, b: seq<Entry>, products: map<ProductId, Product>)
    ensures Rows(a + b, products) == Rows(a, products) + Rows(b, products)
    decreases |b|
  {
    if b != [] {
      var n := |b| - 1;
      assert (a + b)[..|a + b| - 1] == a + b[..n];
      assert (a + b)[|a + b| - 1] == b[n];
      RowsAppend(a, b[..n], products);
    } else {
      assert a + b == a;
    }
  }

  /** When every product in the cart is on the page, there is exactly one row per entry, at the entry's position. */
  lemma {:induction false} RowsAllOnPage(es: seq<Entry>, products: map<ProductId, Product>)
    requires forall i :: 0 <= i < |es| ==> es[i].0 in products
    ensures |Rows(es, products)| == |es|
    ensures forall i :: 0 <= i < |es| ==> Rows(es, products)[i] == RowFor(es[i], products[es[i].0])
  {
    if es != [] {
      RowsAllOnPage(es[..|es| - 1], products);
    }
  }

  /** Every row comes from an entry whose product is on the page, and every such entry has its row. */
  lemma {:induction false} RowsAreTheEntriesOnPage(es: seq<Entry>, products: map<ProductId, Product>)
    ensures forall row :: row in Rows(es, products) ==>
              row.id in products && (row.id, row.quantity) in es && row == RowFor((row.id, row.quantity), products[row.id])
    ensures forall e :: e in es && e.0 in products ==> RowFor(e, products[e.0]) in Rows(es, products)
  {
    if es != [] {
      var pre := es[..|es| - 1];
      RowsAreTheEntriesOnPage(pre, products);
      assert es == pre + [es[|es| - 1]];
    }
  }

  /** The modal's sub-totals add up to the total amount: both skip the same products. */
  lemma {:induction false} TotalMatchesRows(es: seq<Entry>, products: map<ProductId, Product>)
    ensures SubtotalSum(Rows(es, products)) == TotalAmount(es, products)
  {
    if es != [] {
      var pre, e := es[..|es| - 1], es[|es| - 1];
      TotalMatchesRows(pre, products);
      if e.0 in products {
        var rows := Rows(pre, products) + [RowFor(e, products[e.0])];
        assert rows[..|rows| - 1] == Rows(pre, products);
      } else {
        assert Rows(pre, products) + [] == Rows(pre, products);
      }
    }
  }

  /** The badge shows the number of items, which is 0 exactly for an empty cart when every stored quantity is at least 1. */
  lemma CountBadgeShowsItems(es: seq<Entry>, page: Page)
    requires AllPositive(es) && page.hasCountBadge
    ensures CountBadge(es, page) == Some(TotalItems(es))
    ensures CountBadge(es, page) == Some(0) <==> es == []
  {
    TotalItemsBounds(es);
  }
}
