/**
  The clicks that change the cart, and what each leaves on the per-product
  surfaces (the product's button and its quantity label). A product's
  `.button` runs `addToCart` or `removeFromCart` according to the class it
  currently shows, not according to the cart; `.additem` and `.removeitem`
  run `changeQuantity` with 1 and -1; `#clearcart` runs the clear handler.

  `ShownAsWritten` is what the script does to the surfaces. It leaves them out
  of step with the cart in two places: `changeQuantity` never refreshes the
  product's button, and the clear handler never refreshes the quantity
  labels. `ShownCorrected` refreshes both and keeps every surface in step.
 */
module CartEvents {
  import opened CartEntries
  import opened CartView

  datatype Event =
    | ClickButton(id: ProductId)     // the product's add/remove `.button`
    | ClickIncrement(id: ProductId)  // the product's `.additem`
    | ClickDecrement(id: ProductId)  // the product's `.removeitem`
    | ClickClear                     // `#clearcart`

  /** The product surfaces: the state of each product's button, and each quantity label written so far. */
  datatype Shown = Shown(buttons: map<ProductId, ButtonState>, labels: map<ProductId, int>)

  /** Every button and every label on show agrees with the cart. */
  predicate InSync(es: seq<Entry>, s: Shown) {
    && (forall id :: id in s.buttons ==> s.buttons[id] == ButtonFor(es, id))
    && (forall id :: id in s.labels ==> s.labels[id] == QuantityOf(es, id))
  }

  /** The cart after an event. The product button acts on the class it shows; a button in neither state does nothing. */
  function CartAfter(es: seq<Entry>, s: Shown, ev: Event): seq<Entry> {
    match ev
    case ClickButton(id) =>
      if id !in s.buttons then es
      else if s.buttons[id] == AddToCart then Added(es, id)
      else Delete(es, id)
    case ClickIncrement(id) => Changed(es, id, 1)
    case ClickDecrement(id) => Changed(es, id, -1)
    case ClickClear => []
  }

  /** Whether the event's handler went past its guard and re-rendered. */
  predicate Rerenders(es: seq<Entry>, s: Shown, ev: Event) {
    match ev
    case ClickButton(id) => id in s.buttons && (s.buttons[id] == AddToCart || Has(es, id))
    case ClickIncrement(id) => Has(es, id)
    case ClickDecrement(id) => Has(es, id)
    case ClickClear => true
  }

  function RefreshButton(buttons: map<ProductId, ButtonState>, es: seq<Entry>, id: ProductId): map<ProductId, ButtonState> {
    if id in buttons then buttons[id := ButtonFor(es, id)] else buttons
  }

  /** The state the script writes on the clicked button: removal after `addToCart`, adding after `removeFromCart`, whatever the cart holds. */
  function FlippedButton(state: ButtonState): ButtonState {
    if state == AddToCart then RemoveFromCart else AddToCart
  }

  /**
    The surfaces as the script leaves them: a product click flips that
    product's button and refreshes its label, a quantity click refreshes only
    its label, and clear recomputes every button but no label.
   */
  function ShownAsWritten(es: seq<Entry>, s: Shown, ev: Event): Shown {
    var after := CartAfter(es, s, ev);
    if !Rerenders(es, s, ev) then s
    else match ev
      case ClickButton(id) => Shown(s.buttons[id := FlippedButton(s.buttons[id])], s.labels[id := QuantityOf(after, id)])
      case ClickIncrement(id) => Shown(s.buttons, s.labels[id := QuantityOf(after, id)])
      case ClickDecrement(id) => Shown(s.buttons, s.labels[id := QuantityOf(after, id)])
      case ClickClear => Shown(map id | id in s.buttons :: AddToCart, s.labels)
  }

  /** The surfaces with both refreshes added: a quantity click also refreshes the button, and clear also zeroes the labels. */
  function ShownCorrected(es: seq<Entry>, s: Shown, ev: Event): Shown {
    var after := CartAfter(es, s, ev);
    if !Rerenders(es, s, ev) then s
    else match ev
      case ClickButton(id) => Shown(RefreshButton(s.buttons, after, id), s.labels[id := QuantityOf(after, id)])
      case ClickIncrement(id) => Shown(RefreshButton(s.buttons, after, id), s.labels[id := QuantityOf(after, id)])
      case ClickDecrement(id) => Shown(RefreshButton(s.buttons, after, id), s.labels[id := QuantityOf(after, id)])
      case ClickClear => Shown(map id | id in s.buttons :: AddToCart, map id | id in s.labels :: 0)
  }

  /**
    As written, taking the last unit away leaves the button on "Remove from
    Cart" for a product no longer in the cart, and from there neither the
    button nor the increment control can put it back; only clearing the cart
    (whose `updateButtons` recomputes every button) or a reload repairs it.
   */
  lemma DecrementLeavesStaleButton()
    ensures var es, s := [("p", 1)], Shown(map["p" := RemoveFromCart], map["p" := 1]);
            var es', s' := CartAfter(es, s, ClickDecrement("p")), ShownAsWritten(es, s, ClickDecrement("p"));
            && InSync(es, s)
            && es' == [] && s'.buttons["p"] == RemoveFromCart
            && !InSync(es', s')
            && CartAfter(es', s', ClickButton("p")) == es'
            && CartAfter(es', s', ClickIncrement("p")) == es'
            && var cleared := ShownAsWritten(es', s', ClickClear);
               cleared.buttons["p"] == AddToCart && CartAfter([], cleared, ClickButton("p")) == [("p", 1)]
  {
    var es, s := [("p", 1)], Shown(map["p" := RemoveFromCart], map["p" := 1]);
    assert Has(es, "p") && QuantityOf(es, "p") == 1;
  }

  /**
    As written, once a product is out of the cart with its button left on
    "Remove from Cart", every event but clear keeps it out of the cart and
    its button stale: its own button runs `removeFromCart`, which does
    nothing for an absent product, its quantity controls do nothing, and no
    other product's click touches it.
   */
  lemma StaleButtonStuck(es: seq<Entry>, s: Shown, p: ProductId, ev: Event)
    requires !Has(es, p) && p in s.buttons && s.buttons[p] == RemoveFromCart
    requires !ev.ClickClear?
    ensures !Has(CartAfter(es, s, ev), p)
    ensures p in ShownAsWritten(es, s, ev).buttons && ShownAsWritten(es, s, ev).buttons[p] == RemoveFromCart
  {
    match ev
    case ClickButton(id) =>
      if id != p && id in s.buttons {
        if s.buttons[id] == AddToCart {
          AddedKeepsOthers(es, id);
        } else {
          DeleteKeepsOthers(es, id, p);
        }
      }
    case ClickIncrement(id) =>
      if id != p {
        ChangedKeepsOthers(es, id, 1, p);
      }
    case ClickDecrement(id) =>
      if id != p {
        ChangedKeepsOthers(es, id, -1, p);
      }
  }

  /** As written, clearing the cart leaves each quantity label showing its old number. */
  lemma ClearLeavesStaleLabel()
    ensures var es, s := [("p", 2)], Shown(map["p" := RemoveFromCart], map["p" := 2]);
            var es', s' := CartAfter(es, s, ClickClear), ShownAsWritten(es, s, ClickClear);
            && InSync(es, s)
            && es' == [] && s'.labels["p"] == 2
            && !InSync(es', s')
  {
    assert Has([("p", 2)], "p");
  }

  /**
    With distinct keys, the fixed state the script writes on a clicked product
    button is the state its cart membership calls for, so it is the refresh
    `updateButtons` would have made.
   */
  lemma FlippedButtonMatchesCart(es: seq<Entry>, s: Shown, id: ProductId)
    requires DistinctKeys(es) && InSync(es, s)
    requires id in s.buttons && Rerenders(es, s, ClickButton(id))
    ensures FlippedButton(s.buttons[id]) == ButtonFor(CartAfter(es, s, ClickButton(id)), id)
    ensures ShownAsWritten(es, s, ClickButton(id)) == ShownCorrected(es, s, ClickButton(id))
  {
    if s.buttons[id] == RemoveFromCart {
      DeleteRemoves(es, id);
    }
  }

  /** As written, product-button and increment clicks do keep the surfaces in step when every stored quantity is at least 1. */
  lemma AsWrittenKeepsSyncOnAddAndIncrement(es: seq<Entry>, s: Shown, ev: Event)
    requires DistinctKeys(es) && AllPositive(es) && InSync(es, s)
    requires ev.ClickButton? || ev.ClickIncrement?
    ensures InSync(CartAfter(es, s, ev), ShownAsWritten(es, s, ev))
  {
    if Rerenders(es, s, ev) {
      if ev.ClickIncrement? {
        QuantityPositive(es, ev.id);
        assert ShownAsWritten(es, s, ev) == ShownCorrected(es, s, ev);
      } else {
        FlippedButtonMatchesCart(es, s, ev.id);
      }
      CorrectedKeepsSync(es, s, ev);
    }
  }

  /** With both refreshes added, every event keeps every button and label in step with the cart, and the keys distinct. */
  lemma CorrectedKeepsSync(es: seq<Entry>, s: Shown, ev: Event)
    requires DistinctKeys(es) && InSync(es, s)
    ensures DistinctKeys(CartAfter(es, s, ev))
    ensures InSync(CartAfter(es, s, ev), ShownCorrected(es, s, ev))
  {
    match ev
    case ClickButton(id) => ButtonClickKeepsSync(es, s, id);
    case ClickIncrement(_) => QuantityClickKeepsSync(es, s, ev);
    case ClickDecrement(_) => QuantityClickKeepsSync(es, s, ev);
    case ClickClear =>
  }

  lemma ButtonClickKeepsSync(es: seq<Entry>, s: Shown, id: ProductId)
    requires DistinctKeys(es) && InSync(es, s)
    ensures DistinctKeys(CartAfter(es, s, ClickButton(id)))
    ensures InSync(CartAfter(es, s, ClickButton(id)), ShownCorrected(es, s, ClickButton(id)))
  {
    var after := CartAfter(es, s, ClickButton(id));
    if id in s.buttons && s.buttons[id] == AddToCart {
      AddKeepsInvariant(es, id);
      AddedKeepsOthers(es, id);
    } else if id in s.buttons {
      RemoveKeepsInvariant(es, id);
      forall k | k != id ensures (Has(after, k) <==> Has(es, k)) && QuantityOf(after, k) == QuantityOf(es, k) {
        DeleteKeepsOthers(es, id, k);
      }
    }
  }

  lemma QuantityClickKeepsSync(es: seq<Entry>, s: Shown, ev: Event)
    requires DistinctKeys(es) && InSync(es, s)
    requires ev.ClickIncrement? || ev.ClickDecrement?
    ensures DistinctKeys(CartAfter(es, s, ev))
    ensures InSync(CartAfter(es, s, ev), ShownCorrected(es, s, ev))
  {
    var amount := if ev.ClickIncrement? then 1 else -1;
    var after := Changed(es, ev.id, amount);
    assert CartAfter(es, s, ev) == after;
    ChangeKeepsInvariant(es, ev.id, amount);
    forall k | k != ev.id ensures (Has(after, k) <==> Has(es, k)) && QuantityOf(after, k) == QuantityOf(es, k) {
      ChangedKeepsOthers(es, ev.id, amount, k);
    }
  }
}
