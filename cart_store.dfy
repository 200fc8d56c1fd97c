/**
  The page's cart singleton and its persisted copy. The script keeps one
  `Map` for the life of the page, changes it in place on every click and
  overwrites the 'cart' slot of local storage after each change; here that
  is a `Cart` object whose methods reassign its two fields.
 */
module CartStore {
  import opened Wrappers
  import opened CartEntries

  class Cart {
    /** The Map's `[id, quantity]` entries in iteration order. */
    var entries: seq<Entry>
    /** The 'cart' slot of local storage: the entries last written, or `None` when the slot is absent. */
    var slot: Option<seq<Entry>>

    /**
      Keys are distinct, and loading the slot as it stands rebuilds exactly
      the cart in memory: a reload of the page at any moment restores it.
     */
    ghost predicate Valid()
      reads this
    {
      DistinctKeys(entries) && LoadSlot(slot) == entries
    }

    /** Page load: the cart is built from whatever the slot holds, an absent slot giving an empty cart. */
    constructor Load(stored: Option<seq<Entry>>)
      ensures Valid()
      ensures entries == LoadSlot(stored) && slot == stored
      ensures stored == None ==> entries == []
    {
      LoadSlotDistinct(stored);
      entries := LoadSlot(stored);
      slot := stored;
    }

    /**
      `addToCart`: an absent product goes last with quantity 1, a present one
      gains 1 in place; the slot is then overwritten with the entries.
     */
    method AddToCart(id: ProductId)
      requires Valid()
      modifies this
      ensures Valid()
      ensures entries == Added(old(entries), id)
      ensures slot == Some(entries)
      ensures QuantityOf(entries, id) == old(QuantityOf(entries, id)) + 1
      ensures TotalItems(entries) == old(TotalItems(entries)) + 1
      ensures old(AllPositive(entries)) ==> AllPositive(entries)
    {
      AddKeepsInvariant(entries, id);
      AddRaisesCount(entries, id);
      if !Has(entries, id) {
        entries := Set(entries, id, 1);
      } else {
        entries := Set(entries, id, QuantityOf(entries, id) + 1);
      }
      LoadRoundTrip(entries);
      slot := Some(entries);
    }

    /**
      `removeFromCart`: a present product is deleted whatever its quantity and
      the slot overwritten; for an absent product nothing is written and
      nothing re-rendered. `rendered` tells whether the views were refreshed.
     */
    method RemoveFromCart(id: ProductId) returns (rendered: bool)
      requires Valid()
      modifies this
      ensures Valid()
      ensures rendered == old(Has(entries, id))
      ensures entries == Delete(old(entries), id) && !Has(entries, id)
      ensures rendered ==> slot == Some(entries)
      ensures !rendered ==> entries == old(entries) && slot == old(slot)
      ensures TotalItems(entries) == old(TotalItems(entries)) - old(QuantityOf(entries, id))
      ensures old(AllPositive(entries)) ==> AllPositive(entries)
    {
      rendered := Has(entries, id);
      RemoveKeepsInvariant(entries, id);
      TotalItemsDelete(entries, id);
      if rendered {
        entries := Delete(entries, id);
        LoadRoundTrip(entries);
        slot := Some(entries);
      }
    }

    /**
      `changeQuantity`: for a present product the quantity becomes the old one
      plus `amount`, or the entry is deleted when that is 0 or less, and the
      slot is overwritten; an absent product is left alone, unwritten.
     */
    method ChangeQuantity(id: ProductId, amount: int) returns (rendered: bool)
      requires Valid()
      modifies this
      ensures Valid()
      ensures rendered == old(Has(entries, id))
      ensures entries == Changed(old(entries), id, amount)
      ensures rendered ==> slot == Some(entries)
      ensures !rendered ==> entries == old(entries) && slot == old(slot)
      ensures rendered ==> (Has(entries, id) <==> old(QuantityOf(entries, id)) + amount > 0)
      ensures old(AllPositive(entries)) ==> AllPositive(entries)
    {
      rendered := Has(entries, id);
      ChangeKeepsInvariant(entries, id, amount);
      if rendered {
        ChangeDeletesAtZero(entries, id, amount);
        var newQuantity := QuantityOf(entries, id) + amount;
        if newQuantity <= 0 {
          assert Changed(entries, id, amount) == Delete(entries, id);
          entries := Delete(entries, id);
        } else {
          assert Changed(entries, id, amount) == Set(entries, id, newQuantity);
          entries := Set(entries, id, newQuantity);
        }
        LoadRoundTrip(entries);
        slot := Some(entries);
      }
    }

    /** The clear-cart handler: the cart is emptied and the slot removed. */
    method Clear()
      requires Valid()
      modifies this
      ensures Valid()
      ensures entries == [] && slot == None
      ensures TotalItems(entries) == 0
    {
      entries := [];
      slot := None;
    }
  }

  /** A client run: empty cart, add "A" twice, take 2 away, then clear. */
  method AddAddDecrementClear() {
    var cart := new Cart.Load(None);
    cart.AddToCart("A");
    assert QuantityOf(cart.entries, "A") == 1 && TotalItems(cart.entries) == 1;
    cart.AddToCart("A");
    assert QuantityOf(cart.entries, "A") == 2;
    var rendered := cart.ChangeQuantity("A", -2);
    assert rendered && !Has(cart.entries, "A") && QuantityOf(cart.entries, "A") == 0;
    cart.AddToCart("B");
    cart.Clear();
    assert TotalItems(cart.entries) == 0 && cart.slot == None;
  }
}
