/**
  The cart's contents as the page script holds them: an insertion-ordered
  JavaScript `Map` from product id to quantity, written here as the list of
  its `[id, quantity]` entries in iteration order. `Set` and `Delete` are
  `Map.prototype.set` and `Map.prototype.delete`; `Load` is `new Map(pairs)`.
  The transitions `Added` and `Changed` are what `addToCart` and
  `changeQuantity` do to that list.
 */
module CartEntries {
  import opened Wrappers

  type ProductId = string

  /** One `[productId, quantity]` pair, as `cart.entries()` yields it. */
  type Entry = (ProductId, int)

  /** The product ids in iteration order. */
  function Keys(es: seq<Entry>): seq<ProductId> {
    if es == [] then [] else [es[0].0] + Keys(es[1..])
  }

  /** `cart.has(k)`. */
  predicate Has(es: seq<Entry>, k: ProductId) {
    es != [] && (es[0].0 == k || Has(es[1..], k))
  }

  /** A `Map` never holds a key twice. */
  predicate DistinctKeys(es: seq<Entry>) {
    forall i, j :: 0 <= i < j < |es| ==> es[i].0 != es[j].0
  }

  /** No zero or negative quantity is stored. */
  predicate AllPositive(es: seq<Entry>) {
    forall i :: 0 <= i < |es| ==> es[i].1 >= 1
  }

  /** `cart.get(k) || 0`: the stored quantity, or 0 for a product not in the cart. */
  function QuantityOf(es: seq<Entry>, k: ProductId): (q: int)
    ensures !Has(es, k) ==> q == 0
  {
    if es == [] then 0
    else if es[0].0 == k then es[0].1
    else QuantityOf(es[1..], k)
  }

  /** `Array.from(cart.values()).reduce((acc, q) => acc + q, 0)`: the item-count badge. */
  function TotalItems(es: seq<Entry>): int {
    if es == [] then 0 else es[0].1 + TotalItems(es[1..])
  }

  /** `cart.set(k, v)`: an existing key keeps its position and takes the new value; a new key goes last. */
  function Set(es: seq<Entry>, k: ProductId, v: int): (r: seq<Entry>)
    ensures Has(r, k) && QuantityOf(r, k) == v
    ensures !Has(es, k) ==> r == es + [(k, v)]
    ensures Has(es, k) ==> |r| == |es|
  {
    if es == [] then [(k, v)]
    else if es[0].0 == k then [(k, v)] + es[1..]
    else [es[0]] + Set(es[1..], k, v)
  }

  /** `cart.delete(k)`: the entry for `k` goes; every other entry keeps its place. */
  function Delete(es: seq<Entry>, k: ProductId): (r: seq<Entry>)
    ensures !Has(es, k) ==> r == es
    ensures Has(es, k) ==> |r| == |es| - 1
  {
    if es == [] then []
    else if es[0].0 == k then es[1..]
    else [es[0]] + Delete(es[1..], k)
  }

  /** `new Map(pairs)` starting from the entries `acc`: each pair is `set` in turn, so a repeated id keeps its first position and its last quantity. */
  function LoadInto(acc: seq<Entry>, pairs: seq<Entry>): seq<Entry>
    decreases pairs
  {
    if pairs == [] then acc
    else LoadInto(Set(acc, pairs[0].0, pairs[0].1), pairs[1..])
  }

  /** `new Map(pairs)`. */
  function Load(pairs: seq<Entry>): seq<Entry> {
    LoadInto([], pairs)
  }

  /** `new Map(JSON.parse(slot) || [])`: an absent slot loads as an empty cart. */
  function LoadSlot(slot: Option<seq<Entry>>): seq<Entry> {
    match slot
    case None => []
    case Some(pairs) => Load(pairs)
  }

  /** The dictionary the entries stand for: the reference against which the list operations are checked. */
  function ToMap(es: seq<Entry>): map<ProductId, int> {
    map k | k in Keys(es) :: QuantityOf(es, k)
  }

  /** `addToCart`: an absent product is set to 1, a present one to its quantity plus 1. */
  function Added(es: seq<Entry>, k: ProductId): (r: seq<Entry>)
    ensures Has(r, k) && QuantityOf(r, k) == QuantityOf(es, k) + 1
    ensures !Has(es, k) ==> r == es + [(k, 1)]
    ensures Has(es, k) ==> |r| == |es|
  {
    if !Has(es, k) then Set(es, k, 1) else Set(es, k, QuantityOf(es, k) + 1)
  }

  /** `changeQuantity`: no change for an absent product; otherwise the sum is stored, or the entry deleted when the sum is 0 or less. */
  function Changed(es: seq<Entry>, k: ProductId, amount: int): (r: seq<Entry>)
    ensures !Has(es, k) ==> r == es
    ensures Has(es, k) && QuantityOf(es, k) + amount > 0 ==> QuantityOf(r, k) == QuantityOf(es, k) + amount
  {
    if !Has(es, k) then es
    else
      var q := QuantityOf(es, k) + amount;
      if q <= 0 then Delete(es, k) else Set(es, k, q)
  }

  // ---------------------------------------------------------------------
  // Lookup

  lemma HasCons(e: Entry, rest: seq<Entry>, k: ProductId)
    ensures Has([e] + rest, k) <==> e.0 == k || Has(rest, k)
  {
    assert ([e] + rest)[1..] == rest;
  }

  /** `has` holds exactly when some entry carries the id. */
  lemma {:induction false} HasAt(es: seq<Entry>, k: ProductId)
    ensures Has(es, k) <==> exists i :: 0 <= i < |es| && es[i].0 == k
  {
    if es != [] {
      HasAt(es[1..], k);
      if Has(es[1..], k) {
        var i :| 0 <= i < |es| - 1 && es[1..][i].0 == k;
        assert es[i + 1].0 == k;
      }
      if exists i :: 0 <= i < |es| && es[i].0 == k {
        var i :| 0 <= i < |es| && es[i].0 == k;
        if i > 0 {
          assert es[1..][i - 1].0 == k;
        }
      }
    }
  }

  /** The dictionary's key set: the ids of the entries. */
  lemma {:induction false} KeysHas(es: seq<Entry>, k: ProductId)
    ensures k in Keys(es) <==> Has(es, k)
  {
    if es != [] {
      KeysHas(es[1..], k);
    }
  }

  lemma DistinctCons(e: Entry, rest: seq<Entry>)
    ensures DistinctKeys([e] + rest) <==> !Has(rest, e.0) && DistinctKeys(rest)
  {
    var s := [e] + rest;
    assert forall i :: 0 <= i < |rest| ==> s[i + 1] == rest[i];
    HasAt(rest, e.0);
    if DistinctKeys(s) {
      forall j | 0 <= j < |rest| ensures rest[j].0 != e.0 {
        assert s[0].0 != s[j + 1].0;
      }
    }
  }

  /** In entries with distinct keys, the first pair of a suffix has an id not found in the prefix. */
  lemma DistinctSplit(acc: seq<Entry>, pairs: seq<Entry>)
    requires DistinctKeys(acc + pairs) && pairs != []
    ensures !Has(acc, pairs[0].0)
  {
    HasAt(acc, pairs[0].0);
    forall i | 0 <= i < |acc| ensures acc[i].0 != pairs[0].0 {
      assert (acc + pairs)[i] == acc[i];
      assert (acc + pairs)[|acc|] == pairs[0];
    }
  }

  /** With distinct keys, `cart.get` returns the quantity stored beside the id. */
  lemma {:induction false} QuantityAt(es: seq<Entry>, i: int)
    requires DistinctKeys(es) && 0 <= i < |es|
    ensures QuantityOf(es, es[i].0) == es[i].1
  {
    if i > 0 {
      QuantityAt(es[1..], i - 1);
    }
  }

  /** When no zero or negative quantity is stored, a product is in the cart exactly when its quantity is at least 1. */
  lemma {:induction false} QuantityPositive(es: seq<Entry>, k: ProductId)
    requires AllPositive(es)
    ensures QuantityOf(es, k) >= 1 <==> Has(es, k)
  {
    if es != [] {
      HasCons(es[0], es[1..], k);
      assert es == [es[0]] + es[1..];
      QuantityPositive(es[1..], k);
    }
  }

  // ---------------------------------------------------------------------
  // Map.set

  /** Setting one id leaves membership and quantity of every other id unchanged. */
  lemma {:induction false} SetKeepsOthers(es: seq<Entry>, k: ProductId, v: int, k': ProductId)
    requires k' != k
    ensures Has(Set(es, k, v), k') <==> Has(es, k')
    ensures QuantityOf(Set(es, k, v), k') == QuantityOf(es, k')
  {
    if es != [] {
      HasCons(es[0], es[1..], k');
      assert es == [es[0]] + es[1..];
      if es[0].0 == k {
        HasCons((k, v), es[1..], k');
      } else {
        SetKeepsOthers(es[1..], k, v, k');
        HasCons(es[0], Set(es[1..], k, v), k');
      }
    }
  }

  /** Setting an id changes no other entry and no position: each entry afterwards is the new pair or the old entry at that place. */
  lemma {:induction false} SetInPlace(es: seq<Entry>, k: ProductId, v: int)
    ensures forall i :: 0 <= i < |es| && es[i].0 != k ==> Set(es, k, v)[i] == es[i]
    ensures forall i :: 0 <= i < |Set(es, k, v)| ==>
              Set(es, k, v)[i] == (k, v) || (i < |es| && Set(es, k, v)[i] == es[i])
  {
    if es != [] && es[0].0 != k {
      SetInPlace(es[1..], k, v);
    }
  }

  /** Setting keeps keys distinct. */
  lemma {:induction false} SetKeepsDistinct(es: seq<Entry>, k: ProductId, v: int)
    requires DistinctKeys(es)
    ensures DistinctKeys(Set(es, k, v))
  {
    if es != [] {
      assert es == [es[0]] + es[1..];
      DistinctCons(es[0], es[1..]);
      if es[0].0 == k {
        DistinctCons((k, v), es[1..]);
      } else {
        SetKeepsDistinct(es[1..], k, v);
        SetKeepsOthers(es[1..], k, v, es[0].0);
        DistinctCons(es[0], Set(es[1..], k, v));
      }
    }
  }

  /** Setting a quantity of at least 1 keeps every stored quantity at least 1. */
  lemma SetKeepsPositive(es: seq<Entry>, k: ProductId, v: int)
    requires AllPositive(es) && v >= 1
    ensures AllPositive(Set(es, k, v))
  {
    SetInPlace(es, k, v);
  }

  // ---------------------------------------------------------------------
  // Map.delete

  /** Deleting one id leaves membership and quantity of every other id unchanged. */
  lemma {:induction false} DeleteKeepsOthers(es: seq<Entry>, k: ProductId, k': ProductId)
    requires k' != k
    ensures Has(Delete(es, k), k') <==> Has(es, k')
    ensures QuantityOf(Delete(es, k), k') == QuantityOf(es, k')
  {
    if es != [] {
      HasCons(es[0], es[1..], k');
      assert es == [es[0]] + es[1..];
      if es[0].0 != k {
        DeleteKeepsOthers(es[1..], k, k');
        HasCons(es[0], Delete(es[1..], k), k');
      }
    }
  }

  /** With distinct keys, deleting the id at position i removes exactly that entry: the rest keep their order. */
  lemma {:induction false} DeleteAt(es: seq<Entry>, i: int)
    requires DistinctKeys(es) && 0 <= i < |es|
    ensures Delete(es, es[i].0) == es[..i] + es[i + 1..]
  {
    if i > 0 {
      DeleteAt(es[1..], i - 1);
      assert es[1..][..i - 1] == es[1..i];
      assert es[1..][i..] == es[i + 1..];
      assert es[..i] == [es[0]] + es[1..i];
    }
  }

  /** With distinct keys, the deleted id is gone afterwards and the keys stay distinct. */
  lemma {:induction false} DeleteRemoves(es: seq<Entry>, k: ProductId)
    requires DistinctKeys(es)
    ensures DistinctKeys(Delete(es, k)) && !Has(Delete(es, k), k)
  {
    if es != [] {
      assert es == [es[0]] + es[1..];
      DistinctCons(es[0], es[1..]);
      if es[0].0 != k {
        var t := Delete(es[1..], k);
        DeleteRemoves(es[1..], k);
        DeleteKeepsOthers(es[1..], k, es[0].0);
        DistinctCons(es[0], t);
        HasCons(es[0], t, k);
      }
    }
  }

  /** Deleting keeps every stored quantity at least 1. */
  lemma {:induction false} DeleteKeepsPositive(es: seq<Entry>, k: ProductId)
    requires AllPositive(es)
    ensures AllPositive(Delete(es, k))
  {
    if es != [] && es[0].0 != k {
      DeleteKeepsPositive(es[1..], k);
    }
  }

  // ---------------------------------------------------------------------
  // The item count

  /** Setting an id's quantity to v moves the item count by v minus its old quantity. */
  lemma {:induction false} TotalItemsSet(es: seq<Entry>, k: ProductId, v: int)
    ensures TotalItems(Set(es, k, v)) == TotalItems(es) - QuantityOf(es, k) + v
  {
    if es != [] && es[0].0 != k {
      TotalItemsSet(es[1..], k, v);
      assert Set(es, k, v)[1..] == Set(es[1..], k, v);
    }
  }

  /** Deleting an id lowers the item count by its quantity. */
  lemma {:induction false} TotalItemsDelete(es: seq<Entry>, k: ProductId)
    ensures TotalItems(Delete(es, k)) == TotalItems(es) - QuantityOf(es, k)
  {
    if es != [] && es[0].0 != k {
      TotalItemsDelete(es[1..], k);
      assert Delete(es, k)[1..] == Delete(es[1..], k);
    }
  }

  /** When every stored quantity is at least 1, the count is at least the number of entries, and 0 only for the empty cart. */
  lemma {:induction false} TotalItemsBounds(es: seq<Entry>)
    requires AllPositive(es)
    ensures TotalItems(es) >= |es|
    ensures TotalItems(es) == 0 <==> es == []
  {
    if es != [] {
      TotalItemsBounds(es[1..]);
    }
  }

  // ---------------------------------------------------------------------
  // Loading the persisted entries

  /** Loading onto entries with distinct keys yields distinct keys, whatever the pairs. */
  lemma {:induction false} LoadIntoDistinct(acc: seq<Entry>, pairs: seq<Entry>)
    requires DistinctKeys(acc)
    ensures DistinctKeys(LoadInto(acc, pairs))
    decreases pairs
  {
    if pairs != [] {
      SetKeepsDistinct(acc, pairs[0].0, pairs[0].1);
      LoadIntoDistinct(Set(acc, pairs[0].0, pairs[0].1), pairs[1..]);
    }
  }

  /** Whatever the slot holds, the loaded cart has distinct keys. */
  lemma LoadSlotDistinct(slot: Option<seq<Entry>>)
    ensures DistinctKeys(LoadSlot(slot))
  {
    if slot.Some? {
      LoadIntoDistinct([], slot.value);
    }
  }

  /** Pairs with ids new to `acc` and distinct among themselves are appended in order. */
  lemma {:induction false} LoadIntoAppends(acc: seq<Entry>, pairs: seq<Entry>)
    requires DistinctKeys(acc + pairs)
    ensures LoadInto(acc, pairs) == acc + pairs
    decreases pairs
  {
    if pairs != [] {
      var e, rest := pairs[0], pairs[1..];
      var acc' := acc + [e];
      assert acc' + rest == acc + pairs by {
        assert pairs == [e] + rest;
      }
      DistinctSplit(acc, pairs);
      calc {
        LoadInto(acc, pairs);
        LoadInto(Set(acc, e.0, e.1), rest);
        LoadInto(acc', rest);
        { LoadIntoAppends(acc', rest); }
        acc' + rest;
      }
    }
  }

  /** Persistence round trip: writing out the entries of a cart and loading them rebuilds the same cart, in the same order. */
  lemma LoadRoundTrip(es: seq<Entry>)
    requires DistinctKeys(es)
    ensures LoadSlot(Some(es)) == es
  {
    assert [] + es == es;
    LoadIntoAppends([], es);
  }

  // ---------------------------------------------------------------------
  // The dictionary the entries stand for

  /** `Set` on the entries is update on the dictionary. */
  lemma SetRefines(es: seq<Entry>, k: ProductId, v: int)
    ensures ToMap(Set(es, k, v)) == ToMap(es)[k := v]
  {
    var after, before := ToMap(Set(es, k, v)), ToMap(es)[k := v];
    forall k' ensures k' in after <==> k' in before {
      KeysHas(Set(es, k, v), k');
      KeysHas(es, k');
      if k' != k {
        SetKeepsOthers(es, k, v, k');
      }
    }
    forall k' | k' in after ensures after[k'] == before[k'] {
      if k' != k {
        SetKeepsOthers(es, k, v, k');
      }
    }
    assert after == before;
  }

  /** `Delete` on the entries is key removal on the dictionary. */
  lemma DeleteRefines(es: seq<Entry>, k: ProductId)
    requires DistinctKeys(es)
    ensures ToMap(Delete(es, k)) == ToMap(es) - {k}
  {
    var after, before := ToMap(Delete(es, k)), ToMap(es) - {k};
    DeleteRemoves(es, k);
    forall k' ensures k' in after <==> k' in before {
      KeysHas(Delete(es, k), k');
      KeysHas(es, k');
      if k' != k {
        DeleteKeepsOthers(es, k, k');
      }
    }
    forall k' | k' in after ensures after[k'] == before[k'] {
      DeleteKeepsOthers(es, k, k');
    }
    assert after == before;
  }

  // ---------------------------------------------------------------------
  // The cart operations

  /** Adding touches only the added product: every other entry keeps its place and quantity. */
  lemma AddedKeepsOthers(es: seq<Entry>, k: ProductId)
    ensures forall i :: 0 <= i < |es| && es[i].0 != k ==> Added(es, k)[i] == es[i]
    ensures forall k' :: k' != k ==>
              (Has(Added(es, k), k') <==> Has(es, k')) && QuantityOf(Added(es, k), k') == QuantityOf(es, k')
  {
    var v := QuantityOf(es, k) + 1;
    assert Added(es, k) == Set(es, k, v);
    SetInPlace(es, k, v);
    forall k' | k' != k
      ensures (Has(Added(es, k), k') <==> Has(es, k')) && QuantityOf(Added(es, k), k') == QuantityOf(es, k')
    {
      SetKeepsOthers(es, k, v, k');
    }
  }

  /** Adding keeps keys distinct and, when every quantity was at least 1, keeps it so. */
  lemma AddKeepsInvariant(es: seq<Entry>, k: ProductId)
    requires DistinctKeys(es)
    ensures DistinctKeys(Added(es, k))
    ensures AllPositive(es) ==> AllPositive(Added(es, k))
  {
    var v := QuantityOf(es, k) + 1;
    assert Added(es, k) == Set(es, k, v);
    SetKeepsDistinct(es, k, v);
    if AllPositive(es) {
      QuantityPositive(es, k);
      SetKeepsPositive(es, k, v);
    }
  }

  /** Adding raises the item count by exactly 1. */
  lemma AddRaisesCount(es: seq<Entry>, k: ProductId)
    ensures TotalItems(Added(es, k)) == TotalItems(es) + 1
  {
    TotalItemsSet(es, k, QuantityOf(es, k) + 1);
  }

  /** Removing keeps keys distinct and every quantity at least 1 when it was. */
  lemma RemoveKeepsInvariant(es: seq<Entry>, k: ProductId)
    requires DistinctKeys(es)
    ensures DistinctKeys(Delete(es, k)) && !Has(Delete(es, k), k)
    ensures AllPositive(es) ==> AllPositive(Delete(es, k))
  {
    DeleteRemoves(es, k);
    if AllPositive(es) {
      DeleteKeepsPositive(es, k);
    }
  }

  /** Changing a quantity touches only that product. */
  lemma ChangedKeepsOthers(es: seq<Entry>, k: ProductId, amount: int, k': ProductId)
    requires k' != k
    ensures Has(Changed(es, k, amount), k') <==> Has(es, k')
    ensures QuantityOf(Changed(es, k, amount), k') == QuantityOf(es, k')
  {
    if Has(es, k) {
      var q := QuantityOf(es, k) + amount;
      if q <= 0 {
        DeleteKeepsOthers(es, k, k');
      } else {
        SetKeepsOthers(es, k, q, k');
      }
    }
  }

  /** Whatever the amount, changing a quantity keeps keys distinct and never stores a zero or negative quantity when none was stored. */
  lemma ChangeKeepsInvariant(es: seq<Entry>, k: ProductId, amount: int)
    requires DistinctKeys(es)
    ensures DistinctKeys(Changed(es, k, amount))
    ensures AllPositive(es) ==> AllPositive(Changed(es, k, amount))
  {
    if Has(es, k) {
      var q := QuantityOf(es, k) + amount;
      if q <= 0 {
        assert Changed(es, k, amount) == Delete(es, k);
        RemoveKeepsInvariant(es, k);
      } else {
        assert Changed(es, k, amount) == Set(es, k, q);
        SetKeepsDistinct(es, k, q);
        if AllPositive(es) {
          SetKeepsPositive(es, k, q);
        }
      }
    }
  }

  /** A change that brings the quantity to 0 or below deletes the product; otherwise it is kept with the new quantity. */
  lemma ChangeDeletesAtZero(es: seq<Entry>, k: ProductId, amount: int)
    requires DistinctKeys(es) && Has(es, k)
    ensures QuantityOf(es, k) + amount <= 0 <==> !Has(Changed(es, k, amount), k)
  {
    if QuantityOf(es, k) + amount <= 0 {
      DeleteRemoves(es, k);
    }
  }

  /** The item count moves by the amount, or drops by the whole quantity when the product is deleted, and stays put for an absent product. */
  lemma ChangeMovesCount(es: seq<Entry>, k: ProductId, amount: int)
    ensures TotalItems(Changed(es, k, amount)) ==
              TotalItems(es) + if !Has(es, k) then 0
                               else if QuantityOf(es, k) + amount <= 0 then -QuantityOf(es, k)
                               else amount
  {
    if Has(es, k) {
      var q := QuantityOf(es, k) + amount;
      if q <= 0 {
        assert Changed(es, k, amount) == Delete(es, k);
        TotalItemsDelete(es, k);
      } else {
        assert Changed(es, k, amount) == Set(es, k, q);
        TotalItemsSet(es, k, q);
      }
    }
  }

  /** Adding a product that was not in the cart and then removing it gives back the same cart, entries and order. */
  lemma AddThenRemove(es: seq<Entry>, k: ProductId)
    requires DistinctKeys(es)
    ensures !Has(Delete(Added(es, k), k), k) && QuantityOf(Delete(Added(es, k), k), k) == 0
    ensures !Has(es, k) ==> Delete(Added(es, k), k) == es
  {
    AddKeepsInvariant(es, k);
    DeleteRemoves(Added(es, k), k);
    if !Has(es, k) {
      var r := Added(es, k);
      assert r[|es|].0 == k;
      DeleteAt(r, |es|);
      assert r[..|es|] == es;
    }
  }
}
