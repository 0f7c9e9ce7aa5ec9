/** The cart provider as a store object: the in-memory cart and the storage
    slot it mirrors. Each operation computes its outcome with the transitions
    of CartLogic and then commits it: a saved cart is written to the slot and
    becomes the in-memory cart; any other outcome leaves both as they were. */
module CartStore {
  import opened CartLogic

  /** What the provider starts from: the cart kept in the slot, or an empty
      cart when the slot holds nothing. */
  function Load<P>(slot: Option<seq<Item<P>>>): seq<Item<P>>
  {
    match slot
    case None => []
    case Some(saved) => saved
  }

  class CartProvider<P> {
    /** The cart the consumers see. */
    var cart: seq<Item<P>>
    /** The persistent storage slot of the cart. */
    var stored: Option<seq<Item<P>>>

    /** The in-memory cart is the one the slot would load. */
    ghost predicate Mirrored()
      reads this
    {
      cart == Load(stored)
    }

    /** The initial load: the stored cart if there is one, otherwise empty. */
    constructor (slot: Option<seq<Item<P>>>)
      ensures stored == slot
      ensures slot.Some? ==> cart == slot.value
      ensures slot.None? ==> cart == []
      ensures Mirrored()
    {
      stored := slot;
      cart := Load(slot);
    }

    /** Writes a saved cart to the slot and to memory; other outcomes change
        nothing. */
    method Commit(r: Outcome<P>)
      modifies this
      ensures r.Saved? ==> cart == r.newCart && stored == Some(r.newCart)
      ensures !r.Saved? ==> cart == old(cart) && stored == old(stored)
      ensures r.Saved? || old(Mirrored()) ==> Mirrored()
    {
      match r
      case Saved(newCart) =>
        stored := Some(newCart);
        cart := newCart;
      case Silent =>
      case Notify(_) =>
    }

    method AddProduct(productId: int, stock: Lookup<int>, product: Lookup<Product<P>>)
      returns (r: Outcome<P>)
      requires Mirrored()
      modifies this
      ensures r == CartLogic.AddProduct(old(cart), productId, stock, product)
      ensures Mirrored()
      ensures r.Saved? ==> cart == r.newCart && stored == Some(cart)
      ensures !r.Saved? ==> cart == old(cart) && stored == old(stored)
      ensures old(WellFormed(cart)) && (product.Found? ==> product.value.id == productId)
        ==> WellFormed(cart)
    {
      if WellFormed(cart) && (product.Found? ==> product.value.id == productId) {
        AddKeepsWellFormed(cart, productId, stock, product);
      }
      r := CartLogic.AddProduct(cart, productId, stock, product);
      Commit(r);
    }

    method RemoveProduct(productId: int) returns (r: Outcome<P>)
      requires Mirrored()
      modifies this
      ensures r == CartLogic.RemoveProduct(old(cart), productId)
      ensures Mirrored()
      ensures r.Saved? ==> cart == r.newCart && stored == Some(cart)
      ensures !r.Saved? ==> cart == old(cart) && stored == old(stored)
      ensures old(WellFormed(cart)) ==> WellFormed(cart)
    {
      if WellFormed(cart) {
        RemoveKeepsWellFormed(cart, productId);
      }
      r := CartLogic.RemoveProduct(cart, productId);
      Commit(r);
    }

    method UpdateProductAmount(productId: int, amount: int, stock: Lookup<int>)
      returns (r: Outcome<P>)
      requires Mirrored()
      modifies this
      ensures r == CartLogic.UpdateProductAmount(old(cart), productId, amount, stock)
      ensures Mirrored()
      ensures r.Saved? ==> cart == r.newCart && stored == Some(cart)
      ensures !r.Saved? ==> cart == old(cart) && stored == old(stored)
      ensures old(WellFormed(cart)) ==> WellFormed(cart)
    {
      if WellFormed(cart) {
        UpdateKeepsWellFormed(cart, productId, amount, stock);
      }
      r := CartLogic.UpdateProductAmount(cart, productId, amount, stock);
      Commit(r);
    }
  }
}
