/** The pure part of the cart provider: the cart is an ordered sequence of items,
    and each of the three operations computes, from the current cart and the
    answers of the stock and product lookups, either a new cart to save or the
    notification the user sees instead. The `find`, `map`, `filter` and append
    of `useCart.tsx` are the functions Find, Increment / WithAmount, Without
    and `+ [..]` below. */
module CartLogic {

  datatype Option<T> = None | Some(value: T)

  /** The answer of a remote lookup (`GET /stock/{id}` or `GET /products/{id}`):
      either the record, or a rejected request of any kind. */
  datatype Lookup<T> = Found(value: T) | Failed

  /** A product record as the catalogue returns it; everything but the id is
      carried along untouched in `details`. */
  datatype Product<P> = Product(id: int, details: P)

  /** A cart line: a product plus the quantity in the cart. */
  datatype Item<P> = Item(id: int, amount: int, details: P)

  /** The four notifications the provider can show. */
  datatype Notice = OutOfStock | AddFailed | RemoveFailed | UpdateFailed

  /** What an operation does: save a new cart (to storage and to memory),
      return without doing anything, or show a notification and change nothing. */
  datatype Outcome<P> = Saved(newCart: seq<Item<P>>) | Silent | Notify(notice: Notice)

  /** The text shown for each notification. */
  function Message(n: Notice): string
  {
    match n
    case OutOfStock => "Quantidade solicitada fora de estoque"
    case AddFailed => "Erro na adição do produto"
    case RemoveFailed => "Erro na remoção do produto"
    case UpdateFailed => "Erro na alteração de quantidade do produto"
  }

  /** Every notice has its own text, so the user can tell them apart; the
      out-of-stock text is the one notice addProduct and updateProductAmount share. */
  lemma MessagesDistinct(n: Notice, m: Notice)
    requires n != m
    ensures Message(n) != Message(m)
  {
  }

  // ---------------------------------------------------------------------------
  // Properties of a cart

  predicate Has<P>(cart: seq<Item<P>>, id: int)
  {
    exists i :: 0 <= i < |cart| && cart[i].id == id
  }

  /** At most one item per product id. */
  predicate Unique<P>(cart: seq<Item<P>>)
  {
    forall i, j :: 0 <= i < j < |cart| ==> cart[i].id != cart[j].id
  }

  /** The cart invariant the operations keep: one item per id, each with a
      positive amount. */
  predicate WellFormed<P>(cart: seq<Item<P>>)
  {
    Unique(cart) && forall i :: 0 <= i < |cart| ==> cart[i].amount >= 1
  }

  /** Number of items carrying the given id. */
  function Count<P>(cart: seq<Item<P>>, id: int): (n: nat)
    ensures n <= |cart|
  {
    if cart == [] then 0
    else (if cart[0].id == id then 1 else 0) + Count(cart[1..], id)
  }

  // ---------------------------------------------------------------------------
  // The array operations the provider uses

  /** `cart.find(item => item.id === id)`, as the index of the item found:
      the first item with that id, or none when no item has it. */
  function Find<P>(cart: seq<Item<P>>, id: int): (r: Option<nat>)
    ensures r.Some? ==> r.value < |cart| && cart[r.value].id == id
    ensures r.Some? ==> forall j :: 0 <= j < r.value ==> cart[j].id != id
    ensures r.None? ==> forall j :: 0 <= j < |cart| ==> cart[j].id != id
  {
    if cart == [] then None
    else if cart[0].id == id then Some(0)
    else
      match Find(cart[1..], id)
      case None => None
      case Some(k) => Some(k + 1)
  }

  /** `cart.map(...)` of addProduct: every item with the id gets one more unit,
      every other item is kept as it is, in the same place. */
  function Increment<P>(cart: seq<Item<P>>, id: int): (r: seq<Item<P>>)
    ensures |r| == |cart|
    ensures forall i :: 0 <= i < |cart| ==>
      r[i] == if cart[i].id == id then cart[i].(amount := cart[i].amount + 1) else cart[i]
  {
    if cart == [] then []
    else
      var head := if cart[0].id == id then cart[0].(amount := cart[0].amount + 1) else cart[0];
      [head] + Increment(cart[1..], id)
  }

  /** `cart.map(...)` of updateProductAmount: every item with the id gets the
      given amount, every other item is kept as it is, in the same place. */
  function WithAmount<P>(cart: seq<Item<P>>, id: int, amount: int): (r: seq<Item<P>>)
    ensures |r| == |cart|
    ensures forall i :: 0 <= i < |cart| ==>
      r[i] == if cart[i].id == id then cart[i].(amount := amount) else cart[i]
  {
    if cart == [] then []
    else
      var head := if cart[0].id == id then cart[0].(amount := amount) else cart[0];
      [head] + WithAmount(cart[1..], id, amount)
  }

  /** `cart.filter(item => item.id !== id)`: the items without the id, and
      every one of them, one fewer for each item dropped. */
  function Without<P>(cart: seq<Item<P>>, id: int): (r: seq<Item<P>>)
    ensures |r| + Count(cart, id) == |cart|
    ensures forall x | x in r :: x in cart && x.id != id
    ensures forall x | x in cart && x.id != id :: x in r
  {
    if cart == [] then []
    else
      assert cart == [cart[0]] + cart[1..];
      if cart[0].id == id then Without(cart[1..], id)
      else [cart[0]] + Without(cart[1..], id)
  }

  // ---------------------------------------------------------------------------
  // The three transitions

  /** addProduct(productId), given the stock lookup and, for a product not yet
      in the cart, the product lookup. */
  function AddProduct<P>(cart: seq<Item<P>>, productId: int, stock: Lookup<int>,
                         product: Lookup<Product<P>>): (r: Outcome<P>)
    ensures !r.Silent?
    ensures r.Saved? ==> stock.Found?
    ensures r.Notify? ==> r.notice in {OutOfStock, AddFailed}
  {
    match stock
    case Failed => Notify(AddFailed)
    case Found(available) =>
      match Find(cart, productId)
      case Some(k) =>
        if cart[k].amount < available then Saved(Increment(cart, productId))
        else Notify(OutOfStock)
      case None =>
        match product
        case Failed => Notify(AddFailed)
        case Found(p) => Saved(cart + [Item(p.id, 1, p.details)])
  }

  /** removeProduct(productId): drop the id; a filter that dropped nothing is
      reported as an error. */
  function RemoveProduct<P>(cart: seq<Item<P>>, productId: int): (r: Outcome<P>)
    ensures r.Saved? || r == Notify(RemoveFailed)
    ensures r.Saved? ==> |r.newCart| < |cart|
  {
    var newCart := Without(cart, productId);
    if |newCart| != |cart| then Saved(newCart) else Notify(RemoveFailed)
  }

  /** updateProductAmount({productId, amount}), given the stock lookup (which is
      not made at all for a non-positive amount). */
  function UpdateProductAmount<P>(cart: seq<Item<P>>, productId: int, amount: int,
                                  stock: Lookup<int>): (r: Outcome<P>)
    ensures r.Silent? <==> amount <= 0
    ensures r.Saved? <==> 0 < amount && stock.Found? && amount < stock.value
    ensures r.Saved? ==> |r.newCart| == |cart|
    ensures r.Notify? ==> r.notice == if stock.Failed? then UpdateFailed else OutOfStock
  {
    if amount <= 0 then Silent
    else
      match stock
      case Failed => Notify(UpdateFailed)
      case Found(available) =>
        if amount < available then Saved(WithAmount(cart, productId, amount))
        else Notify(OutOfStock)
  }

  // ---------------------------------------------------------------------------
  // Lemmas about the array operations

  lemma {:induction false} CountZeroIffAbsent<P>(cart: seq<Item<P>>, id: int)
    ensures Count(cart, id) == 0 <==> !Has(cart, id)
  {
    if cart != [] {
      CountZeroIffAbsent(cart[1..], id);
      if Has(cart[1..], id) {
        var i :| 0 <= i < |cart[1..]| && cart[1..][i].id == id;
        assert cart[i + 1].id == id;
      }
      if Has(cart, id) && cart[0].id != id {
        var i :| 0 <= i < |cart| && cart[i].id == id;
        assert cart[1..][i - 1].id == id;
      }
    }
  }

  /** In a cart with one item per id, an item with the id is the one found. */
  lemma FindUnique<P>(cart: seq<Item<P>>, id: int, k: nat)
    requires Unique(cart) && k < |cart| && cart[k].id == id
    ensures Find(cart, id) == Some(k)
  {
  }

  /** A filter for an id no item has keeps the cart as it is. */
  lemma {:induction false} WithoutAbsent<P>(cart: seq<Item<P>>, id: int)
    requires !Has(cart, id)
    ensures Without(cart, id) == cart
  {
    if cart != [] {
      assert cart[0].id != id;
      assert !Has(cart[1..], id) by {
        forall i | 0 <= i < |cart[1..]|
          ensures cart[1..][i].id != id
        {
          assert cart[1..][i] == cart[i + 1];
        }
      }
      WithoutAbsent(cart[1..], id);
      assert cart == [cart[0]] + cart[1..];
    }
  }

  /** Filtering works item by item: it distributes over concatenation. */
  lemma {:induction false} WithoutAppend<P>(a: seq<Item<P>>, b: seq<Item<P>>, id: int)
    ensures Without(a + b, id) == Without(a, id) + Without(b, id)
  {
    if a == [] {
      assert a + b == b;
    } else {
      var ab := a + b;
      assert ab[0] == a[0] && ab[1..] == a[1..] + b;
      WithoutAppend(a[1..], b, id);
      if a[0].id == id {
        assert Without(ab, id) == Without(a[1..] + b, id);
      } else {
        assert Without(ab, id) == [a[0]] + Without(a[1..] + b, id);
        assert Without(a, id) == [a[0]] + Without(a[1..], id);
      }
    }
  }

  /** With one item per id, the items before and after the one holding an id
      do not hold it. */
  lemma UniqueOutside<P>(cart: seq<Item<P>>, id: int, k: nat)
    requires Unique(cart) && k < |cart| && cart[k].id == id
    ensures !Has(cart[..k], id) && !Has(cart[k + 1..], id)
  {
    var before, after := cart[..k], cart[k + 1..];
    forall i | 0 <= i < |before| ensures before[i].id != id {
      assert before[i] == cart[i];
    }
    forall i | 0 <= i < |after| ensures after[i].id != id {
      assert after[i] == cart[k + 1 + i];
    }
  }

  /** With one item per id, filtering a present id drops exactly that item and
      keeps the others in their order. */
  lemma WithoutDropsOne<P>(cart: seq<Item<P>>, id: int, k: nat)
    requires Unique(cart) && k < |cart| && cart[k].id == id
    ensures Without(cart, id) == cart[..k] + cart[k + 1..]
  {
    var before, after := cart[..k], cart[k + 1..];
    assert cart == before + [cart[k]] + after;
    UniqueOutside(cart, id, k);
    WithoutAbsent(before, id);
    WithoutAbsent(after, id);
    WithoutAppend(before + [cart[k]], after, id);
    WithoutAppend(before, [cart[k]], id);
    assert Without([cart[k]], id) == [];
  }

  lemma {:induction false} WithoutKeepsUnique<P>(cart: seq<Item<P>>, id: int)
    requires Unique(cart)
    ensures Unique(Without(cart, id))
  {
    if cart != [] {
      WithoutKeepsUnique(cart[1..], id);
      if cart[0].id != id {
        var rest := Without(cart[1..], id);
        forall j | 0 <= j < |rest|
          ensures cart[0].id != rest[j].id
        {
          assert rest[j] in cart[1..];
        }
      }
    }
  }

  // ---------------------------------------------------------------------------
  // addProduct

  /** An item present with fewer units than the stock gets exactly one more;
      the cart keeps its length, its order and every other item. The product
      lookup is not consulted. The new amount may reach the stock value. */
  lemma AddIncrementsExisting<P>(cart: seq<Item<P>>, productId: int, available: int,
                                 product: Lookup<Product<P>>, k: nat)
    requires Unique(cart) && k < |cart| && cart[k].id == productId
    requires cart[k].amount < available
    ensures AddProduct(cart, productId, Found(available), product).Saved?
    ensures var c := AddProduct(cart, productId, Found(available), product).newCart;
      |c| == |cart| &&
      c[k] == cart[k].(amount := cart[k].amount + 1) && c[k].amount <= available &&
      forall j :: 0 <= j < |cart| && j != k ==> c[j] == cart[j]
  {
    FindUnique(cart, productId, k);
  }

  /** A product id not in the cart is appended at the end with amount 1,
      whatever the stock says; the items before it are untouched. */
  lemma AddAppendsNew<P>(cart: seq<Item<P>>, productId: int, available: int, p: Product<P>)
    requires !Has(cart, productId)
    ensures AddProduct(cart, productId, Found(available), Found(p)) == Saved(cart + [Item(p.id, 1, p.details)])
    ensures var c := AddProduct(cart, productId, Found(available), Found(p)).newCart;
      |c| == |cart| + 1 && c[..|cart|] == cart && c[|cart|].amount == 1
  {
  }

  /** An item that already holds as many units as the stock, or more, is not
      incremented: the outcome is the out-of-stock notification. */
  lemma AddRefusedAtStock<P>(cart: seq<Item<P>>, productId: int, available: int,
                             product: Lookup<Product<P>>, k: nat)
    requires k < |cart| && cart[k].id == productId
    requires forall j :: 0 <= j < k ==> cart[j].id != productId
    requires cart[k].amount >= available
    ensures AddProduct(cart, productId, Found(available), product) == Notify(OutOfStock)
  {
    assert Find(cart, productId) == Some(k);
  }

  /** A failed stock lookup, or a failed product lookup for a new id, ends in
      the generic add error. */
  lemma AddLookupFailure<P>(cart: seq<Item<P>>, productId: int, stock: Lookup<int>,
                            product: Lookup<Product<P>>)
    requires stock.Failed? || (!Has(cart, productId) && product.Failed?)
    ensures AddProduct(cart, productId, stock, product) == Notify(AddFailed)
  {
  }

  /** The appended item takes its id from the catalogue record: when the
      catalogue answers, for an id not in the cart, with a product whose id is
      already in the cart, the saved cart has two items of that id. */
  lemma AddForeignProductDuplicates<P>(cart: seq<Item<P>>, productId: int, available: int,
                                      p: Product<P>, k: nat)
    requires !Has(cart, productId)
    requires k < |cart| && cart[k].id == p.id
    ensures AddProduct(cart, productId, Found(available), Found(p))
         == Saved(cart + [Item(p.id, 1, p.details)])
    ensures !Unique(cart + [Item(p.id, 1, p.details)])
  {
    var c := cart + [Item(p.id, 1, p.details)];
    assert c[k].id == c[|cart|].id;
  }

  /** addProduct keeps one item per id with positive amounts, provided the
      product lookup returns the product that was asked for. */
  lemma AddKeepsWellFormed<P>(cart: seq<Item<P>>, productId: int, stock: Lookup<int>,
                              product: Lookup<Product<P>>)
    requires WellFormed(cart)
    requires product.Found? ==> product.value.id == productId
    ensures var r := AddProduct(cart, productId, stock, product);
      r.Saved? ==> WellFormed(r.newCart)
  {
    var r := AddProduct(cart, productId, stock, product);
    if r.Saved? && Find(cart, productId).None? {
      var c := r.newCart;
      assert c == cart + [Item(productId, 1, product.value.details)];
      forall i, j | 0 <= i < j < |c|
        ensures c[i].id != c[j].id
      {
        if j < |cart| {
          assert c[i] == cart[i] && c[j] == cart[j];
        }
      }
    }
  }

  // ---------------------------------------------------------------------------
  // removeProduct

  /** Removal succeeds exactly when the id is in the cart; the saved cart is
      the filtered one, and otherwise the outcome is the removal error. */
  lemma RemoveOutcome<P>(cart: seq<Item<P>>, productId: int)
    ensures RemoveProduct(cart, productId).Saved? <==> Has(cart, productId)
    ensures RemoveProduct(cart, productId).Saved? ==>
      RemoveProduct(cart, productId).newCart == Without(cart, productId)
    ensures !Has(cart, productId) ==> RemoveProduct(cart, productId) == Notify(RemoveFailed)
  {
    CountZeroIffAbsent(cart, productId);
  }

  /** With one item per id, removing a present id drops exactly that item and
      keeps the rest in order: the cart gets shorter by exactly one. */
  lemma RemovePresent<P>(cart: seq<Item<P>>, productId: int, k: nat)
    requires Unique(cart) && k < |cart| && cart[k].id == productId
    ensures RemoveProduct(cart, productId) == Saved(cart[..k] + cart[k + 1..])
    ensures |RemoveProduct(cart, productId).newCart| == |cart| - 1
  {
    WithoutDropsOne(cart, productId, k);
  }

  lemma RemoveKeepsWellFormed<P>(cart: seq<Item<P>>, productId: int)
    requires WellFormed(cart)
    ensures var r := RemoveProduct(cart, productId);
      r.Saved? ==> WellFormed(r.newCart)
  {
    WithoutKeepsUnique(cart, productId);
    var c := Without(cart, productId);
    forall i | 0 <= i < |c|
      ensures c[i].amount >= 1
    {
      assert c[i] in cart;
    }
  }

  // ---------------------------------------------------------------------------
  // updateProductAmount

  /** A positive amount strictly below the stock replaces the item's amount
      exactly; length, order and every other item stay as they were. */
  lemma UpdateSetsAmount<P>(cart: seq<Item<P>>, productId: int, amount: int, available: int, k: nat)
    requires Unique(cart) && k < |cart| && cart[k].id == productId
    requires 0 < amount < available
    ensures UpdateProductAmount(cart, productId, amount, Found(available)).Saved?
    ensures var c := UpdateProductAmount(cart, productId, amount, Found(available)).newCart;
      |c| == |cart| && c[k] == cart[k].(amount := amount) &&
      forall j :: 0 <= j < |cart| && j != k ==> c[j] == cart[j]
  {
  }

  /** An accepted amount for an id that is not in the cart is a success that
      saves the cart unchanged. */
  lemma UpdateAbsentSavesSameCart<P>(cart: seq<Item<P>>, productId: int, amount: int, available: int)
    requires !Has(cart, productId)
    requires 0 < amount < available
    ensures UpdateProductAmount(cart, productId, amount, Found(available)) == Saved(cart)
  {
    var c := WithAmount(cart, productId, amount);
    forall i | 0 <= i < |cart|
      ensures c[i] == cart[i]
    {
      assert cart[i].id != productId;
    }
  }

  lemma UpdateKeepsWellFormed<P>(cart: seq<Item<P>>, productId: int, amount: int, stock: Lookup<int>)
    requires WellFormed(cart)
    ensures var r := UpdateProductAmount(cart, productId, amount, stock);
      r.Saved? ==> WellFormed(r.newCart)
  {
  }

  /** The two operations draw the stock ceiling differently: addProduct lifts
      an item one below the stock to exactly the stock, while
      updateProductAmount refuses that same amount. */
  lemma StockCeilingAsymmetry<P>(cart: seq<Item<P>>, productId: int, available: int,
                                 product: Lookup<Product<P>>, k: nat)
    requires Unique(cart) && k < |cart| && cart[k].id == productId
    requires cart[k].amount == available - 1 && available > 0
    ensures AddProduct(cart, productId, Found(available), product).Saved?
    ensures AddProduct(cart, productId, Found(available), product).newCart[k].amount == available
    ensures UpdateProductAmount(cart, productId, available, Found(available)) == Notify(OutOfStock)
  {
    AddIncrementsExisting(cart, productId, available, product, k);
  }
}
