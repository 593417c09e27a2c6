/**
 * The customer page's cart: a sequence of lines, each a menu item spread with
 * a quantity. "Add to Cart", "+" and "−" produce a new sequence; the total is
 * the sum of price × quantity.
 */
module Cart {
  import opened MenuItemSchema
  import opened OrderSchema
  import opened Http

  type CartLine = LineInput

  /** Some line of `cart` is the item `id` (`cart.find(l => l._id === id)` is defined). */
  predicate InCart(cart: seq<CartLine>, id: Id) {
    exists i :: 0 <= i < |cart| && cart[i].item.id == id
  }

  /** Every quantity is at least 1 and no two lines share an id. */
  predicate WellFormed(cart: seq<CartLine>) {
    (forall i :: 0 <= i < |cart| ==> cart[i].quantity >= 1) &&
    (forall i, j :: 0 <= i < j < |cart| ==> cart[i].item.id != cart[j].item.id)
  }

  /** "Add to Cart" (offered only while the item is not in the cart): append with quantity 1. */
  function AddToCart(cart: seq<CartLine>, item: MenuItem): (r: seq<CartLine>)
  {
    cart + [LineInput(item, 1)]
  }

  /** "+": the lines of item `id` gain one; every other line stays as and where it is. */
  function Increment(cart: seq<CartLine>, id: Id): seq<CartLine>
  {
    seq(|cart|, i requires 0 <= i < |cart| =>
      if cart[i].item.id == id then cart[i].(quantity := cart[i].quantity + 1) else cart[i])
  }

  /** `.filter(l => l.quantity > 0)`. */
  function KeepPositive(cart: seq<CartLine>): (r: seq<CartLine>)
  {
    if cart == [] then []
    else (if cart[0].quantity > 0 then [cart[0]] else []) + KeepPositive(cart[1..])
  }

  /** "−": the lines of item `id` lose one, and every line left at 0 (or below) is removed. */
  function Decrement(cart: seq<CartLine>, id: Id): (r: seq<CartLine>)
  {
    KeepPositive(seq(|cart|, i requires 0 <= i < |cart| =>
      if cart[i].item.id == id then cart[i].(quantity := cart[i].quantity - 1) else cart[i]))
  }

  /** What one line adds to the total. */
  function Amount(l: CartLine): int {
    l.item.price * l.quantity
  }

  /** `cart.reduce((sum, l) => sum + l.price * l.quantity, 0)`, folded from the left. */
  function Total(cart: seq<CartLine>): int
  {
    if cart == [] then 0
    else Total(cart[..|cart| - 1]) + Amount(cart[|cart| - 1])
  }

  /** One more of a line adds its price. */
  lemma AmountUp(l: CartLine)
    ensures Amount(l.(quantity := l.quantity + 1)) == Amount(l) + l.item.price
  {
    assert l.item.price * (l.quantity + 1) == l.item.price * l.quantity + l.item.price;
  }

  /** One fewer of a line takes its price away. */
  lemma AmountDown(l: CartLine)
    ensures Amount(l.(quantity := l.quantity - 1)) == Amount(l) - l.item.price
  {
    assert l.item.price * (l.quantity - 1) == l.item.price * l.quantity - l.item.price;
  }

  // ---------------------------------------------------------------- removal

  /** The filter keeps exactly the positive lines, in their order. */
  lemma {:induction false} KeepPositiveMembers(cart: seq<CartLine>)
    ensures forall x :: x in KeepPositive(cart) <==> x in cart && x.quantity > 0
  {
    if cart != [] {
      KeepPositiveMembers(cart[1..]);
      assert cart == [cart[0]] + cart[1..];
    }
  }

  lemma {:induction false} KeepPositiveAppend(a: seq<CartLine>, b: seq<CartLine>)
    ensures KeepPositive(a + b) == KeepPositive(a) + KeepPositive(b)
  {
    if a != [] {
      assert (a + b)[1..] == a[1..] + b;
      KeepPositiveAppend(a[1..], b);
    } else {
      assert a + b == b;
    }
  }

  lemma {:induction false} KeepPositiveAllPositive(cart: seq<CartLine>)
    requires forall i :: 0 <= i < |cart| ==> cart[i].quantity > 0
    ensures KeepPositive(cart) == cart
  {
    if cart != [] {
      KeepPositiveAllPositive(cart[1..]);
    }
  }

  /** Whatever the cart held, after "−" every line has a positive quantity. */
  lemma DecrementLeavesPositive(cart: seq<CartLine>, id: Id)
    ensures forall i :: 0 <= i < |Decrement(cart, id)| ==> Decrement(cart, id)[i].quantity > 0
  {
    var mapped := seq(|cart|, i requires 0 <= i < |cart| =>
      if cart[i].item.id == id then cart[i].(quantity := cart[i].quantity - 1) else cart[i]);
    KeepPositiveMembers(mapped);
    forall i | 0 <= i < |Decrement(cart, id)| ensures Decrement(cart, id)[i].quantity > 0 {
      assert Decrement(cart, id)[i] in KeepPositive(mapped);
    }
  }

  /**
   * On a well-formed cart holding item `id` at position `k`, "−" lowers that line by one when its
   * quantity exceeds 1 and removes it when it was 1; every other line stays, in order.
   */
  lemma DecrementAt(cart: seq<CartLine>, id: Id, k: nat)
    requires WellFormed(cart) && k < |cart| && cart[k].item.id == id
    ensures cart[k].quantity > 1 ==> Decrement(cart, id) == cart[k := cart[k].(quantity := cart[k].quantity - 1)]
    ensures cart[k].quantity == 1 ==> Decrement(cart, id) == cart[..k] + cart[k + 1..]
  {
    var lowered := cart[k].(quantity := cart[k].quantity - 1);
    var mapped := seq(|cart|, i requires 0 <= i < |cart| =>
      if cart[i].item.id == id then cart[i].(quantity := cart[i].quantity - 1) else cart[i]);
    assert mapped == cart[k := lowered];
    assert mapped == cart[..k] + [lowered] + cart[k + 1..];
    KeepPositiveAppend(cart[..k] + [lowered], cart[k + 1..]);
    KeepPositiveAppend(cart[..k], [lowered]);
    KeepPositiveAllPositive(cart[..k]);
    KeepPositiveAllPositive(cart[k + 1..]);
    if cart[k].quantity > 1 {
      assert KeepPositive([lowered]) == [lowered];
    } else {
      assert KeepPositive([lowered]) == [];
    }
  }

  /** "−" of an item not in the cart changes nothing. */
  lemma DecrementAbsent(cart: seq<CartLine>, id: Id)
    requires WellFormed(cart) && !InCart(cart, id)
    ensures Decrement(cart, id) == cart
  {
    var mapped := seq(|cart|, i requires 0 <= i < |cart| =>
      if cart[i].item.id == id then cart[i].(quantity := cart[i].quantity - 1) else cart[i]);
    assert mapped == cart;
    KeepPositiveAllPositive(cart);
  }

  // ---------------------------------------------------------------- the invariant

  /** "Add to Cart", used only where the page offers it, keeps the cart well formed. */
  lemma AddKeepsWellFormed(cart: seq<CartLine>, item: MenuItem)
    requires WellFormed(cart) && !InCart(cart, item.id)
    ensures WellFormed(AddToCart(cart, item))
    ensures InCart(AddToCart(cart, item), item.id)
  {
    var r := AddToCart(cart, item);
    assert r[|cart|].item.id == item.id;
  }

  /** "+" keeps the cart well formed. */
  lemma IncrementKeepsWellFormed(cart: seq<CartLine>, id: Id)
    requires WellFormed(cart)
    ensures WellFormed(Increment(cart, id))
  {
  }

  /** "−" keeps the cart well formed. */
  lemma DecrementKeepsWellFormed(cart: seq<CartLine>, id: Id)
    requires WellFormed(cart)
    ensures WellFormed(Decrement(cart, id))
  {
    if k :| 0 <= k < |cart| && cart[k].item.id == id {
      DecrementAt(cart, id, k);
      var r := Decrement(cart, id);
      if cart[k].quantity == 1 {
        forall i, j | 0 <= i < j < |r| ensures r[i].item.id != r[j].item.id {
          var i' := if i < k then i else i + 1;
          var j' := if j < k then j else j + 1;
          assert r[i] == cart[i'] && r[j] == cart[j'];
        }
      }
    } else {
      DecrementAbsent(cart, id);
    }
  }

  // ---------------------------------------------------------------- the total

  /** The total of a concatenation is the sum of the totals. */
  lemma {:induction false} TotalAppend(a: seq<CartLine>, b: seq<CartLine>)
    ensures Total(a + b) == Total(a) + Total(b)
    decreases |b|
  {
    if b == [] {
      assert a + b == a;
    } else {
      var last := b[|b| - 1];
      assert (a + b)[..|a + b| - 1] == a + b[..|b| - 1];
      TotalAppend(a, b[..|b| - 1]);
    }
  }

  /** Adding an item raises the total by its price. */
  lemma TotalAfterAdd(cart: seq<CartLine>, item: MenuItem)
    ensures Total(AddToCart(cart, item)) == Total(cart) + item.price
  {
    assert AddToCart(cart, item)[..|cart|] == cart;
  }

  /** The total around one line: the lines before it, its amount, the lines after it. */
  lemma TotalSplit(cart: seq<CartLine>, k: nat)
    requires k < |cart|
    ensures Total(cart) == Total(cart[..k]) + Amount(cart[k]) + Total(cart[k + 1..])
  {
    assert cart == cart[..k] + [cart[k]] + cart[k + 1..];
    TotalAppend(cart[..k] + [cart[k]], cart[k + 1..]);
    TotalAppend(cart[..k], [cart[k]]);
    assert [cart[k]][..0] == [];
  }

  /** Replacing one line changes the total by the difference of that line's amounts. */
  lemma TotalReplace(cart: seq<CartLine>, k: nat, line: CartLine)
    requires k < |cart|
    ensures Total(cart[k := line]) == Total(cart) - Amount(cart[k]) + Amount(line)
  {
    var r := cart[k := line];
    assert r[..k] == cart[..k] && r[k + 1..] == cart[k + 1..];
    TotalSplit(cart, k);
    TotalSplit(r, k);
  }

  /** On a well-formed cart, "+" on item `k` changes only line `k`, raising it by one. */
  lemma IncrementAt(cart: seq<CartLine>, k: nat)
    requires WellFormed(cart) && k < |cart|
    ensures Increment(cart, cart[k].item.id) == cart[k := cart[k].(quantity := cart[k].quantity + 1)]
  {
    var id := cart[k].item.id;
    var r := Increment(cart, id);
    var e := cart[k := cart[k].(quantity := cart[k].quantity + 1)];
    forall i | 0 <= i < |cart| ensures r[i] == e[i] {
      if i < k {
        assert cart[i].item.id != cart[k].item.id;
      } else if k < i {
        assert cart[k].item.id != cart[i].item.id;
      }
    }
  }

  /** On a well-formed cart, "+" on a line raises the total by that item's price. */
  lemma TotalAfterIncrement(cart: seq<CartLine>, k: nat)
    requires WellFormed(cart) && k < |cart|
    ensures Total(Increment(cart, cart[k].item.id)) == Total(cart) + cart[k].item.price
  {
    IncrementAt(cart, k);
    TotalRaise(cart, k);
  }

  /** One more of line `k` raises the total by its price. */
  lemma TotalRaise(cart: seq<CartLine>, k: nat)
    requires k < |cart|
    ensures Total(cart[k := cart[k].(quantity := cart[k].quantity + 1)]) == Total(cart) + cart[k].item.price
  {
    TotalReplace(cart, k, cart[k].(quantity := cart[k].quantity + 1));
    AmountUp(cart[k]);
  }

  /** One fewer of line `k` lowers the total by its price. */
  lemma TotalLower(cart: seq<CartLine>, k: nat)
    requires k < |cart|
    ensures Total(cart[k := cart[k].(quantity := cart[k].quantity - 1)]) == Total(cart) - cart[k].item.price
  {
    TotalReplace(cart, k, cart[k].(quantity := cart[k].quantity - 1));
    AmountDown(cart[k]);
  }

  /** On a well-formed cart, "−" on a line lowers the total by that item's price, removal included. */
  lemma TotalAfterDecrement(cart: seq<CartLine>, k: nat)
    requires WellFormed(cart) && k < |cart|
    ensures Total(Decrement(cart, cart[k].item.id)) == Total(cart) - cart[k].item.price
  {
    var id := cart[k].item.id;
    var r := Decrement(cart, id);
    DecrementAt(cart, id, k);
    if cart[k].quantity == 1 {
      assert Amount(cart[k]) == cart[k].item.price;
      TotalSplit(cart, k);
      assert r == cart[..k] + cart[k + 1..];
      TotalAppend(cart[..k], cart[k + 1..]);
    } else {
      TotalLower(cart, k);
    }
  }
}
