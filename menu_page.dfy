/**
 * The customer menu page: grouping the fetched items by category, the
 * per-category collapse toggle, the search filter, the session id kept in
 * session storage, and placing the cart as an order. The page's state cells
 * are the fields of `CustomerMenu`.
 */
module MenuPage {
  import opened Wrappers
  import opened JsSemantics
  import opened MenuItemSchema
  import opened OrderSchema
  import opened Cart
  import opened Http
  import OrderApi

  // ---------------------------------------------------------------- grouping

  /** The categories of `items`, each once, in order of first appearance. */
  function FirstAppearances(items: seq<MenuItem>): (r: seq<string>)
  {
    if items == [] then []
    else
      var before := FirstAppearances(items[..|items| - 1]);
      var c := items[|items| - 1].category;
      if c in before then before else before + [c]
  }

  /** The items of category `c`, in input order. */
  function InCategory(items: seq<MenuItem>, c: string): (r: seq<MenuItem>)
  {
    if items == [] then []
    else InCategory(items[..|items| - 1], c) + (if items[|items| - 1].category == c then [items[|items| - 1]] else [])
  }

  /** A category is listed exactly when some item has it, and no category is listed twice. */
  lemma {:induction false} FirstAppearancesMembers(items: seq<MenuItem>)
    ensures forall c :: c in FirstAppearances(items) <==> exists i :: 0 <= i < |items| && items[i].category == c
    ensures forall a, b :: 0 <= a < b < |FirstAppearances(items)| ==> FirstAppearances(items)[a] != FirstAppearances(items)[b]
  {
    if items != [] {
      var p := items[..|items| - 1];
      FirstAppearancesMembers(p);
      forall c ensures c in FirstAppearances(items) <==> exists i :: 0 <= i < |items| && items[i].category == c {
        if exists i :: 0 <= i < |items| && items[i].category == c {
          var i :| 0 <= i < |items| && items[i].category == c;
          if i < |items| - 1 {
            assert p[i] == items[i];
          }
        }
        if c in FirstAppearances(p) {
          var i :| 0 <= i < |p| && p[i].category == c;
          assert items[i] == p[i];
        }
      }
    }
  }

  /**
   * Categories are listed in order of first appearance: wherever an item of a later-listed category
   * stands, an item of each earlier-listed category stands before it.
   */
  lemma {:induction false} FirstAppearanceOrder(items: seq<MenuItem>, a: nat, b: nat, j: nat)
    requires a < b < |FirstAppearances(items)|
    requires j < |items| && items[j].category == FirstAppearances(items)[b]
    ensures exists i :: 0 <= i < j && items[i].category == FirstAppearances(items)[a]
    decreases |items|
  {
    var n := |items|;
    var p := items[..n - 1];
    var r := FirstAppearances(items);
    var rp := FirstAppearances(p);
    FirstAppearancesMembers(p);
    FirstAppearancesMembers(items);
    if j < n - 1 && b < |rp| {
      assert p[j] == items[j];
      FirstAppearanceOrder(p, a, b, j);
      var i :| 0 <= i < j && p[i].category == rp[a];
      assert items[i] == p[i];
    } else if b < |rp| {
      // j is the last position and its category was already listed: use an earlier occurrence
      assert r[b] == rp[b] && r[b] in rp;
      var j' :| 0 <= j' < |p| && p[j'].category == rp[b];
      FirstAppearanceOrder(p, a, b, j');
      var i :| 0 <= i < j' && p[i].category == rp[a];
      assert items[i] == p[i];
    } else {
      // r[b] is the category that first appears at the last position
      assert r == rp + [items[n - 1].category] && b == |rp|;
      assert r[a] == rp[a] && rp[a] in rp;
      var i :| 0 <= i < |p| && p[i].category == rp[a];
      assert items[i] == p[i];
    }
  }

  /** A group holds exactly the items of its category, so every item lies in the one group of its own category. */
  lemma {:induction false} InCategoryMembers(items: seq<MenuItem>, c: string)
    ensures forall x :: x in InCategory(items, c) <==> x in items && x.category == c
  {
    if items != [] {
      var p := items[..|items| - 1];
      InCategoryMembers(p, c);
      assert items == p + [items[|items| - 1]];
    }
  }

  /** A category no item has gets an empty group. */
  lemma {:induction false} InCategoryNone(items: seq<MenuItem>, c: string)
    requires forall i :: 0 <= i < |items| ==> items[i].category != c
    ensures InCategory(items, c) == []
  {
    if items != [] {
      InCategoryNone(items[..|items| - 1], c);
    }
  }

  /**
   * `data.forEach`: push each item onto its category's list, creating the list (and so the next key
   * of the object, in insertion order) when the category is new.
   */
  method GroupByCategory(items: seq<MenuItem>) returns (groups: map<string, seq<MenuItem>>, keys: seq<string>)
    ensures keys == FirstAppearances(items)
    ensures forall c :: c in groups <==> c in keys
    ensures forall c :: c in groups ==> groups[c] == InCategory(items, c)
  {
    groups, keys := map[], [];
    for i := 0 to |items|
      invariant keys == FirstAppearances(items[..i])
      invariant forall c :: c in groups <==> c in keys
      invariant forall c :: c in groups ==> groups[c] == InCategory(items[..i], c)
    {
      var item := items[i];
      assert items[..i + 1][..i] == items[..i];
      if item.category !in groups {
        FirstAppearancesMembers(items[..i]);
        InCategoryNone(items[..i], item.category);
        groups := groups[item.category := []];
        keys := keys + [item.category];
      }
      groups := groups[item.category := groups[item.category] + [item]];
    }
    assert items[..|items|] == items;
  }

  // ---------------------------------------------------------------- collapse and search

  /** Collapsed state per category; a missing key reads as `undefined`, which is not collapsed. */
  predicate IsCollapsed(collapsed: map<string, bool>, c: string) {
    c in collapsed && collapsed[c]
  }

  /** Every category starts expanded. */
  function InitialCollapse(keys: seq<string>): (r: map<string, bool>)
    ensures forall c :: !IsCollapsed(r, c)
  {
    map c | c in keys :: false
  }

  /** The header button: `{ ...prev, [c]: !prev[c] }`. */
  function Toggle(collapsed: map<string, bool>, c: string): map<string, bool> {
    collapsed[c := !IsCollapsed(collapsed, c)]
  }

  /** The toggle flips the clicked category only, and a second click restores it. */
  lemma ToggleFlipsOne(collapsed: map<string, bool>, c: string, d: string)
    ensures IsCollapsed(Toggle(collapsed, c), c) == !IsCollapsed(collapsed, c)
    ensures d != c ==> IsCollapsed(Toggle(collapsed, c), d) == IsCollapsed(collapsed, d)
    ensures IsCollapsed(Toggle(Toggle(collapsed, c), c), d) == IsCollapsed(collapsed, d)
  {
  }

  /** `.filter(item => item.name.toLowerCase().includes(term))`. */
  function Visible(items: seq<MenuItem>, term: string): seq<MenuItem>
  {
    if items == [] then []
    else (if Includes(Lower(items[0].name), term) then [items[0]] else []) + Visible(items[1..], term)
  }

  /** An item passes the filter iff it is in the group and `term` occurs in its lowered name. */
  lemma {:induction false} VisibleMembers(items: seq<MenuItem>, term: string)
    ensures forall x :: x in Visible(items, term) <==>
      x in items && exists i :: OccursAt(Lower(x.name), term, i)
  {
    if items != [] {
      VisibleMembers(items[1..], term);
      IncludesIff(Lower(items[0].name), term);
      assert items == [items[0]] + items[1..];
    }
  }

  /** With the typed text lowered on input, an item is shown iff its lowered name contains the lowered text. */
  lemma VisibleIff(items: seq<MenuItem>, typed: string)
    ensures forall x :: x in Visible(items, Lower(typed)) <==>
      x in items && exists i :: OccursAt(Lower(x.name), Lower(typed), i)
  {
    VisibleMembers(items, Lower(typed));
  }

  /** An empty search shows every item of a group, in order. */
  lemma {:induction false} EmptySearchShowsAll(items: seq<MenuItem>)
    ensures Visible(items, "") == items
  {
    if items != [] {
      IncludesEmpty(Lower(items[0].name));
      EmptySearchShowsAll(items[1..]);
      assert items == [items[0]] + items[1..];
    }
  }

  // ---------------------------------------------------------------- session and checkout

  /** The session id: the one in session storage if truthy, otherwise the new UUID `token` (which is then stored). */
  function SessionId(stored: Option<string>, token: string): (r: string)
    ensures TruthyString(stored) ==> r == stored.value
    ensures r == token || TruthyString(stored)
  {
    OrElse(stored, token)
  }

  /** Once stored, the same session id comes back on every later visit. */
  lemma SessionIdReused(stored: Option<string>, token: string, token2: string)
    requires token != ""
    ensures SessionId(Some(SessionId(stored, token)), token2) == SessionId(stored, token)
  {
  }

  /** The JSON the page posts to /api/order/place. */
  datatype OrderRequest = OrderRequest(
    sessionId: Option<string>, table: Option<string>, items: seq<CartLine>, total: int, status: string)

  /** The order the page sends for `cart`, or None (nothing sent) when the cart is empty. */
  function OrderRequestFor(cart: seq<CartLine>, sessionId: Option<string>, table: Option<string>): (r: Option<OrderRequest>)
    ensures r.None? <==> cart == []
    ensures r.Some? ==> r.value.items == cart && r.value.total == Total(cart) && r.value.table == table
  {
    if cart == [] then None else Some(OrderRequest(sessionId, table, cart, Total(cart), "pending"))
  }

  /** The request body as the place handler reads it. */
  function AsPlaceBody(req: OrderRequest): OrderApi.PlaceBody {
    OrderApi.PlaceBody(req.table, req.items, Some(req.total), req.sessionId, Some(req.status))
  }

  /**
   * Checkout end to end: for a non-empty cart and a table, the stored order is `pending`, holds the
   * cart's lines cast to the line schema, the table, and a total equal to the cart's
   * sum of price × quantity.
   */
  lemma CheckoutStoresCartTotal(
    orders: map<Id, Order>, cart: seq<CartLine>, sessionId: Option<string>, table: string,
    cookie: Option<string>, freshToken: string, freshId: Id, now: int)
    requires cart != [] && table != "" && freshToken != "" && freshId !in orders
    ensures var req := OrderRequestFor(cart, sessionId, Some(table)).value;
      var s := OrderApi.PlaceStep(orders, Post, true, cookie, AsPlaceBody(req), freshToken, freshId, now);
      s.reply.status == CREATED && s.reply.body.Some? &&
      s.reply.body.value.total == Total(cart) && s.reply.body.value.status == Pending &&
      s.reply.body.value.items == CastLines(cart) && s.reply.body.value.table == table &&
      s.orders[freshId] == s.reply.body.value
  {
    var req := OrderRequestFor(cart, sessionId, Some(table)).value;
    OrderApi.PlaceCreatesPending(orders, cookie, AsPlaceBody(req), freshToken, freshId, now);
  }

  /** Item A (₹100) added and raised to 2, then item B (₹50) added: two lines, total ₹250. */
  lemma CheckoutScenario(a: MenuItem, b: MenuItem)
    requires a.price == 100 && b.price == 50 && a.id != b.id
    ensures var cart := AddToCart(Increment(AddToCart([], a), a.id), b);
      cart == [LineInput(a, 2), LineInput(b, 1)] && Total(cart) == 250
  {
    var cart := AddToCart(Increment(AddToCart([], a), a.id), b);
    assert cart == [LineInput(a, 2), LineInput(b, 1)];
    assert cart[..1] == [LineInput(a, 2)];
    assert [LineInput(a, 2)][..0] == [];
    assert Total([LineInput(a, 2)]) == 200;
    assert Amount(LineInput(b, 1)) == 50;
  }

  /** How the page's `fetch` of the order ended. */
  datatype FetchOutcome = Ok | NotOk | Threw

  // ---------------------------------------------------------------- the page state

  /** The state cells of the customer menu page, and the browser's session storage slot. */
  class CustomerMenu {
    var storedSessionId: Option<string>
    var sessionId: Option<string>
    var groups: map<string, seq<MenuItem>>
    var categories: seq<string>
    var cart: seq<CartLine>
    var cartOpen: bool
    var searchTerm: string
    var collapsed: map<string, bool>

    ghost predicate Valid()
      reads this
    {
      WellFormed(cart) && (forall c :: c in groups <==> c in categories) && searchTerm == Lower(searchTerm)
    }

    /** The first render, with whatever session storage already holds. */
    constructor (stored: Option<string>)
      ensures Valid()
      ensures storedSessionId == stored && sessionId == None
      ensures groups == map[] && categories == [] && cart == [] && !cartOpen && searchTerm == "" && collapsed == map[]
    {
      storedSessionId, sessionId := stored, None;
      groups, categories := map[], [];
      cart, cartOpen, searchTerm, collapsed := [], false, "", map[];
    }

    /** The session effect: reuse the stored id, or store and use `token`. */
    method InitSession(token: string)
      requires Valid()
      modifies this`storedSessionId, this`sessionId
      ensures Valid()
      ensures sessionId == Some(SessionId(old(storedSessionId), token)) && storedSessionId == sessionId
    {
      var stored := storedSessionId;
      if !TruthyString(stored) {
        stored := Some(token);
        storedSessionId := stored;
      }
      sessionId := stored;
    }

    /** The menu effect: on a fetched list, group it and expand every category; on failure, change nothing. */
    method LoadMenu(fetched: Option<seq<MenuItem>>)
      requires Valid()
      modifies this`groups, this`categories, this`collapsed
      ensures Valid()
      ensures fetched.None? ==> groups == old(groups) && categories == old(categories) && collapsed == old(collapsed)
      ensures fetched.Some? ==>
        categories == FirstAppearances(fetched.value) &&
        (forall c :: c in groups ==> groups[c] == InCategory(fetched.value, c)) &&
        collapsed == InitialCollapse(categories)
    {
      if fetched.Some? {
        var g, keys := GroupByCategory(fetched.value);
        groups, categories := g, keys;
        collapsed := InitialCollapse(keys);
      }
    }

    /** The search box: the typed text, lowered. */
    method Search(typed: string)
      requires Valid()
      modifies this`searchTerm
      ensures Valid() && searchTerm == Lower(typed)
    {
      LowerIdempotent(typed);
      searchTerm := Lower(typed);
    }

    /** A category header's button. */
    method ToggleCategory(c: string)
      requires Valid()
      modifies this`collapsed
      ensures Valid() && collapsed == Toggle(old(collapsed), c)
    {
      collapsed := collapsed[c := !(c in collapsed && collapsed[c])];
    }

    /**
     * The items a category shows: none when collapsed; otherwise exactly the items of the category
     * in whose lowered name the (lower-case) search term occurs.
     */
    function Shown(c: string): (r: seq<MenuItem>)
      reads this
      requires Valid() && c in categories
      ensures IsCollapsed(collapsed, c) ==> r == []
      ensures !IsCollapsed(collapsed, c) ==>
        forall x :: x in r <==> x in groups[c] && exists i :: OccursAt(Lower(x.name), searchTerm, i)
    {
      if c in collapsed && collapsed[c] then []
      else VisibleMembers(groups[c], searchTerm); Visible(groups[c], searchTerm)
    }

    /** "Add to Cart", which the page shows only for an item with no cart line. */
    method AddItem(item: MenuItem)
      requires Valid() && !InCart(cart, item.id)
      modifies this`cart
      ensures Valid()
      ensures cart == AddToCart(old(cart), item) && InCart(cart, item.id)
      ensures Total(cart) == Total(old(cart)) + item.price
    {
      AddKeepsWellFormed(cart, item);
      TotalAfterAdd(cart, item);
      cart := cart + [LineInput(item, 1)];
    }

    /** "+" on the line of item `id`. */
    method IncrementItem(id: Id)
      requires Valid()
      modifies this`cart
      ensures Valid() && cart == Increment(old(cart), id)
    {
      IncrementKeepsWellFormed(cart, id);
      cart := Increment(cart, id);
    }

    /** "−" on the line of item `id`. */
    method DecrementItem(id: Id)
      requires Valid()
      modifies this`cart
      ensures Valid() && cart == Decrement(old(cart), id)
    {
      DecrementKeepsWellFormed(cart, id);
      cart := Decrement(cart, id);
    }

    /** The cart drawer's open and close buttons. */
    method SetCartOpen(open: bool)
      requires Valid()
      modifies this`cartOpen
      ensures Valid() && cartOpen == open
    {
      cartOpen := open;
    }

    /**
     * "Place Order": an empty cart sends nothing; otherwise the request is sent, and only a
     * successful response empties the cart and closes the drawer.
     */
    method PlaceOrder(table: Option<string>, outcome: FetchOutcome) returns (sent: Option<OrderRequest>)
      requires Valid()
      modifies this`cart, this`cartOpen
      ensures Valid()
      ensures sent == OrderRequestFor(old(cart), sessionId, table)
      ensures sent.Some? && outcome == Ok ==> cart == [] && !cartOpen
      ensures sent.None? || outcome != Ok ==> cart == old(cart) && cartOpen == old(cartOpen)
    {
      if |cart| == 0 {
        return None;
      }
      sent := Some(OrderRequest(sessionId, table, cart, Total(cart), "pending"));
      if outcome == Ok {
        cart := [];
        cartOpen := false;
      }
    }
  }
}
