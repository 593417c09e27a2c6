/**
 * The admin dashboard's local bookkeeping: the form and its check before an
 * add, the menu list it keeps in step with the store after add, update and
 * delete, the show/hide toggle, and the pending-order list replaced by each
 * poll and pruned after "Clear Order". Its state cells are the fields of
 * `AdminDashboard`; each request's outcome is an input.
 */
module AdminPage {
  import opened Wrappers
  import opened MenuItemSchema
  import opened OrderSchema
  import opened Http
  import MenuApi

  /** The form's category choices, spelled as the form spells them ("Mojito"). */
  const FormCategories: seq<string> :=
    ["Shake", "Special", "Juice", "Icecream Cup", "Pizza", "Burger", "Grill Sandwich", "Sandwich", "Mojito"]

  /** How a request of the page ended: a response it treats as success, any other response, or a thrown error. */
  datatype Answer<T> = Ok(value: T) | NotOk | Threw

  /** What the order poll received. */
  datatype OrdersFetch = OrdersReply(success: bool, orders: Option<seq<Order>>) | OrdersThrew

  // ---------------------------------------------------------------- list bookkeeping

  /** `list.filter(x => x._id !== id)`. */
  function RemoveById<T>(s: seq<T>, idOf: T -> Id, id: Id): seq<T>
  {
    if s == [] then []
    else (if idOf(s[0]) != id then [s[0]] else []) + RemoveById(s[1..], idOf, id)
  }

  /** The filter drops exactly the entries with that id. */
  lemma {:induction false} RemoveByIdMembers<T>(s: seq<T>, idOf: T -> Id, id: Id)
    ensures forall x :: x in RemoveById(s, idOf, id) <==> x in s && idOf(x) != id
  {
    if s != [] {
      RemoveByIdMembers(s[1..], idOf, id);
      assert s == [s[0]] + s[1..];
    }
  }

  /** The filter works piecewise, so the kept entries stay in their order. */
  lemma {:induction false} RemoveByIdAppend<T>(a: seq<T>, b: seq<T>, idOf: T -> Id, id: Id)
    ensures RemoveById(a + b, idOf, id) == RemoveById(a, idOf, id) + RemoveById(b, idOf, id)
  {
    if a == [] {
      assert a + b == b;
    } else {
      assert (a + b)[1..] == a[1..] + b;
      RemoveByIdAppend(a[1..], b, idOf, id);
    }
  }

  /** With no entry of that id, the list is unchanged. */
  lemma {:induction false} RemoveByIdAbsent<T>(s: seq<T>, idOf: T -> Id, id: Id)
    requires forall i :: 0 <= i < |s| ==> idOf(s[i]) != id
    ensures RemoveById(s, idOf, id) == s
  {
    if s != [] {
      RemoveByIdAbsent(s[1..], idOf, id);
      assert s == [s[0]] + s[1..];
    }
  }

  /**
   * `list.map(x => x._id === id ? replacement : x)`: the list keeps its length, and every entry of
   * the result is either the replacement or an entry of the list with another id.
   */
  function ReplaceById(s: seq<MenuItem>, id: Id, replacement: MenuItem): (r: seq<MenuItem>)
    ensures |r| == |s|
    ensures forall x :: x in r ==> x == replacement || (x in s && x.id != id)
  {
    seq(|s|, i requires 0 <= i < |s| => if s[i].id == id then replacement else s[i])
  }

  /** On a list with distinct ids, replacing entry `k`'s id is a point update at `k`; nothing else moves. */
  lemma ReplaceByIdAt(s: seq<MenuItem>, k: nat, replacement: MenuItem)
    requires k < |s| && forall i, j :: 0 <= i < j < |s| ==> s[i].id != s[j].id
    ensures ReplaceById(s, s[k].id, replacement) == s[k := replacement]
  {
    var r := ReplaceById(s, s[k].id, replacement);
    forall i | 0 <= i < |s| ensures r[i] == s[k := replacement][i] {
      if i < k {
        assert s[i].id != s[k].id;
      } else if k < i {
        assert s[k].id != s[i].id;
      }
    }
  }

  /** Apart from the entries with the edited id, replacing leaves the list as it was, in order. */
  lemma {:induction false} ReplaceByIdOthers(s: seq<MenuItem>, id: Id, replacement: MenuItem)
    requires replacement.id == id
    ensures RemoveById(ReplaceById(s, id, replacement), ItemId, id) == RemoveById(s, ItemId, id)
  {
    if s != [] {
      ReplaceByIdOthers(s[1..], id, replacement);
      assert ReplaceById(s, id, replacement)[1..] == ReplaceById(s[1..], id, replacement);
    }
  }

  /** With no entry of that id (nothing being edited matches), the list is unchanged. */
  lemma ReplaceByIdAbsent(s: seq<MenuItem>, id: Id, replacement: MenuItem)
    requires forall i :: 0 <= i < |s| ==> s[i].id != id
    ensures ReplaceById(s, id, replacement) == s
  {
  }

  function OrderId(o: Order): Id { o.id }
  function ItemId(m: MenuItem): Id { m.id }

  /** The poll's result handling: the orders of a successful reply (or none), and an empty list otherwise. */
  function OrdersAfterFetch(f: OrdersFetch): (r: seq<Order>)
    ensures f.OrdersThrew? || !f.success ==> r == []
    ensures f.OrdersReply? && f.success && f.orders.Some? ==> r == f.orders.value
    ensures f.OrdersReply? && f.success && f.orders.None? ==> r == []
    ensures r != [] ==> f == OrdersReply(true, Some(r))
  {
    match f
    case OrdersThrew => []
    case OrdersReply(success, orders) => if success then orders.GetOr([]) else []
  }

  // ---------------------------------------------------------------- the form against the store

  /** The form check before an add; the price field holds 0 for an empty input. */
  predicate FormComplete(name: string, price: int, category: string) {
    name != "" && price != 0 && category != ""
  }

  /** The body the page posts to /api/menu/add (with `available: true`). */
  function AddBodyFor(name: string, price: int, imageUrl: string, category: string): MenuApi.AddBody {
    MenuApi.AddBody(Some(name), Some(price), Some(imageUrl), Some(category), Some(true))
  }

  /** The page's check and the handler's check agree: a body that passes one passes the other. */
  lemma FormCheckMatchesHandler(name: string, price: int, imageUrl: string, category: string)
    ensures FormComplete(name, price, category) <==> MenuApi.HasRequiredFields(AddBodyFor(name, price, imageUrl, category))
  {
  }

  /**
   * The form offers "Mojito", which passes the page's check and the handler's, and then fails the
   * schema's enum: the add answers 500 and nothing is stored.
   */
  lemma FormMojitoRejected(items: map<Id, MenuItem>, name: string, price: int, imageUrl: string, freshId: Id)
    requires FormComplete(name, price, "Mojito")
    ensures "Mojito" in FormCategories && "Mojito" !in Categories
    ensures MenuApi.AddStep(items, Post, true, AddBodyFor(name, price, imageUrl, "Mojito"), freshId) ==
      MenuApi.Step(Reply(SERVER_ERROR, None), items)
  {
    MenuApi.AddSchemaRejection(items, AddBodyFor(name, price, imageUrl, "Mojito"), freshId);
  }

  /** Every other category the form offers is one the schema accepts. */
  lemma FormCategoriesAgreeButOne(i: nat)
    requires i < |FormCategories|
    ensures FormCategories[i] in Categories <==> FormCategories[i] != "Mojito"
  {
  }

  // ---------------------------------------------------------------- the page state

  class AdminDashboard {
    var name: string
    var price: int
    var category: string
    var imageUrl: string
    var menuItems: seq<MenuItem>
    var editingItem: Option<Id>
    var orders: seq<Order>
    var menuVisible: bool

    /** The form is in its reset state: every field empty, nothing being edited. */
    ghost predicate FormCleared()
      reads this
    {
      name == "" && price == 0 && category == "" && imageUrl == "" && editingItem == None
    }

    constructor ()
      ensures FormCleared() && menuItems == [] && orders == [] && !menuVisible
    {
      name, price, category, imageUrl := "", 0, "", "";
      menuItems, editingItem, orders, menuVisible := [], None, [], false;
    }

    /** `resetForm`. */
    method ResetForm()
      modifies this`name, this`price, this`category, this`imageUrl, this`editingItem
      ensures FormCleared()
    {
      name := "";
      price := 0;
      category := "";
      imageUrl := "";
      editingItem := None;
    }

    /** One tick of the order poll: the list is replaced wholesale. */
    method ApplyOrdersFetch(f: OrdersFetch)
      modifies this`orders
      ensures orders == OrdersAfterFetch(f)
    {
      if f.OrdersReply? && f.success {
        orders := f.orders.GetOr([]);
      } else {
        orders := [];
      }
    }

    /**
     * "Show/Hide Menu": a visible list is hidden without a request; otherwise the menu is fetched
     * and, if that succeeded, stored and shown. `fetched` is the request's result.
     */
    method ToggleMenu(fetched: Option<seq<MenuItem>>) returns (requested: bool)
      modifies this`menuItems, this`menuVisible
      ensures requested == !old(menuVisible)
      ensures old(menuVisible) ==> !menuVisible && menuItems == old(menuItems)
      ensures !old(menuVisible) && fetched.Some? ==> menuVisible && menuItems == fetched.value
      ensures !old(menuVisible) && fetched.None? ==> !menuVisible && menuItems == old(menuItems)
    {
      if menuVisible {
        menuVisible := false;
        return false;
      }
      requested := true;
      if fetched.Some? {
        menuItems := fetched.value;
        menuVisible := true;
      }
    }

    /** "Clear Order": after confirmation, mark it ready; on `success`, drop it from the list. */
    method ClearOrder(orderId: Id, confirmed: bool, answer: Answer<()>) returns (requested: bool)
      modifies this`orders
      ensures requested == confirmed
      ensures confirmed && answer.Ok? ==> orders == RemoveById(old(orders), OrderId, orderId)
      ensures !confirmed || !answer.Ok? ==> orders == old(orders)
    {
      if !confirmed {
        return false;
      }
      requested := true;
      if answer.Ok? {
        orders := RemoveById(orders, OrderId, orderId);
      }
    }

    /** "Delete": after confirmation, the item leaves the list once the request returns, whatever its status. */
    method DeleteItem(id: Id, confirmed: bool, answer: Answer<()>) returns (requested: bool)
      modifies this`menuItems
      ensures requested == confirmed
      ensures confirmed && !answer.Threw? ==> menuItems == RemoveById(old(menuItems), ItemId, id)
      ensures !confirmed || answer.Threw? ==> menuItems == old(menuItems)
    {
      if !confirmed {
        return false;
      }
      requested := true;
      if !answer.Threw? {
        menuItems := RemoveById(menuItems, ItemId, id);
      }
    }

    /** "Edit": load the item into the form and remember its id. */
    method Edit(item: MenuItem)
      modifies this`name, this`price, this`category, this`imageUrl, this`editingItem
      ensures name == item.name && price == item.price && category == item.category
      ensures imageUrl == item.imageUrl.GetOr("") && editingItem == Some(item.id)
    {
      name := item.name;
      price := item.price;
      category := item.category;
      imageUrl := item.imageUrl.GetOr("");
      editingItem := Some(item.id);
    }

    /**
     * "Update Menu Item": with nothing being edited, no request; otherwise the form is sent and a
     * successful answer replaces the edited entry and resets the form.
     */
    method UpdateItem(answer: Answer<MenuItem>) returns (sent: Option<MenuApi.UpdateBody>)
      modifies this`name, this`price, this`category, this`imageUrl, this`editingItem, this`menuItems
      ensures old(editingItem).None? ==> sent.None? && unchanged(this)
      ensures old(editingItem).Some? ==>
        sent == Some(MenuApi.UpdateBody(old(editingItem).value, old(name), old(price), old(category), Some(old(imageUrl))))
      ensures old(editingItem).Some? && answer.Ok? ==>
        menuItems == ReplaceById(old(menuItems), old(editingItem).value, answer.value) && FormCleared()
      ensures old(editingItem).Some? && !answer.Ok? ==> unchanged(this)
    {
      if editingItem.None? {
        return None;
      }
      var id := editingItem.value;
      sent := Some(MenuApi.UpdateBody(id, name, price, category, Some(imageUrl)));
      if answer.Ok? {
        menuItems := ReplaceById(menuItems, id, answer.value);
        ResetForm();
      }
    }

    /**
     * "Add Menu Item": an incomplete form sends nothing; otherwise the form is sent and a successful
     * answer resets the form and appends the returned item.
     */
    method AddItem(answer: Answer<MenuItem>) returns (sent: Option<MenuApi.AddBody>)
      modifies this`name, this`price, this`category, this`imageUrl, this`editingItem, this`menuItems
      ensures !FormComplete(old(name), old(price), old(category)) ==> sent.None? && unchanged(this)
      ensures FormComplete(old(name), old(price), old(category)) ==>
        sent == Some(AddBodyFor(old(name), old(price), old(imageUrl), old(category)))
      ensures FormComplete(old(name), old(price), old(category)) && answer.Ok? ==>
        menuItems == old(menuItems) + [answer.value] && FormCleared()
      ensures FormComplete(old(name), old(price), old(category)) && !answer.Ok? ==> unchanged(this)
    {
      if name == "" || price == 0 || category == "" {
        return None;
      }
      sent := Some(AddBodyFor(name, price, imageUrl, category));
      if answer.Ok? {
        ResetForm();
        menuItems := menuItems + [answer.value];
      }
    }
  }
}
