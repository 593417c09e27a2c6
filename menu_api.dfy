/**
 * The four menu endpoints over the menu item collection, seen as a map from
 * id to item. Each handler is a pure step (reply and new collection) with its
 * properties as lemmas, and a method of `MenuStore` that performs the same
 * step on the stored map.
 */
module MenuApi {
  import opened Wrappers
  import opened JsSemantics
  import opened MenuItemSchema
  import opened Http

  /** The body of POST /api/menu/add; `available` is a field the admin page sends as well. */
  datatype AddBody = AddBody(
    name: Option<string>, price: Option<int>, imageUrl: Option<string>, category: Option<string>,
    available: Option<bool>)

  /** The body of PUT /api/menu/update, as the admin page sends it. */
  datatype UpdateBody = UpdateBody(id: Id, name: string, price: int, category: string, imageUrl: Option<string>)

  /** A handler's reply together with the collection it leaves behind. */
  datatype Step<T> = Step(reply: Reply<T>, items: map<Id, MenuItem>)

  /** Every stored item carries the id it is stored under. */
  ghost predicate WellKeyed(items: map<Id, MenuItem>) {
    forall k :: k in items ==> items[k].id == k
  }

  /** `r` is what `find({})` returns: each stored item once, nothing else. */
  ghost predicate IsListing(items: map<Id, MenuItem>, r: seq<MenuItem>) {
    |r| == |items| &&
    (forall i :: 0 <= i < |r| ==> r[i].id in items && items[r[i].id] == r[i]) &&
    (forall i, j :: 0 <= i < j < |r| ==> r[i].id != r[j].id) &&
    (forall k :: k in items ==> items[k] in r)
  }

  // ---------------------------------------------------------------- add

  /** The handler's own presence check: name, price and category must be truthy. */
  predicate HasRequiredFields(b: AddBody) {
    TruthyString(b.name) && TruthyNumber(b.price) && TruthyString(b.category)
  }

  /** The document built from the body: the four schema fields, the image defaulting to "". */
  function AddDraft(b: AddBody): (d: MenuDraft)
    ensures d.imageUrl.Some?
    ensures d.imageUrl.value == "" <==> !TruthyString(b.imageUrl)
    ensures TruthyString(b.imageUrl) ==> d.imageUrl == b.imageUrl
  {
    MenuDraft(b.name, b.price, Some(OrElse(b.imageUrl, "")), b.category)
  }

  /** POST /api/menu/add against `items`, the store assigning `freshId` to a new item. */
  function AddStep(items: map<Id, MenuItem>, verb: Verb, storeUp: bool, b: AddBody, freshId: Id): Step<MenuItem>
  {
    if verb != Post then Step(Reply(METHOD_NOT_ALLOWED, None), items)
    else if !storeUp then Step(Reply(SERVER_ERROR, None), items)
    else if !HasRequiredFields(b) then Step(Reply(BAD_REQUEST, None), items)
    else match Validate(freshId, AddDraft(b))
      case None => Step(Reply(SERVER_ERROR, None), items)
      case Some(item) => Step(Reply(CREATED, Some(item)), items[freshId := item])
  }

  /** The add handler answers 201, 400, 405 or 500, and only 201 changes the store. */
  lemma AddOutcomes(items: map<Id, MenuItem>, verb: Verb, storeUp: bool, b: AddBody, freshId: Id)
    ensures AddStep(items, verb, storeUp, b, freshId).reply.status in {CREATED, BAD_REQUEST, METHOD_NOT_ALLOWED, SERVER_ERROR}
    ensures verb != Post ==> AddStep(items, verb, storeUp, b, freshId) == Step(Reply(METHOD_NOT_ALLOWED, None), items)
    ensures AddStep(items, verb, storeUp, b, freshId).reply.status != CREATED ==>
      AddStep(items, verb, storeUp, b, freshId).items == items
  {
  }

  /** 400 exactly when a POST reaches the store with a falsy name, price or category. */
  lemma AddRejectsMissingFields(items: map<Id, MenuItem>, verb: Verb, storeUp: bool, b: AddBody, freshId: Id)
    ensures AddStep(items, verb, storeUp, b, freshId).reply.status == BAD_REQUEST <==>
      verb == Post && storeUp &&
      (b.name.None? || b.name.value == "" || b.price.None? || b.price.value == 0 ||
       b.category.None? || b.category.value == "")
  {
  }

  /** A price of 0 is refused with 400, although the schema itself would accept it. */
  lemma AddRejectsZeroPrice(items: map<Id, MenuItem>, b: AddBody, freshId: Id)
    requires b.price == Some(0)
    ensures AddStep(items, Post, true, b, freshId) == Step(Reply(BAD_REQUEST, None), items)
  {
  }

  /**
   * A POST with the required fields and an enum category stores exactly one new item, built from
   * the body's four fields (image "" when falsy), returns it with 201 and leaves the others alone.
   */
  lemma AddCreatesOne(items: map<Id, MenuItem>, b: AddBody, freshId: Id)
    requires freshId !in items
    requires HasRequiredFields(b) && b.category.value in Categories
    ensures var s := AddStep(items, Post, true, b, freshId);
      var item := MenuItem(freshId, b.name.value, b.price.value, Some(OrElse(b.imageUrl, "")), b.category.value);
      s.reply == Reply(CREATED, Some(item)) &&
      s.items.Keys == items.Keys + {freshId} && |s.items| == |items| + 1 &&
      s.items[freshId] == item &&
      (forall k :: k in items ==> s.items[k] == items[k])
  {
  }

  /** The image defaults to "" when the body has none or an empty one. */
  lemma AddDefaultsImage(items: map<Id, MenuItem>, b: AddBody, freshId: Id)
    requires !TruthyString(b.imageUrl)
    requires AddStep(items, Post, true, b, freshId).reply.status == CREATED
    ensures AddStep(items, Post, true, b, freshId).items[freshId].imageUrl == Some("")
  {
  }

  /** A category outside the enum passes the handler's check and fails the schema: 500, no insert. */
  lemma AddSchemaRejection(items: map<Id, MenuItem>, b: AddBody, freshId: Id)
    requires HasRequiredFields(b) && b.category.value !in Categories
    ensures AddStep(items, Post, true, b, freshId) == Step(Reply(SERVER_ERROR, None), items)
  {
  }

  /** Fields outside the four (such as `available`) make no difference to the outcome. */
  lemma AddIgnoresExtraFields(items: map<Id, MenuItem>, verb: Verb, storeUp: bool, b: AddBody, freshId: Id, available: Option<bool>)
    ensures AddStep(items, verb, storeUp, b, freshId) == AddStep(items, verb, storeUp, b.(available := available), freshId)
  {
  }

  /** After a successful add, listing the store returns the new item with the body's fields. */
  lemma AddThenList(items: map<Id, MenuItem>, b: AddBody, freshId: Id, r: seq<MenuItem>)
    requires AddStep(items, Post, true, b, freshId).reply.status == CREATED
    requires IsListing(AddStep(items, Post, true, b, freshId).items, r)
    ensures MenuItem(freshId, b.name.value, b.price.value, Some(OrElse(b.imageUrl, "")), b.category.value) in r
  {
    var s := AddStep(items, Post, true, b, freshId);
    assert freshId in s.items;
  }

  // ---------------------------------------------------------------- update

  /** `updateFields` applied to a stored item: name, price and category always, the image only when truthy. */
  function ApplyUpdate(item: MenuItem, b: UpdateBody): (r: MenuItem)
    ensures r.id == item.id
  {
    item.(name := b.name, price := b.price, category := b.category,
          imageUrl := if TruthyString(b.imageUrl) then b.imageUrl else item.imageUrl)
  }

  /** PUT /api/menu/update; `findByIdAndUpdate` runs no schema validators, so nothing is checked. */
  function UpdateStep(items: map<Id, MenuItem>, verb: Verb, storeUp: bool, b: UpdateBody): Step<MenuItem>
  {
    if !storeUp then Step(Reply(SERVER_ERROR, None), items)
    else if verb != Put then Step(Reply(METHOD_NOT_ALLOWED, None), items)
    else if b.id in items then
      var updated := ApplyUpdate(items[b.id], b);
      Step(Reply(OK, Some(updated)), items[b.id := updated])
    else Step(Reply(OK, None), items)
  }

  /**
   * A PUT on a stored id answers 200 with the post-update item: the body's name, price and
   * category, the body's image if truthy and the stored one otherwise; no other item changes.
   */
  lemma UpdateKnownId(items: map<Id, MenuItem>, b: UpdateBody)
    requires b.id in items
    ensures var s := UpdateStep(items, Put, true, b);
      s.reply.status == OK && s.reply.body.Some? && s.items.Keys == items.Keys &&
      s.items[b.id] == s.reply.body.value &&
      s.items[b.id].name == b.name && s.items[b.id].price == b.price && s.items[b.id].category == b.category &&
      s.items[b.id].imageUrl == (if TruthyString(b.imageUrl) then b.imageUrl else items[b.id].imageUrl) &&
      (forall k :: k in items && k != b.id ==> s.items[k] == items[k])
  {
  }

  /** An unknown id is not an error: 200 with a null item, and nothing changes. */
  lemma UpdateUnknownId(items: map<Id, MenuItem>, b: UpdateBody)
    requires b.id !in items
    ensures UpdateStep(items, Put, true, b) == Step(Reply(OK, None), items)
  {
  }

  /** Any verb but PUT answers 405 and changes nothing (when the store is reachable). */
  lemma UpdateWrongVerb(items: map<Id, MenuItem>, verb: Verb, b: UpdateBody)
    requires verb != Put
    ensures UpdateStep(items, verb, true, b) == Step(Reply(METHOD_NOT_ALLOWED, None), items)
  {
  }

  /** Unlike add, update stores a category outside the enum (for instance the form's "Mojito"). */
  lemma UpdateSkipsSchema(items: map<Id, MenuItem>, b: UpdateBody)
    requires b.id in items && b.category == "Mojito"
    ensures UpdateStep(items, Put, true, b).items[b.id].category !in Categories
  {
  }

  // ---------------------------------------------------------------- delete

  /** DELETE /api/menu/delete: an unconditional removal by id, reported as success. */
  function DeleteStep(items: map<Id, MenuItem>, verb: Verb, storeUp: bool, id: Id): Step<bool>
  {
    if !storeUp then Step(Reply(SERVER_ERROR, None), items)
    else if verb != Delete then Step(Reply(METHOD_NOT_ALLOWED, None), items)
    else Step(Reply(OK, Some(true)), items - {id})
  }

  /** After a DELETE no item has the id, every other item is unchanged, and the reply is success even for an unknown id. */
  lemma DeleteRemovesOnly(items: map<Id, MenuItem>, id: Id)
    ensures var s := DeleteStep(items, Delete, true, id);
      s.reply == Reply(OK, Some(true)) && id !in s.items &&
      s.items.Keys == items.Keys - {id} &&
      (forall k :: k in s.items ==> s.items[k] == items[k])
    ensures id !in items ==> DeleteStep(items, Delete, true, id).items == items
  {
  }

  /** A second DELETE of the same id leaves the same store and answers the same. */
  lemma DeleteIdempotent(items: map<Id, MenuItem>, id: Id)
    ensures var once := DeleteStep(items, Delete, true, id);
      DeleteStep(once.items, Delete, true, id) == once
  {
  }

  /** Any verb but DELETE answers 405 and changes nothing (when the store is reachable). */
  lemma DeleteWrongVerb(items: map<Id, MenuItem>, verb: Verb, id: Id)
    requires verb != Delete
    ensures DeleteStep(items, verb, true, id) == Step(Reply(METHOD_NOT_ALLOWED, None), items)
  {
  }

  /** An item deleted is absent from any later listing. */
  lemma DeleteThenList(items: map<Id, MenuItem>, id: Id, r: seq<MenuItem>)
    requires IsListing(DeleteStep(items, Delete, true, id).items, r)
    ensures forall i :: 0 <= i < |r| ==> r[i].id != id
  {
  }

  // ---------------------------------------------------------------- the store

  /** The menu item collection. */
  class MenuStore {
    var items: map<Id, MenuItem>

    ghost predicate Valid()
      reads this
    {
      WellKeyed(items)
    }

    constructor ()
      ensures Valid() && items == map[]
    {
      items := map[];
    }

    /** POST /api/menu/add; `freshId` is the id the store assigns to a new document. */
    method Add(verb: Verb, storeUp: bool, body: AddBody, freshId: Id) returns (reply: Reply<MenuItem>)
      requires Valid() && freshId !in items
      modifies this
      ensures Valid()
      ensures Step(reply, items) == AddStep(old(items), verb, storeUp, body, freshId)
    {
      if verb != Post {
        return Reply(METHOD_NOT_ALLOWED, None);
      }
      if !storeUp {
        return Reply(SERVER_ERROR, None);
      }
      if !HasRequiredFields(body) {
        return Reply(BAD_REQUEST, None);
      }
      var saved := Validate(freshId, AddDraft(body));
      if saved.None? {
        return Reply(SERVER_ERROR, None);
      }
      items := items[freshId := saved.value];
      reply := Reply(CREATED, saved);
    }

    /** PUT /api/menu/update. */
    method Update(verb: Verb, storeUp: bool, body: UpdateBody) returns (reply: Reply<MenuItem>)
      requires Valid()
      modifies this
      ensures Valid()
      ensures Step(reply, items) == UpdateStep(old(items), verb, storeUp, body)
    {
      if !storeUp {
        return Reply(SERVER_ERROR, None);
      }
      if verb != Put {
        return Reply(METHOD_NOT_ALLOWED, None);
      }
      var name, price, category := body.name, body.price, body.category;
      var imageUrl: Option<string> := None;
      if TruthyString(body.imageUrl) {
        imageUrl := body.imageUrl;
      }
      if body.id in items {
        var item := items[body.id];
        var updated := item.(name := name, price := price, category := category,
                             imageUrl := if imageUrl.Some? then imageUrl else item.imageUrl);
        items := items[body.id := updated];
        reply := Reply(OK, Some(updated));
      } else {
        reply := Reply(OK, None);
      }
    }

    /** DELETE /api/menu/delete. */
    method Delete(verb: Verb, storeUp: bool, id: Id) returns (reply: Reply<bool>)
      requires Valid()
      modifies this
      ensures Valid()
      ensures Step(reply, items) == DeleteStep(old(items), verb, storeUp, id)
    {
      if !storeUp {
        return Reply(SERVER_ERROR, None);
      }
      if verb != Http.Delete {
        return Reply(METHOD_NOT_ALLOWED, None);
      }
      items := items - {id};
      reply := Reply(OK, Some(true));
    }

    /** GET /api/menu/get: every stored item, unfiltered; the store is only read. */
    method List(verb: Verb, storeUp: bool) returns (reply: Reply<seq<MenuItem>>)
      requires Valid()
      ensures verb != Get ==> reply == Reply(METHOD_NOT_ALLOWED, None)
      ensures verb == Get && !storeUp ==> reply == Reply(SERVER_ERROR, None)
      ensures verb == Get && storeUp ==>
        reply.status == OK && reply.body.Some? && IsListing(items, reply.body.value)
    {
      if verb != Get {
        return Reply(METHOD_NOT_ALLOWED, None);
      }
      if !storeUp {
        return Reply(SERVER_ERROR, None);
      }
      var m := items;
      var ks := FindIds(m);
      var r := seq(|ks|, i requires 0 <= i < |ks| => m[ks[i]]);
      forall i | 0 <= i < |r|
        ensures r[i].id == ks[i]
      {
      }
      forall k | k in m
        ensures m[k] in r
      {
        var i :| 0 <= i < |ks| && ks[i] == k;
        assert r[i] == m[k];
      }
      reply := Reply(OK, Some(r));
    }
  }
}
