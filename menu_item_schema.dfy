/**
 * The menu item schema: which documents the store accepts on save.
 * Mongoose's `required` rejects a missing String or an empty one, and a
 * missing Number (0 is accepted); `enum` rejects any category outside the list.
 */
module MenuItemSchema {
  import opened Wrappers
  import opened JsSemantics
  import opened Http

  /** The category enum, spelled as the schema spells it ("Mojio", not "Mojito"). */
  const Categories: seq<string> :=
    ["Shake", "Special", "Juice", "Icecream Cup", "Pizza", "Burger", "Grill Sandwich", "Sandwich", "Mojio"]

  /** A stored menu item: the four schema fields and the id; the schema declares no other field. */
  datatype MenuItem = MenuItem(id: Id, name: string, price: int, imageUrl: Option<string>, category: string)

  /** A document as offered to the schema; any field may be missing. */
  datatype MenuDraft = MenuDraft(name: Option<string>, price: Option<int>, imageUrl: Option<string>, category: Option<string>)

  /** Validation on save: the stored item, or None for a ValidationError. */
  function Validate(id: Id, d: MenuDraft): Option<MenuItem>
  {
    if TruthyString(d.name) && d.price.Some? && d.category.Some? && d.category.value in Categories
    then Some(MenuItem(id, d.name.value, d.price.value, d.imageUrl, d.category.value))
    else None
  }

  /** A draft is accepted exactly when name, price and an enum category are present, and is stored field for field. */
  lemma ValidateAccepts(id: Id, d: MenuDraft)
    ensures Validate(id, d).Some? <==>
      d.name.Some? && d.name.value != "" && d.price.Some? && d.category.Some? && d.category.value in Categories
    ensures Validate(id, d).Some? ==>
      Validate(id, d).value == MenuItem(id, d.name.value, d.price.value, d.imageUrl, d.category.value)
  {
  }

  /** The image is optional: leaving it out never changes whether a draft is accepted. */
  lemma ImageIsOptional(id: Id, d: MenuDraft)
    ensures Validate(id, d).Some? <==> Validate(id, d.(imageUrl := None)).Some?
  {
  }

  /** A price of 0 satisfies the schema's `required`; only the add handler's own check refuses a numeric 0. */
  lemma ZeroPriceSatisfiesSchema(id: Id, name: string, category: string)
    requires name != "" && category in Categories
    ensures Validate(id, MenuDraft(Some(name), Some(0), None, Some(category))).Some?
  {
  }

  /** The category check is membership in the nine strings, nothing else. */
  lemma CategoryMustBeInEnum(id: Id, d: MenuDraft)
    requires TruthyString(d.name) && d.price.Some? && d.category.Some?
    ensures Validate(id, d).Some? <==>
      d.category.value in {"Shake", "Special", "Juice", "Icecream Cup", "Pizza", "Burger", "Grill Sandwich", "Sandwich", "Mojio"}
  {
  }

  /** The schema accepts "Mojio" and rejects "Mojito". */
  lemma MojitoIsNotACategory()
    ensures "Mojio" in Categories && "Mojito" !in Categories
  {
  }
}
