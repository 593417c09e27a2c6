/**
 * The order schema: the status enum with its default, the shape of an order
 * line, the required fields and the timestamps Mongoose adds.
 */
module OrderSchema {
  import opened Wrappers
  import opened JsSemantics
  import opened MenuItemSchema
  import opened Http

  datatype Status = Pending | InProgress | Ready

  /** The enum strings of `status`. */
  const StatusNames: seq<string> := ["pending", "in-progress", "ready"]

  function StatusName(s: Status): (r: string)
    ensures r in StatusNames
  {
    match s
    case Pending => "pending"
    case InProgress => "in-progress"
    case Ready => "ready"
  }

  /** The enum check on `status`: None for a string outside the enum. */
  function ParseStatus(x: string): (r: Option<Status>)
    ensures r.Some? <==> x in StatusNames
  {
    if x == "pending" then Some(Pending)
    else if x == "in-progress" then Some(InProgress)
    else if x == "ready" then Some(Ready)
    else None
  }

  /** Naming a status and parsing it back gives the same status, and parsing only accepts names. */
  lemma StatusRoundTrip(s: Status, x: string)
    ensures ParseStatus(StatusName(s)) == Some(s)
    ensures ParseStatus(x) == Some(s) ==> StatusName(s) == x
  {
  }

  /**
   * The `status` path: a status results iff the given string is absent or in the enum, and its
   * name is the given string, or `pending` when none was given.
   */
  function StatusOrDefault(given: Option<string>): (r: Option<Status>)
    ensures r.Some? <==> given.None? || given.value in StatusNames
    ensures r.Some? ==> StatusName(r.value) == given.GetOr("pending")
  {
    match given
    case None => Some(Pending)
    case Some(x) => ParseStatus(x)
  }

  /** A line as stored: exactly `_id`, `name`, `price` and `quantity`. */
  datatype OrderLine = OrderLine(id: Id, name: string, price: int, quantity: int)

  /** A line as a client sends it: a menu item spread with a quantity (`{ ...item, quantity }`). */
  datatype LineInput = LineInput(item: MenuItem, quantity: int)

  /** The strict schema keeps the four declared line fields and drops the rest (image, category). */
  function CastLine(l: LineInput): OrderLine
  {
    OrderLine(l.item.id, l.item.name, l.item.price, l.quantity)
  }

  function CastLines(ls: seq<LineInput>): seq<OrderLine>
  {
    seq(|ls|, i requires 0 <= i < |ls| => CastLine(ls[i]))
  }

  /** Two lines that differ only in fields the schema does not declare are stored alike. */
  lemma CastDropsUndeclared(l: LineInput, image: Option<string>, category: string)
    ensures CastLine(l) == CastLine(LineInput(l.item.(imageUrl := image, category := category), l.quantity))
  {
  }

  /** A stored order; `createdAt` and `updatedAt` come from `timestamps: true`. */
  datatype Order = Order(
    id: Id, sessionId: string, table: string, items: seq<OrderLine>, total: int,
    status: Status, createdAt: int, updatedAt: int)

  /** An order document as offered to `Order.create`. */
  datatype OrderDraft = OrderDraft(
    sessionId: Option<string>, table: Option<string>, items: seq<LineInput>, total: Option<int>,
    status: Option<string>)

  /** Validation and creation at time `now`: the stored order, or None for a ValidationError. */
  function Create(id: Id, d: OrderDraft, now: int): Option<Order>
  {
    var status := StatusOrDefault(d.status);
    if TruthyString(d.sessionId) && TruthyString(d.table) && d.total.Some? && status.Some?
    then Some(Order(id, d.sessionId.value, d.table.value, CastLines(d.items), d.total.value, status.value, now, now))
    else None
  }

  /**
   * An order is created exactly when `sessionId`, `table` and `total` are present and `status`
   * is absent or in the enum; then the stored fields are the given ones and the status its default.
   */
  lemma CreateAccepts(id: Id, d: OrderDraft, now: int)
    ensures Create(id, d, now).Some? <==>
      TruthyString(d.sessionId) && TruthyString(d.table) && d.total.Some? &&
      (d.status.None? || d.status.value in StatusNames)
    ensures Create(id, d, now).Some? ==>
      var o := Create(id, d, now).value;
      o.id == id && o.createdAt == now && o.updatedAt == now &&
      o.sessionId == d.sessionId.value && o.table == d.table.value && o.total == d.total.value &&
      |o.items| == |d.items| &&
      (forall i :: 0 <= i < |d.items| ==>
        o.items[i].id == d.items[i].item.id && o.items[i].name == d.items[i].item.name &&
        o.items[i].price == d.items[i].item.price && o.items[i].quantity == d.items[i].quantity) &&
      StatusName(o.status) == d.status.GetOr("pending")
  {
  }

  /** A status that is not given defaults to `pending`. */
  lemma StatusDefaultsToPending(id: Id, d: OrderDraft, now: int)
    requires d.status.None? && Create(id, d, now).Some?
    ensures Create(id, d, now).value.status == Pending
  {
  }
}
