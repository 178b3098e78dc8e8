/** Document shapes of the `Order` and `User` collections, the schema's required and default
    rules for orders, and the invariants the order collection is meant to keep. */
module Models {
  import opened Wrappers

  /** A document id (a MongoDB ObjectId), carried as its string form. */
  type Id = string

  /** The first value the `ticket` plugin's counter `ticketNums` issues. */
  const StartSeq: int := 100

  datatype Order = Order(id: Id, user: Id, title: string, text: string, completed: bool, ticket: int)

  datatype User = User(id: Id, username: string, password: string, roles: seq<string>, active: bool)

  /** The fields handed to `Order.create`; `completed` may be left out. */
  datatype OrderFields = OrderFields(user: Id, title: string, text: string, completed: Option<bool>)

  /** `required: true` on `user`, `title` and `text` (an empty string fails the required validator). */
  predicate HasRequired(f: OrderFields) {
    f.user != "" && f.title != "" && f.text != ""
  }

  /** A stored document passes the same required rule. */
  predicate SchemaValid(o: Order) {
    HasRequired(OrderFields(o.user, o.title, o.text, Some(o.completed)))
  }

  /** The document `Order.create` builds: validation fails when a required field is missing;
      otherwise `completed` takes its default and `ticket` the counter's value. */
  function Build(id: Id, f: OrderFields, ticket: int): (r: Option<Order>)
    ensures r.Some? <==> HasRequired(f)
    ensures r.Some? ==> SchemaValid(r.value)
    ensures r.Some? ==> r.value.id == id && r.value.user == f.user && r.value.title == f.title
                        && r.value.text == f.text && r.value.ticket == ticket
    ensures r.Some? && f.completed.None? ==> !r.value.completed
    ensures r.Some? && f.completed.Some? ==> r.value.completed == f.completed.value
  {
    if !HasRequired(f) then None
    else
      var completed := match f.completed case Some(c) => c case None => false;
      Some(Order(id, f.user, f.title, f.text, completed, ticket))
  }

  /** Some stored order has this id / this title; some user has this id. */
  predicate HasOrder(orders: seq<Order>, id: Id) {
    exists i :: 0 <= i < |orders| && orders[i].id == id
  }

  predicate TitleTaken(orders: seq<Order>, title: string) {
    exists i :: 0 <= i < |orders| && orders[i].title == title
  }

  /** An order other than the one with id `self` already carries `title`. */
  predicate TitleHeldByOther(orders: seq<Order>, title: string, self: Id) {
    exists i :: 0 <= i < |orders| && orders[i].title == title && orders[i].id != self
  }

  predicate HasUser(users: seq<User>, id: Id) {
    exists j :: 0 <= j < |users| && users[j].id == id
  }

  /** ObjectIds are never empty, so every stored order can be named by a body `id`. */
  predicate OrderIdsPresent(orders: seq<Order>) {
    forall i :: 0 <= i < |orders| ==> orders[i].id != ""
  }

  predicate OrderIdsUnique(orders: seq<Order>) {
    forall i, j :: 0 <= i < j < |orders| ==> orders[i].id != orders[j].id
  }

  predicate UserIdsUnique(users: seq<User>) {
    forall i, j :: 0 <= i < j < |users| ==> users[i].id != users[j].id
  }

  predicate TitlesUnique(orders: seq<Order>) {
    forall i, j :: 0 <= i < j < |orders| ==> orders[i].title != orders[j].title
  }

  /** Orders are kept in creation order, so this says tickets grow with creation order. */
  predicate TicketsIncreasing(orders: seq<Order>) {
    forall i, j :: 0 <= i < j < |orders| ==> orders[i].ticket < orders[j].ticket
  }

  /** Every stored ticket was issued by a counter whose last value is `last`. */
  predicate TicketsIssued(orders: seq<Order>, last: int) {
    forall i :: 0 <= i < |orders| ==> StartSeq <= orders[i].ticket <= last
  }

  predicate AllSchemaValid(orders: seq<Order>) {
    forall i :: 0 <= i < |orders| ==> SchemaValid(orders[i])
  }

  /** What the order collection keeps between requests, given the counter's last value. */
  predicate OrdersValid(orders: seq<Order>, last: int) {
    && StartSeq - 1 <= last
    && AllSchemaValid(orders)
    && OrderIdsPresent(orders)
    && OrderIdsUnique(orders)
    && TitlesUnique(orders)
    && TicketsIncreasing(orders)
    && TicketsIssued(orders, last)
  }

  /** The schema constrains each document alone and declares no unique index on `title`:
      `Order.create` accepts fields whose title a stored order already holds, and the
      insert then breaks uniqueness, so uniqueness rests on the controllers. */
  lemma SchemaAllowsDuplicateTitle(orders: seq<Order>, id: Id, f: OrderFields, ticket: int)
    requires AllSchemaValid(orders) && HasRequired(f)
    requires TitleTaken(orders, f.title)
    ensures Build(id, f, ticket).Some?
    ensures AllSchemaValid(orders + [Build(id, f, ticket).value])
    ensures !TitlesUnique(orders + [Build(id, f, ticket).value])
  {
    var i :| 0 <= i < |orders| && orders[i].title == f.title;
    var s := orders + [Build(id, f, ticket).value];
    assert s[i].title == s[|orders|].title;
  }
}
