/** The four handlers of the `/orders` resource. Reading the list is a function of the two
    collections; creating, updating and deleting are methods that change the store. */
module OrdersController {
  import opened Wrappers
  import opened Http
  import opened Models
  import opened Store

  /** A listed order: the stored document plus its user's `username`
      (`None` only where the guarded join finds no user). */
  datatype OrderWithUser = OrderWithUser(order: Order, username: Option<string>)

  /** Some user with id `id` has username `name`. */
  predicate UserNamed(users: seq<User>, id: Id, name: string) {
    exists j :: 0 <= j < |users| && users[j].id == id && users[j].username == name
  }

  /** `{ ...order, username: user.username }` for each order, failing as a whole when any
      `User.findById` finds nothing (the property read on null throws). */
  function JoinUsernames(orders: seq<Order>, users: seq<User>): (r: Option<seq<OrderWithUser>>)
    ensures r.None? <==> exists i :: 0 <= i < |orders| && !HasUser(users, orders[i].user)
    ensures r.Some? ==> |r.value| == |orders|
    ensures r.Some? ==> forall i :: 0 <= i < |orders| ==>
              r.value[i].order == orders[i] && r.value[i].username.Some?
              && UserNamed(users, orders[i].user, r.value[i].username.value)
  {
    if |orders| == 0 then Some([])
    else
      match UserById(users, orders[0].user)
      case None => None
      case Some(j) =>
        match JoinUsernames(orders[1..], users)
        case None =>
          assert forall i :: 1 <= i < |orders| ==> orders[i] == orders[1..][i - 1];
          None
        case Some(rest) =>
          var r := [OrderWithUser(orders[0], Some(users[j].username))] + rest;
          assert forall i :: 1 <= i < |orders| ==> orders[i] == orders[1..][i - 1] && r[i] == rest[i - 1];
          Some(r)
  }

  /** GET /orders, as written: no orders gives 400; a dangling user reference throws. */
  function GetAllOrders(orders: seq<Order>, users: seq<User>): (r: Listing<OrderWithUser>)
    ensures r.Refused? <==> |orders| == 0
    ensures r.Refused? ==> r.reply == Response(BadRequest, NoOrdersFound)
    ensures r.Thrown? <==> |orders| > 0 && exists i :: 0 <= i < |orders| && !HasUser(users, orders[i].user)
    ensures r.Records? ==> |r.records| == |orders|
    ensures r.Records? ==> forall i :: 0 <= i < |orders| ==>
              r.records[i].order == orders[i] && r.records[i].username.Some?
              && UserNamed(users, orders[i].user, r.records[i].username.value)
  {
    if |orders| == 0 then Refused(Response(BadRequest, NoOrdersFound))
    else
      match JoinUsernames(orders, users)
      case None => Thrown
      case Some(rs) => Records(rs)
  }

  /** The join with `user?.username`: an order whose user is gone is listed without a username. */
  function JoinUsernamesGuarded(orders: seq<Order>, users: seq<User>): (r: seq<OrderWithUser>)
    ensures |r| == |orders|
    ensures forall i :: 0 <= i < |orders| ==> r[i].order == orders[i]
    ensures forall i :: 0 <= i < |orders| ==> (r[i].username.Some? <==> HasUser(users, orders[i].user))
    ensures forall i :: 0 <= i < |orders| && r[i].username.Some? ==>
              UserNamed(users, orders[i].user, r[i].username.value)
  {
    if |orders| == 0 then []
    else
      var head := match UserById(users, orders[0].user)
                  case None => OrderWithUser(orders[0], None)
                  case Some(j) => OrderWithUser(orders[0], Some(users[j].username));
      var rest := JoinUsernamesGuarded(orders[1..], users);
      var r := [head] + rest;
      assert forall i :: 1 <= i < |orders| ==> orders[i] == orders[1..][i - 1] && r[i] == rest[i - 1];
      r
  }

  /** GET /orders with the null guard: never throws. */
  function GetAllOrdersGuarded(orders: seq<Order>, users: seq<User>): (r: Listing<OrderWithUser>)
    ensures !r.Thrown?
    ensures r.Refused? <==> |orders| == 0
    ensures r.Refused? ==> r.reply == Response(BadRequest, NoOrdersFound)
    ensures r.Records? ==> |r.records| == |orders|
    ensures r.Records? ==> forall i :: 0 <= i < |orders| ==> r.records[i].order == orders[i]
    ensures r.Records? ==> forall i :: 0 <= i < |orders| ==>
              (r.records[i].username.Some? <==> HasUser(users, orders[i].user))
    ensures r.Records? ==> forall i :: 0 <= i < |orders| && r.records[i].username.Some? ==>
              UserNamed(users, orders[i].user, r.records[i].username.value)
  {
    if |orders| == 0 then Refused(Response(BadRequest, NoOrdersFound))
    else Records(JoinUsernamesGuarded(orders, users))
  }

  /** Where every order's user resolves, the two joins build the same list. */
  lemma {:induction false} JoinsAgree(orders: seq<Order>, users: seq<User>)
    requires forall i :: 0 <= i < |orders| ==> HasUser(users, orders[i].user)
    ensures JoinUsernames(orders, users) == Some(JoinUsernamesGuarded(orders, users))
  {
    if |orders| > 0 {
      assert forall i :: 1 <= i < |orders| ==> orders[1..][i - 1] == orders[i];
      JoinsAgree(orders[1..], users);
    }
  }

  /** So the guard changes the reply only where the original throws. */
  lemma GuardChangesOnlyThrows(orders: seq<Order>, users: seq<User>)
    ensures !GetAllOrders(orders, users).Thrown? ==>
              GetAllOrdersGuarded(orders, users) == GetAllOrders(orders, users)
  {
    if !GetAllOrders(orders, users).Thrown? && |orders| > 0 {
      JoinsAgree(orders, users);
    }
  }

  /** POST /orders; `newId` is the ObjectId the driver generates for the new document. */
  method CreateNewOrder(db: Store, user: Field, title: Field, text: Field, newId: Id) returns (res: Response)
    requires db.Valid()
    requires newId != "" && !HasOrder(db.orders, newId)
    modifies db
    ensures db.Valid()
    ensures !(Present(user) && Present(title) && Present(text)) ==>
              res == Response(BadRequest, AllFieldsRequired) && unchanged(db)
    ensures Present(user) && Present(title) && Present(text) && TitleTaken(old(db.orders), title.value) ==>
              res == Response(Conflict, DuplicateOrder) && unchanged(db)
    ensures Present(user) && Present(title) && Present(text) && !TitleTaken(old(db.orders), title.value) ==>
              && res == Response(Created, NewOrderCreated)
              && db.orders == old(db.orders) + [Order(newId, user.value, title.value, text.value, false, old(db.ticketNums) + 1)]
              && db.ticketNums == old(db.ticketNums) + 1
              && db.users == old(db.users)
    ensures db.ticketNums >= old(db.ticketNums)
  {
    if !Present(user) || !Present(title) || !Present(text) {
      return Response(BadRequest, AllFieldsRequired);
    }
    var duplicate := OrderByTitle(db.orders, title.value);
    if duplicate.Some? {
      return Response(Conflict, DuplicateOrder);
    }
    ghost var before := db.orders;
    var order := db.Create(newId, OrderFields(user.value, title.value, text.value, None));
    CreateKeepsValid(before, old(db.ticketNums), order.value);
    res := Response(Created, NewOrderCreated);
  }

  /** Appending an order with a fresh id, a fresh title and the counter's next value keeps the
      collection's invariants for the advanced counter. */
  lemma CreateKeepsValid(orders: seq<Order>, last: int, o: Order)
    requires OrdersValid(orders, last)
    requires SchemaValid(o) && o.id != "" && !HasOrder(orders, o.id) && !TitleTaken(orders, o.title)
    requires o.ticket == last + 1
    ensures OrdersValid(orders + [o], last + 1)
  {
  }

  /** `after` is `before` with exactly `user`, `title`, `text` and `completed` of position `k`
      replaced; its id, its ticket and every other order stay as they were. */
  predicate Replaced(before: seq<Order>, after: seq<Order>, k: nat,
                     user: Id, title: string, text: string, completed: bool)
  {
    && |after| == |before| && k < |before|
    && (forall j :: 0 <= j < |before| && j != k ==> after[j] == before[j])
    && after[k].id == before[k].id && after[k].ticket == before[k].ticket
    && after[k].user == user && after[k].title == title && after[k].text == text
    && after[k].completed == completed
  }

  /** Under unique titles, `findOne({ title })` meeting an order whose id differs from `id`
      is exactly "another order holds the title". */
  lemma DuplicateCheckExact(orders: seq<Order>, title: string, id: Id)
    requires TitlesUnique(orders)
    ensures (OrderByTitle(orders, title).Some? && orders[OrderByTitle(orders, title).value].id != id)
            <==> TitleHeldByOther(orders, title, id)
  {
  }

  /** An order keeps its own title, or takes a title no order holds, without a conflict. */
  lemma OwnTitleNoConflict(orders: seq<Order>, k: nat, title: string)
    requires OrderIdsUnique(orders) && TitlesUnique(orders) && k < |orders|
    requires title == orders[k].title || !TitleTaken(orders, title)
    ensures !TitleHeldByOther(orders, title, orders[k].id)
  {
  }

  /** Replacing the fields of one order keeps the invariants when no other order holds the
      new title and the new fields are non-empty. */
  lemma ReplaceKeepsValid(orders: seq<Order>, after: seq<Order>, last: int, k: nat,
                          user: Id, title: string, text: string, completed: bool)
    requires OrdersValid(orders, last)
    requires Replaced(orders, after, k, user, title, text, completed)
    requires user != "" && title != "" && text != ""
    requires !TitleHeldByOther(orders, title, orders[k].id)
    ensures OrdersValid(after, last)
  {
  }

  /** PATCH /orders: full replacement of the four fields of the order `id`. */
  method UpdateOrder(db: Store, id: Field, user: Field, title: Field, text: Field, completed: JsValue)
    returns (res: Response)
    requires db.Valid()
    modifies db
    ensures db.Valid()
    ensures db.users == old(db.users) && db.ticketNums == old(db.ticketNums)
    ensures !(Present(id) && Present(user) && Present(title) && Present(text) && IsBoolean(completed)) ==>
              res == Response(BadRequest, AllFieldsRequired) && unchanged(db)
    ensures Present(id) && Present(user) && Present(title) && Present(text) && IsBoolean(completed) ==>
              && (!HasOrder(old(db.orders), id.value) ==>
                    res == Response(BadRequest, OrderNotFound) && unchanged(db))
              && (HasOrder(old(db.orders), id.value) && TitleHeldByOther(old(db.orders), title.value, id.value) ==>
                    res == Response(Conflict, DuplicateOrder) && unchanged(db))
              && (HasOrder(old(db.orders), id.value) && !TitleHeldByOther(old(db.orders), title.value, id.value) ==>
                    && res == Response(OK, OrderUpdated(title.value))
                    && exists k :: 0 <= k < |old(db.orders)| && old(db.orders)[k].id == id.value
                         && Replaced(old(db.orders), db.orders, k, user.value, title.value, text.value, completed.b))
  {
    if !Present(id) || !Present(user) || !Present(title) || !Present(text) || !IsBoolean(completed) {
      return Response(BadRequest, AllFieldsRequired);
    }
    var order := OrderById(db.orders, id.value);
    if order.None? {
      return Response(BadRequest, OrderNotFound);
    }
    var k := order.value;
    var duplicate := OrderByTitle(db.orders, title.value);
    DuplicateCheckExact(db.orders, title.value, id.value);
    if duplicate.Some? && db.orders[duplicate.value].id != id.value {
      return Response(Conflict, DuplicateOrder);
    }
    var updated := db.orders[k].(user := user.value, title := title.value, text := text.value,
                                 completed := completed.b);
    db.Save(k, updated);
    ReplaceKeepsValid(old(db.orders), db.orders, db.ticketNums, k, user.value, title.value, text.value, completed.b);
    res := Response(OK, OrderUpdated(db.orders[k].title));
  }

  /** DELETE /orders as written: the id is looked up in the USER collection, so what it
      removes is a user; the orders are never touched. */
  method DeleteOrder(db: Store, id: Field) returns (res: Response)
    requires db.Valid()
    modifies db
    ensures db.Valid()
    ensures db.orders == old(db.orders) && db.ticketNums == old(db.ticketNums)
    ensures !Present(id) ==> res == Response(BadRequest, OrderIdRequired) && unchanged(db)
    ensures Present(id) && !HasUser(old(db.users), id.value) ==>
              res == Response(BadRequest, OrderNotFound) && unchanged(db)
    ensures Present(id) && HasUser(old(db.users), id.value) ==>
              && res == Response(OK, OrderDeleted)
              && !HasUser(db.users, id.value)
              && exists k :: 0 <= k < |old(db.users)| && old(db.users)[k].id == id.value
                   && db.users == RemoveAt(old(db.users), k)
  {
    if !Present(id) {
      return Response(BadRequest, OrderIdRequired);
    }
    var order := UserById(db.users, id.value);
    if order.None? {
      return Response(BadRequest, OrderNotFound);
    }
    var k := order.value;
    RemoveUserKeepsUnique(db.users, k);
    db.DeleteUserAt(k);
    res := Response(OK, OrderDeleted);
  }

  /** DELETE /orders with the lookup in the order collection, as the handler's name and
      messages intend: removes that one order; users and the counter stay. */
  method DeleteOrderFixed(db: Store, id: Field) returns (res: Response)
    requires db.Valid()
    modifies db
    ensures db.Valid()
    ensures db.users == old(db.users) && db.ticketNums == old(db.ticketNums)
    ensures !Present(id) ==> res == Response(BadRequest, OrderIdRequired) && unchanged(db)
    ensures Present(id) && !HasOrder(old(db.orders), id.value) ==>
              res == Response(BadRequest, OrderNotFound) && unchanged(db)
    ensures Present(id) && HasOrder(old(db.orders), id.value) ==>
              && res == Response(OK, OrderDeleted)
              && !HasOrder(db.orders, id.value)
              && exists k :: 0 <= k < |old(db.orders)| && old(db.orders)[k].id == id.value
                   && db.orders == RemoveAt(old(db.orders), k)
  {
    if !Present(id) {
      return Response(BadRequest, OrderIdRequired);
    }
    var order := OrderById(db.orders, id.value);
    if order.None? {
      return Response(BadRequest, OrderNotFound);
    }
    var k := order.value;
    RemoveOrderKeepsValid(db.orders, db.ticketNums, k);
    RemoveOrderDropsId(db.orders, k);
    db.DeleteOrderAt(k);
    res := Response(OK, OrderDeleted);
  }

  lemma RemoveOrderDropsId(orders: seq<Order>, k: nat)
    requires OrderIdsUnique(orders) && k < |orders|
    ensures !HasOrder(RemoveAt(orders, k), orders[k].id)
  {
  }
}
