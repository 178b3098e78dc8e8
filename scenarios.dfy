/** Request sequences run against a fresh store, showing what the handlers' contracts imply
    for concrete inputs. */
module Scenarios {
  import opened Wrappers
  import opened Http
  import opened Models
  import opened Store
  import opened OrdersController

  const Alice := User("u1", "alice", "hash", ["Employee"], true)

  /** T1 gets ticket 100, a second T1 is refused with 409, T2 gets ticket 101. */
  method TicketsFromStart() returns (first: int, second: int, dup: Response)
    ensures first == StartSeq && second == StartSeq + 1
    ensures dup == Response(Conflict, DuplicateOrder)
  {
    var db := new Store([Alice]);
    var r1 := CreateNewOrder(db, Some("u1"), Some("T1"), Some("body"), "o1");
    first := db.orders[0].ticket;
    dup := CreateNewOrder(db, Some("u1"), Some("T1"), Some("other"), "o2");
    var r3 := CreateNewOrder(db, Some("u1"), Some("T2"), Some("body"), "o3");
    second := db.orders[1].ticket;
  }

  /** After an order is deleted the counter does not go back: the next order's ticket is new. */
  method DeletionKeepsTicketUsed() returns (reissued: int)
    ensures reissued == StartSeq + 1
  {
    var db := new Store([Alice]);
    var r1 := CreateNewOrder(db, Some("u1"), Some("T1"), Some("body"), "o1");
    var r2 := DeleteOrderFixed(db, Some("o1"));
    var r3 := CreateNewOrder(db, Some("u1"), Some("T1"), Some("body"), "o2");
    reissued := db.orders[0].ticket;
  }

  /** An update that keeps the order's own title succeeds; taking another order's title is refused. */
  method UpdateSelfTitle() returns (same: Response, taken: Response)
    ensures same == Response(OK, OrderUpdated("T1"))
    ensures taken == Response(Conflict, DuplicateOrder)
  {
    var db := new Store([Alice]);
    var r1 := CreateNewOrder(db, Some("u1"), Some("T1"), Some("body"), "o1");
    var r2 := CreateNewOrder(db, Some("u1"), Some("T2"), Some("body"), "o2");
    OwnTitleNoConflict(db.orders, 0, "T1");
    same := UpdateOrder(db, Some("o1"), Some("u1"), Some("T1"), Some("new"), Boolean(true));
    assert db.orders[1].title == "T2";
    taken := UpdateOrder(db, Some("o1"), Some("u1"), Some("T2"), Some("new"), Boolean(true));
  }

  /** `completed` sent as the string "true" is not a boolean, and an empty title is falsy. */
  method UpdateRejectsLooseFields() returns (asText: Response, emptyTitle: Response)
    ensures asText == Response(BadRequest, AllFieldsRequired)
    ensures emptyTitle == Response(BadRequest, AllFieldsRequired)
  {
    var db := new Store([Alice]);
    var r1 := CreateNewOrder(db, Some("u1"), Some("T1"), Some("body"), "o1");
    asText := UpdateOrder(db, Some("o1"), Some("u1"), Some("T1"), Some("body"), Str("true"));
    emptyTitle := UpdateOrder(db, Some("o1"), Some("u1"), Some(""), Some("body"), Boolean(false));
  }

  /** DELETE /orders with an order's own id finds nothing and leaves the order in place;
      with the user's id it removes the user and still leaves the order. */
  method DeleteOrderFindsUsers() returns (byOrderId: Response, byUserId: Response,
                                          ordersLeft: nat, usersLeft: nat)
    ensures byOrderId == Response(BadRequest, OrderNotFound)
    ensures byUserId == Response(OK, OrderDeleted)
    ensures ordersLeft == 1 && usersLeft == 0
  {
    var db := new Store([Alice]);
    var r1 := CreateNewOrder(db, Some("u1"), Some("T1"), Some("body"), "o1");
    assert !HasUser(db.users, "o1") by { assert db.users == [Alice]; }
    byOrderId := DeleteOrder(db, Some("o1"));
    assert db.users[0].id == "u1";
    byUserId := DeleteOrder(db, Some("u1"));
    ordersLeft, usersLeft := |db.orders|, |db.users|;
  }

  /** The corrected handler removes the order the id names. */
  method DeleteOrderFixedRemovesOrder() returns (reply: Response, ordersLeft: nat, usersLeft: nat)
    ensures reply == Response(OK, OrderDeleted)
    ensures ordersLeft == 0 && usersLeft == 1
  {
    var db := new Store([Alice]);
    var r1 := CreateNewOrder(db, Some("u1"), Some("T1"), Some("body"), "o1");
    assert db.orders[0].id == "o1";
    reply := DeleteOrderFixed(db, Some("o1"));
    ordersLeft, usersLeft := |db.orders|, |db.users|;
  }

  /** Creating an order never checks that its user exists, so the listing that follows throws;
      the guarded listing returns the order without a username. */
  method DanglingUserThrows() returns (created: Response, listed: Listing<OrderWithUser>,
                                       guarded: Listing<OrderWithUser>)
    ensures created == Response(Created, NewOrderCreated)
    ensures listed.Thrown?
    ensures guarded.Records? && |guarded.records| == 1 && guarded.records[0].username.None?
  {
    var db := new Store([Alice]);
    created := CreateNewOrder(db, Some("u9"), Some("T1"), Some("body"), "o1");
    assert !HasUser(db.users, db.orders[0].user) by { assert db.users == [Alice]; }
    listed := GetAllOrders(db.orders, db.users);
    guarded := GetAllOrdersGuarded(db.orders, db.users);
  }
}
